/** The loops that read a request head in the receive buffer, each proved against
    the function on text that it computes. Only the URL terminator is written. */
module HttpBuffer {
  import opened Common
  import opened HttpRequest

  method FindHeaderEnd(buf: array<char>, len: nat) returns (h: int)
    requires len <= buf.Length
    ensures h == HeaderEnd(buf[..len])
  {
    h := -1;
    var i := 0;
    while i + 3 < len
      invariant 0 <= i && h == -1
      invariant forall j: nat :: j < i ==> !BlankLineAt(buf[..len], j)
    {
      if buf[i] == '\r' && buf[i + 1] == '\n' && buf[i + 2] == '\r' && buf[i + 3] == '\n' {
        assert BlankLineAt(buf[..len], i);
        return i + 4;
      }
      assert !BlankLineAt(buf[..len], i);
      i := i + 1;
    }
  }

  method MatchCommand(buf: array<char>, len: nat) returns (k: nat)
    requires len <= buf.Length
    ensures k == FindCommand(buf[..len], 0)
  {
    hide FindCommand;
    k := 0;
    while k < |COMMANDS|
      invariant k <= |COMMANDS|
      invariant FindCommand(buf[..len], 0) == FindCommand(buf[..len], k)
    {
      FindCommandNext(buf[..len], k);
      var name := COMMANDS[k].0;
      PrefixOfPart(name, buf[..], len);
      if len >= |name| && name == buf[..|name|] {
        return;
      }
      k := k + 1;
    }
  }

  lemma PrefixOfPart(name: string, s: string, len: nat)
    requires len <= |s|
    ensures name <= s[..len] <==> len >= |name| && name == s[..|name|]
  {
    if len >= |name| {
      assert s[..len][..|name|] == s[..|name|];
    }
  }

  /** Ends the URL with a NUL in place of the white space after it. */
  method TerminateUrl(buf: array<char>, start: nat, hdrEnd: nat) returns (stop: nat)
    requires start <= hdrEnd <= buf.Length
    modifies buf
    ensures stop == UrlEnd(old(buf[..hdrEnd]), start)
    ensures buf[..] == if stop < hdrEnd then old(buf[..])[stop := '\0'] else old(buf[..])
  {
    ghost var head := buf[..hdrEnd];
    stop := start;
    while stop < hdrEnd
      invariant start <= stop <= hdrEnd && buf[..] == old(buf[..])
      invariant UrlEnd(head, start) == UrlEnd(head, stop)
      decreases hdrEnd - stop
    {
      var ch := buf[stop];
      if ch == '\r' || ch == '\n' || ch == ' ' || ch == '\t' {
        buf[stop] := '\0';
        return;
      }
      stop := stop + 1;
    }
  }

  method FindLineEnd(buf: array<char>, p: nat, end: nat) returns (e: nat)
    requires p <= end <= buf.Length
    ensures e == p + LineEnd(buf[p..end])
  {
    e := p;
    while e + 1 < end && !(buf[e] == '\r' && buf[e + 1] == '\n')
      invariant p <= e <= end
      invariant e - p + LineEnd(buf[e..end]) == LineEnd(buf[p..end])
    {
      assert buf[e..end][1..] == buf[e + 1..end];
      e := e + 1;
    }
  }

  method MatchesName(buf: array<char>, p: nat) returns (match_: bool)
    requires p + |FIELD_NAME| <= buf.Length
    ensures match_ <==> EqualsIgnoringCase(buf[p..p + |FIELD_NAME|], FIELD_NAME)
  {
    var i := 0;
    while i < |FIELD_NAME|
      invariant 0 <= i <= |FIELD_NAME|
      invariant forall j :: 0 <= j < i ==> ToLower(buf[p + j]) == ToLower(FIELD_NAME[j])
    {
      if ToLower(buf[p + i]) != ToLower(FIELD_NAME[i]) {
        assert buf[p..p + |FIELD_NAME|][i] == buf[p + i];
        return false;
      }
      i := i + 1;
    }
    return true;
  }

  lemma Remainder(x: nat, k: nat, b: nat)
    requires x == k * 0x1_0000_0000 + b && b < 0x1_0000_0000
    ensures x % 0x1_0000_0000 == b
  {
  }

  lemma ModStep(n: nat, d: nat)
    ensures (10 * n + d) % 0x1_0000_0000 == (n % 0x1_0000_0000 * 10 + d) % 0x1_0000_0000
  {
    var a := n % 0x1_0000_0000 * 10 + d;
    Remainder(10 * n + d, 10 * (n / 0x1_0000_0000) + a / 0x1_0000_0000, a % 0x1_0000_0000);
  }

  // One more digit, modulo 2^32.
  lemma DecimalStep(digits: string, c: char)
    ensures Wrap32(Decimal(digits + [c])) == NextValue(Wrap32(Decimal(digits)), DigitValue(c))
  {
    assert (digits + [c])[..|digits|] == digits;
    assert Decimal(digits + [c]) == 10 * Decimal(digits) + DigitValue(c);
    hide Decimal, DigitValue;
    ModStep(Decimal(digits), DigitValue(c));
  }

  /** One more digit of a 32-bit number. */
  function NextValue(value: UInt32, d: nat): UInt32 { (value * 10 + d) % TWO_32 }

  method SkipBlanks(buf: array<char>, p: nat, e: nat) returns (j: nat)
    requires p <= e <= buf.Length
    ensures j == p + BlankCount(buf[p..e])
  {
    j := p;
    while j < e && (buf[j] == ' ' || buf[j] == '\t')
      invariant p <= j <= e
      invariant BlankCount(buf[p..e]) == j - p + BlankCount(buf[j..e])
    {
      assert buf[j..e][1..] == buf[j + 1..e];
      j := j + 1;
    }
  }

  lemma {:induction false} CountIs(s: string, n: nat)
    requires n <= |s| && (forall i :: 0 <= i < n ==> IsDigit(s[i])) && (n < |s| ==> !IsDigit(s[n]))
    ensures DigitCount(s) == n
  {
    if n > 0 {
      CountIs(s[1..], n - 1);
    }
  }

  /** Reads leading digits; the value wraps at 32 bits. */
  method ReadDigits(buf: array<char>, p: nat, e: nat) returns (value: UInt32, any: bool)
    requires p <= e <= buf.Length
    ensures var digits := buf[p..e][..DigitCount(buf[p..e])];
      any == (digits != "") && value == Wrap32(Decimal(digits))
  {
    assert Wrap32(Decimal("")) == 0;
    hide Decimal, DigitCount, DigitValue, Wrap32, NextValue;
    ghost var s := buf[p..e];
    var j := p;
    value, any := 0, false;
    while j < e && '0' <= buf[j] <= '9'
      invariant p <= j <= e && (any <==> p < j)
      invariant forall i :: 0 <= i < j - p ==> IsDigit(s[i])
      invariant value == Wrap32(Decimal(s[..j - p]))
    {
      assert s[..j - p + 1] == s[..j - p] + [s[j - p]];
      DecimalStep(s[..j - p], s[j - p]);
      any := true;
      value := NextValue(value, DigitValue(buf[j]));
      j := j + 1;
    }
    CountIs(s, j - p);
  }

  method ReadValue(buf: array<char>, p: nat, e: nat) returns (r: Option<UInt32>)
    requires p <= e <= buf.Length
    ensures r == LineValue(buf[p..e])
  {
    r := None;
    ghost var line := buf[p..e];
    if e - p >= |FIELD_NAME| {
      var first := p + |FIELD_NAME|;
      assert line[..|FIELD_NAME|] == buf[p..first] && line[|FIELD_NAME|..] == buf[first..e];
      var match_ := MatchesName(buf, p);
      if match_ {
        var j := SkipBlanks(buf, first, e);
        assert buf[first..e][BlankCount(buf[first..e])..] == buf[j..e];
        var value, any := ReadDigits(buf, j, e);
        if any {
          r := Some(value);
        }
      }
    }
  }

  function Override(v: Option<UInt32>, w: Option<UInt32>): Option<UInt32> {
    if w.Some? then w else v
  }

  function ValueOf(s: string): Option<UInt32> {
    LastValue(HeaderLines(s))
  }

  /** Reads one line and steps over its CRLF. */
  method ScanLine(buf: array<char>, p: nat, end: nat) returns (v: Option<UInt32>, p': nat)
    requires p + 2 <= end <= buf.Length && !CrlfAt(buf[p..end], 0)
    ensures p < p' <= end
    ensures ValueOf(buf[p..end]) == Override(v, ValueOf(buf[p'..end]))
  {
    ghost var s := buf[p..end];
    var e := FindLineEnd(buf, p, end);
    v := ReadValue(buf, p, e);
    p' := Min(e + 2, end);
    assert s[..LineEnd(s)] == buf[p..e];
    assert AfterFirstLine(s) == buf[p'..end];
    LastValueCons(s[..LineEnd(s)], HeaderLines(AfterFirstLine(s)));
  }

  method ScanContentLength(buf: array<char>, end: nat) returns (r: Option<UInt32>)
    requires end <= buf.Length
    ensures r == LastValue(HeaderLines(AfterFirstLine(buf[..end])))
  {
    r := None;
    var e := FindLineEnd(buf, 0, end);
    assert buf[0..end] == buf[..end];
    var p := Min(e + 2, end);
    assert buf[p..end] == AfterFirstLine(buf[..end]);
    ghost var total := ValueOf(buf[p..end]);
    while p + 1 < end && !(buf[p] == '\r' && buf[p + 1] == '\n')
      invariant 0 <= p <= end
      invariant total == Override(r, ValueOf(buf[p..end]))
    {
      assert buf[p..end][0] == buf[p] && buf[p..end][1] == buf[p + 1];
      var v, next := ScanLine(buf, p, end);
      r, p := Override(r, v), next;
    }
    assert ValueOf(buf[p..end]) == None;
  }

  method ReadInPlace(buf: array<char>, start: nat, hdrEnd: nat, command: Command) returns (r: Option<Request>)
    requires start <= hdrEnd <= buf.Length
    modifies buf
    ensures r == ReadRequest(old(buf[..hdrEnd]), start, command)
    ensures buf[hdrEnd..] == old(buf[hdrEnd..])
  {
    ghost var head := buf[..hdrEnd];
    var stop := TerminateUrl(buf, start, hdrEnd);
    if stop >= hdrEnd {
      return None;
    }
    assert buf[..hdrEnd] == head[stop := '\0'];
    assert buf[start..stop] == head[start..stop];
    var length := ScanContentLength(buf, hdrEnd);
    r := Some(Request(command, CString(buf[start..stop]), length));
  }

  /** Parses the head `buf[..hdrEnd]` of the `len` bytes received so far. */
  method ParseInPlace(buf: array<char>, len: nat, hdrEnd: nat) returns (r: Option<Request>)
    requires hdrEnd <= len <= buf.Length && HeaderEnd(buf[..len]) == hdrEnd
    modifies buf
    ensures r == ParseRequest(old(buf[..hdrEnd]))
    ensures buf[hdrEnd..] == old(buf[hdrEnd..])
  {
    ghost var head := buf[..hdrEnd];
    assert HeaderEnd(head) == hdrEnd by {
      assert buf[..len][..hdrEnd] == head;
      HeadIsComplete(buf[..len]);
    }
    ParsedIffCommandKnown(head);
    var k := MatchCommand(buf, len);
    CommandInHead(buf[..len], 0);
    assert buf[..len][..hdrEnd] == head;
    if k == |COMMANDS| {
      return None;
    }
    r := ReadInPlace(buf, |COMMANDS[k].0| + 1, hdrEnd, COMMANDS[k].1);
  }

  lemma HeadIsComplete(s: string)
    requires HeaderEnd(s) >= 0
    ensures HeaderEnd(s[..HeaderEnd(s)]) == HeaderEnd(s)
  {
    var head := s[..HeaderEnd(s)];
    assert forall i: nat :: BlankLineAt(head, i) ==> BlankLineAt(s, i);
    assert BlankLineAt(head, |head| - 4);
  }

  // A method name at the start of the text lies inside the head.
  lemma NameInHead(s: string, name: string)
    requires HeaderEnd(s) >= 0 && '\r' !in name
    ensures name <= s <==> name <= s[..HeaderEnd(s)]
  {
    var h := HeaderEnd(s);
    assert s[h - 4] == '\r';
    if name <= s {
      assert forall i :: 0 <= i < |name| ==> s[i] == name[i];
      assert |name| <= h - 4;
    }
  }

  lemma {:induction false} CommandInHead(s: string, k: nat)
    requires HeaderEnd(s) >= 0 && k <= |COMMANDS|
    ensures FindCommand(s, k) == FindCommand(s[..HeaderEnd(s)], k)
    decreases |COMMANDS| - k
  {
    if k < |COMMANDS| {
      NameHasNoCr(k);
      NameInHead(s, COMMANDS[k].0);
      CommandInHead(s, k + 1);
    }
  }
}
