/** What a Content-Length line says: numbers written in decimal, and heads built from lines. */
module HttpLength {
  import opened Common
  import opened HttpRequest

  // ------------------------------------------------------------ decimal numbers

  const DIGITS: string := "0123456789"

  /** The digits write `n` in base ten, possibly with leading zeros. */
  predicate Spells(digits: string, n: nat) {
    && digits != ""
    && digits[|digits| - 1] == DIGITS[n % 10]
    && if |digits| == 1 then n < 10 else Spells(digits[..|digits| - 1], n / 10)
  }

  /** The usual spelling of a number. */
  function Spelled(n: nat): string {
    (if n < 10 then "" else Spelled(n / 10)) + [DIGITS[n % 10]]
  }

  lemma {:induction false} SpelledSpells(n: nat)
    ensures Spells(Spelled(n), n)
  {
    var s := Spelled(n);
    if n >= 10 {
      SpelledSpells(n / 10);
      assert s[..|s| - 1] == Spelled(n / 10);
    }
  }

  lemma DigitOf(c: char, d: nat)
    requires d < 10 && c == DIGITS[d]
    ensures IsDigit(c) && DigitValue(c) == d
  {
  }

  // What is spelled is what the digits are worth.
  lemma {:induction false} SpelledIsRead(digits: string, n: nat)
    requires Spells(digits, n)
    ensures Decimal(digits) == n && forall i :: 0 <= i < |digits| ==> IsDigit(digits[i])
  {
    var most, last := digits[..|digits| - 1], digits[|digits| - 1];
    DigitOf(last, n % 10);
    hide IsDigit, DigitValue;
    if |digits| == 1 {
      assert most == "" && Decimal(most) == 0;
    } else {
      SpelledIsRead(most, n / 10);
    }
  }

  // Every nonempty string of digits spells what it is worth.
  lemma {:induction false} ReadIsSpelled(digits: string)
    requires digits != "" && forall i :: 0 <= i < |digits| ==> IsDigit(digits[i])
    ensures Spells(digits, Decimal(digits))
  {
    var most, last := digits[..|digits| - 1], digits[|digits| - 1];
    var n, d := Decimal(digits), DigitValue(last);
    assert n == 10 * Decimal(most) + d && d < 10;
    assert n % 10 == d && n / 10 == Decimal(most);
    assert last == DIGITS[d];
    if |digits| > 1 {
      ReadIsSpelled(most);
    }
  }

  // --------------------------------------------------------------- one line

  /** The field name in any mixture of cases. */
  predicate IsFieldName(name: string) {
    |name| == 15 && forall i :: 0 <= i < 15 ==> name[i] == "content-length:"[i] || name[i] == "CONTENT-LENGTH:"[i]
  }

  predicate AllBlank(s: string) {
    forall i :: 0 <= i < |s| ==> s[i] == ' ' || s[i] == '\t'
  }

  lemma CasesOf(c: char, i: nat)
    requires i < 15
    ensures ToLower(c) == ToLower(FIELD_NAME[i]) <==> c == "content-length:"[i] || c == "CONTENT-LENGTH:"[i]
  {
    LettersOf(i);
    if 'A' <= c <= 'Z' {
      assert (c as int + 32) as char as int == c as int + 32;
    }
  }

  lemma LettersOf(i: nat)
    requires i < 15
    ensures var l, u := "content-length:"[i], "CONTENT-LENGTH:"[i];
      && FIELD_NAME[i] == l && !('A' <= l <= 'Z')
      && (if 'A' <= u <= 'Z' then u as int + 32 == l as int else u == l && !('a' <= l <= 'z'))
  {
  }

  lemma NameIff(name: string)
    ensures EqualsIgnoringCase(name, FIELD_NAME) <==> IsFieldName(name)
  {
    assert |FIELD_NAME| == 15;
    hide ToLower;
    forall i | 0 <= i < 15 && |name| == 15
      ensures ToLower(name[i]) == ToLower(FIELD_NAME[i]) <==>
        name[i] == "content-length:"[i] || name[i] == "CONTENT-LENGTH:"[i]
    {
      CasesOf(name[i], i);
    }
  }

  /** The parts of a line that announces `n` bytes. */
  predicate AnnouncesWith(line: string, n: nat, name: string, blanks: string, digits: string, junk: string) {
    && line == name + (blanks + (digits + junk))
    && IsFieldName(name) && AllBlank(blanks) && Spells(digits, n)
    && (junk != "" ==> !IsDigit(junk[0]))
  }

  /** The line is the field name, blanks, the number in decimal, and anything but more digits. */
  ghost predicate Announces(line: string, n: nat) {
    exists name, blanks, digits, junk :: AnnouncesWith(line, n, name, blanks, digits, junk)
  }

  lemma {:induction false} SkipsBlanks(blanks: string, s: string)
    requires AllBlank(blanks) && s != "" && s[0] != ' ' && s[0] != '\t'
    ensures BlankCount(blanks + s) == |blanks|
  {
    if blanks == "" {
      assert blanks + s == s;
    } else {
      assert (blanks + s)[1..] == blanks[1..] + s;
      SkipsBlanks(blanks[1..], s);
    }
  }

  lemma {:induction false} CountsDigits(digits: string, junk: string)
    requires (forall i :: 0 <= i < |digits| ==> IsDigit(digits[i])) && (junk != "" ==> !IsDigit(junk[0]))
    ensures DigitCount(digits + junk) == |digits|
  {
    if digits == "" {
      assert digits + junk == junk;
    } else {
      assert (digits + junk)[1..] == digits[1..] + junk;
      CountsDigits(digits[1..], junk);
    }
  }

  lemma FirstPart(a: string, b: string)
    ensures (a + b)[..|a|] == a && (a + b)[|a|..] == b
  {
  }

  /** A line that announces a number is read as that number, cut to 32 bits. */
  lemma AnnouncedIsRead(line: string, n: nat)
    requires Announces(line, n)
    ensures LineValue(line) == Some(n % 0x1_0000_0000)
  {
    var name, blanks, digits, junk :| AnnouncesWith(line, n, name, blanks, digits, junk);
    NameIff(name);
    SpelledIsRead(digits, n);
    assert IsDigit(digits[0]);
    assert |FIELD_NAME| == 15;
    FirstPart(name, blanks + (digits + junk));
    FirstPart(blanks, digits + junk);
    FirstPart(digits, junk);
    assert (digits + junk)[0] == digits[0];
    SkipsBlanks(blanks, digits + junk);
    CountsDigits(digits, junk);
    hide EqualsIgnoringCase, BlankCount, DigitCount, Decimal, Spells, AllBlank;
  }

  /** And every line that is read as a number announces one. */
  lemma ReadIsAnnounced(line: string) returns (n: nat)
    requires LineValue(line).Some?
    ensures Announces(line, n) && LineValue(line) == Some(n % 0x1_0000_0000)
  {
    assert |FIELD_NAME| == 15;
    var name, rest := line[..15], line[15..];
    var b := BlankCount(rest);
    var value := rest[b..];
    var d := DigitCount(value);
    var blanks, digits, junk := rest[..b], value[..d], value[d..];
    n := Decimal(digits);
    assert EqualsIgnoringCase(name, FIELD_NAME) && digits != "" && LineValue(line) == Some(n % 0x1_0000_0000);
    hide EqualsIgnoringCase, LineValue, Decimal, IsFieldName, Spells, BlankCount, DigitCount;
    NameIff(name);
    assert forall i :: 0 <= i < |digits| ==> digits[i] == value[i];
    ReadIsSpelled(digits);
    PartsOf(line, b, d);
    hide *;
    AnnouncedInParts(line, n, name, blanks, digits, junk);
  }

  lemma PartsOf(line: string, b: nat, d: nat)
    requires |line| >= 15 && b + d <= |line| - 15
    ensures line[15..] == line[15..][..b] + line[15..][b..]
    ensures line == line[..15] + (line[15..][..b] + (line[15..][b..][..d] + line[15..][b..][d..]))
  {
    var rest := line[15..];
    var value := rest[b..];
    assert value == value[..d] + value[d..] && rest == rest[..b] + value && line == line[..15] + rest;
  }

  lemma AnnouncedInParts(line: string, n: nat, name: string, blanks: string, digits: string, junk: string)
    requires line == name + (blanks + (digits + junk))
    requires IsFieldName(name) && AllBlank(blanks) && Spells(digits, n)
    requires junk != "" ==> !IsDigit(junk[0])
    ensures Announces(line, n)
  {
    hide IsFieldName, AllBlank, Spells, IsDigit;
    assert AnnouncesWith(line, n, name, blanks, digits, junk);
  }

  /** Exactly the lines that announce a number give one, and it is that number modulo 2^32. */
  lemma LineValueIff(line: string, v: UInt32)
    ensures LineValue(line) == Some(v) <==> exists n: nat :: Announces(line, n) && v == n % 0x1_0000_0000
  {
    hide LineValue, Announces;
    if LineValue(line) == Some(v) {
      var n := ReadIsAnnounced(line);
    }
    if n: nat :| Announces(line, n) && v == n % 0x1_0000_0000 {
      AnnouncedIsRead(line, n);
    }
  }

  // -------------------------------------------------------------- all the lines

  /** The last line that announces anything announces `n` bytes. */
  ghost predicate LastAnnounces(lines: seq<string>, n: nat) {
    exists i :: LastIsAt(lines, n, i)
  }

  ghost predicate LastIsAt(lines: seq<string>, n: nat, i: int) {
    0 <= i < |lines| && Announces(lines[i], n) && forall j, m :: i < j < |lines| ==> !Announces(lines[j], m)
  }

  lemma {:induction false} LastIsRead(lines: seq<string>, n: nat)
    requires LastAnnounces(lines, n)
    ensures LastValue(lines) == Some(n % 0x1_0000_0000)
  {
    hide LineValue, Announces;
    var i :| LastIsAt(lines, n, i);
    var most, last := lines[..|lines| - 1], lines[|lines| - 1];
    if i == |lines| - 1 {
      AnnouncedIsRead(last, n);
    } else {
      if LineValue(last).Some? {
        var m := ReadIsAnnounced(last);
      }
      assert LastIsAt(most, n, i);
      LastIsRead(most, n);
    }
  }

  // ------------------------------------------------------- heads built from lines

  /** Header lines as they are sent, up to and with the blank line. */
  function Joined(lines: seq<string>): string {
    if lines == [] then "\r\n" else lines[0] + "\r\n" + Joined(lines[1..])
  }

  /** Nonempty lines without a carriage return. */
  predicate ProperLines(lines: seq<string>) {
    forall i :: 0 <= i < |lines| ==> lines[i] != "" && '\r' !in lines[i]
  }

  lemma {:induction false} LinesOfJoined(lines: seq<string>)
    requires ProperLines(lines)
    ensures HeaderLines(Joined(lines)) == lines
  {
    if lines != [] {
      assert lines[0] != "" && '\r' !in lines[0];
      LinesOfJoined(lines[1..]);
      LinesCons(lines[0], Joined(lines[1..]));
      assert lines == [lines[0]] + lines[1..];
    } else {
      assert CrlfAt("\r\n", 0);
    }
  }

  // A first line does not end a head; the rest ends it.
  lemma {:induction false} JoinedEnds(first: string, lines: seq<string>)
    requires '\r' !in first && ProperLines(lines)
    ensures var head := first + "\r\n" + Joined(lines); HeaderEnd(head) == |head|
    decreases |lines|
  {
    var rest := Joined(lines);
    hide HeaderEnd;
    if lines == [] {
      NoBreakIn(first, "\r\n" + "\r\n");
      var head := first + "\r\n" + rest;
      assert head == first + ("\r\n" + "\r\n");
      assert BlankLineAt(head, |first|);
    } else {
      assert lines[0] != "" && '\r' !in lines[0];
      JoinedEnds(lines[0], lines[1..]);
      assert rest == lines[0] + "\r\n" + Joined(lines[1..]);
      hide Joined;
      EndMoves(first, rest);
    }
  }

  lemma NoBreakIn(first: string, rest: string)
    requires '\r' !in first
    ensures forall i: nat :: i < |first| ==> !CrlfAt(first + rest, i)
  {
    assert forall i :: 0 <= i < |first| ==> (first + rest)[i] == first[i] && first[i] in first;
  }

  lemma EndMoves(first: string, rest: string)
    requires '\r' !in first && rest != "" && rest[0] != '\r' && HeaderEnd(rest) == |rest|
    ensures var head := first + "\r\n" + rest; HeaderEnd(head) == |head|
  {
    hide HeaderEnd;
    var head, k := first + "\r\n" + rest, |first| + 2;
    assert head == first + ("\r\n" + rest);
    NoBreakIn(first, "\r\n" + rest);
    assert forall i :: k <= i < |head| ==> head[i] == rest[i - k];
    assert head[k - 1] == '\n' && head[k] == rest[0];
    forall i: nat | BlankLineAt(head, i)
      ensures i + 4 >= |head|
    {
      assert i >= k && BlankLineAt(rest, i - k);
    }
    assert BlankLineAt(rest, |rest| - 4) && BlankLineAt(head, |head| - 4);
  }

  /** `METHOD SP URL SP VERSION`, header lines and a blank line: a complete head. */
  function HeadOf(name: string, url: string, version: string, lines: seq<string>): string {
    RequestHead(name, url, version, Joined(lines))
  }

  lemma HeadOfEnds(k: nat, url: string, version: string, lines: seq<string>)
    requires k < |COMMANDS| && IsToken(url) && IsToken(version) && ProperLines(lines)
    ensures var head := HeadOf(COMMANDS[k].0, url, version, lines); HeaderEnd(head) == |head|
    ensures HeaderLines(Joined(lines)) == lines
  {
    NameHasNoCr(k);
    hide HeaderEnd, Joined, ProperLines, HeaderLines;
    var first := COMMANDS[k].0 + " " + url + " " + version;
    assert '\r' !in first;
    JoinedEnds(first, lines);
    LinesOfJoined(lines);
    assert HeadOf(COMMANDS[k].0, url, version, lines) == first + "\r\n" + Joined(lines);
  }

  // A whole head, written out: method, URL, and the number that its last length line spells.
  lemma SpelledHeadIsRead(k: nat, url: string, version: string, lines: seq<string>, n: nat)
    requires k < |COMMANDS| && IsToken(url) && IsToken(version) && ProperLines(lines) && LastAnnounces(lines, n)
    ensures ParseRequest(HeadOf(COMMANDS[k].0, url, version, lines)) ==
      Some(Request(COMMANDS[k].1, url, Some(n % 0x1_0000_0000)))
  {
    HeadOfEnds(k, url, version, lines);
    LastIsRead(lines, n);
    hide HeaderEnd, LastValue, ParseRequest, HeaderLines, Joined, IsToken, LastAnnounces;
    WellFormedRequest(k, HeadOf(COMMANDS[k].0, url, version, lines), url, version, Joined(lines));
  }

  // The line that a client would write.
  lemma PlainLine(n: nat)
    ensures var lines := ["Content-Length: " + Spelled(n)]; ProperLines(lines) && LastAnnounces(lines, n)
  {
    var digits := Spelled(n);
    var line := "Content-Length: " + digits;
    SpelledSpells(n);
    SpelledIsRead(digits, n);
    assert '\r' !in line by {
      assert forall i :: 0 <= i < |digits| ==> digits[i] != '\r';
    }
    hide Spelled, Spells, Decimal;
    assert IsFieldName("Content-Length:") && AllBlank(" ");
    assert line == "Content-Length:" + (" " + (digits + ""));
    AnnouncedInParts(line, n, "Content-Length:", " ", digits, "");
    hide *;
    OnlyLineAnnounces(line, n);
    OnlyLineIsProper(line);
  }

  lemma OnlyLineAnnounces(line: string, n: nat)
    requires Announces(line, n)
    ensures LastAnnounces([line], n)
  {
    hide Announces;
    assert LastIsAt([line], n, 0);
  }

  lemma OnlyLineIsProper(line: string)
    requires line != "" && '\r' !in line
    ensures ProperLines([line])
  {
  }
}
