/** Reading an HTTP request head: where it ends, its method, its URL and its
    Content-Length, first as functions of the text and then as in-place loops over
    the receive buffer. */
module HttpRequest {
  import opened Common

  datatype Command = Unknown | Get | Post | Head | Put | Delete | Trace | Options | Connect | Patch

  const COMMANDS: seq<(string, Command)> :=
    [("GET", Get), ("HEAD", Head), ("POST", Post), ("PUT", Put), ("DELETE", Delete),
     ("TRACE", Trace), ("OPTIONS", Options), ("CONNECT", Connect), ("PATCH", Patch)]

  const FIELD_NAME := "content-length:"

  // ------------------------------------------------------ the end of the head

  predicate BlankLineAt(s: string, i: nat) {
    CrlfAt(s, i) && CrlfAt(s, i + 2)
  }

  /** The length of the request head including its blank line, or -1. */
  function HeaderEnd(s: string): (h: int)
    ensures h == -1 || (4 <= h <= |s| && BlankLineAt(s, h - 4))
    ensures forall i: nat :: BlankLineAt(s, i) ==> 0 <= h <= i + 4
  {
    if |s| < 4 then -1
    else
      var h := HeaderEnd(s[..|s| - 1]);
      assert forall i: nat :: i + 4 < |s| && BlankLineAt(s, i) ==> BlankLineAt(s[..|s| - 1], i);
      if h >= 0 then h else if BlankLineAt(s, |s| - 4) then |s| else -1
  }

  // Bytes that arrive after the head do not move its end, and no proper prefix of the
  // head has one.
  lemma HeaderEndStable(head: string, stream: string, n: nat)
    requires HeaderEnd(head) == |head| && head <= stream && n <= |stream|
    ensures HeaderEnd(stream[..n]) == if n < |head| then -1 else |head|
  {
    var s := stream[..n];
    assert forall i :: 0 <= i < |head| ==> stream[i] == head[i];
    assert forall i: nat :: i + 4 <= Min(|head|, n) ==> (BlankLineAt(s, i) <==> BlankLineAt(head, i));
  }

  // --------------------------------------------------------------- header lines

  /** The length of the first line: up to its CRLF, or to the last byte. */
  function LineEnd(s: string): (e: nat)
    ensures e <= |s|
    ensures forall i: nat :: i < e ==> !CrlfAt(s, i)
    ensures e + 1 < |s| ==> CrlfAt(s, e)
    ensures e + 1 >= |s| ==> e == |s| - 1 || s == ""
  {
    if |s| < 2 || CrlfAt(s, 0) then 0
    else
      assert forall i: nat :: i > 0 ==> CrlfAt(s, i) == CrlfAt(s[1..], i - 1);
      1 + LineEnd(s[1..])
  }

  function AfterFirstLine(s: string): string {
    s[Min(LineEnd(s) + 2, |s|)..]
  }

  /** The lines of `s` up to an empty line or the end. */
  function HeaderLines(s: string): seq<string>
    decreases |s|
  {
    if |s| < 2 || CrlfAt(s, 0) then []
    else [s[..LineEnd(s)]] + HeaderLines(AfterFirstLine(s))
  }

  function ToLower(c: char): char {
    if 'A' <= c <= 'Z' then (c as int + 32) as char else c
  }

  predicate EqualsIgnoringCase(a: string, b: string) {
    |a| == |b| && forall i :: 0 <= i < |a| ==> ToLower(a[i]) == ToLower(b[i])
  }

  function DigitValue(c: char): (v: nat)
    ensures v < 10
  {
    if IsDigit(c) then c as int - '0' as int else 0
  }

  /** The value of a digit string as an unbounded number. */
  function Decimal(digits: string): nat {
    if digits == "" then 0
    else 10 * Decimal(digits[..|digits| - 1]) + DigitValue(digits[|digits| - 1])
  }

  /** How many leading characters are blanks. */
  function BlankCount(s: string): (n: nat)
    ensures n <= |s| && forall i :: 0 <= i < n ==> s[i] == ' ' || s[i] == '\t'
    ensures n < |s| ==> s[n] != ' ' && s[n] != '\t'
  {
    if s == "" || (s[0] != ' ' && s[0] != '\t') then 0 else 1 + BlankCount(s[1..])
  }

  /** How many leading characters are digits. */
  function DigitCount(s: string): (n: nat)
    ensures n <= |s| && forall i :: 0 <= i < n ==> IsDigit(s[i])
    ensures n < |s| ==> !IsDigit(s[n])
  {
    if s == "" || !IsDigit(s[0]) then 0 else 1 + DigitCount(s[1..])
  }

  /** The value a header line gives for Content-Length, if it gives one. */
  function LineValue(line: string): Option<UInt32> {
    if |line| < |FIELD_NAME| || !EqualsIgnoringCase(line[..|FIELD_NAME|], FIELD_NAME) then None
    else
      var rest := line[|FIELD_NAME|..];
      var value := rest[BlankCount(rest)..];
      var digits := value[..DigitCount(value)];
      if digits == "" then None else Some(Wrap32(Decimal(digits)))
  }

  /** The last Content-Length among the lines. */
  function LastValue(lines: seq<string>): Option<UInt32> {
    if lines == [] then None
    else
      var v := LineValue(lines[|lines| - 1]);
      if v.Some? then v else LastValue(lines[..|lines| - 1])
  }

  lemma {:induction false} LastValueCons(line: string, lines: seq<string>)
    ensures LastValue([line] + lines) ==
      if LastValue(lines).Some? then LastValue(lines) else LineValue(line)
  {
    var all := [line] + lines;
    if lines != [] {
      assert all[..|all| - 1] == [line] + lines[..|lines| - 1];
      LastValueCons(line, lines[..|lines| - 1]);
    }
  }

  // ---------------------------------------------------------------- the request

  datatype Request = Request(command: Command, url: string, contentLength: Option<UInt32>)

  /** The first table entry at or after `k` whose name starts the text. */
  function FindCommand(s: string, k: nat): (r: nat)
    requires k <= |COMMANDS|
    ensures k <= r <= |COMMANDS|
    ensures r < |COMMANDS| ==> COMMANDS[r].0 <= s
    decreases |COMMANDS| - k
  {
    if k == |COMMANDS| || COMMANDS[k].0 <= s then k else FindCommand(s, k + 1)
  }

  lemma FindCommandNext(s: string, k: nat)
    requires k < |COMMANDS|
    ensures FindCommand(s, k) == if COMMANDS[k].0 <= s then k else FindCommand(s, k + 1)
  {
  }

  predicate EndsUrl(c: char) { c == '\r' || c == '\n' || c == ' ' || c == '\t' }

  function UrlEnd(s: string, from: nat): (e: nat)
    requires from <= |s|
    ensures from <= e <= |s| && forall i :: from <= i < e ==> !EndsUrl(s[i])
    ensures e < |s| ==> EndsUrl(s[e])
    decreases |s| - from
  {
    if from == |s| || EndsUrl(s[from]) then from else UrlEnd(s, from + 1)
  }

  /** A C string stops at its first NUL. */
  function CString(s: string): string {
    if s == "" || s[0] == '\0' then "" else [s[0]] + CString(s[1..])
  }

  /** The rest of a head whose URL begins at `start`. The byte after the URL is
      overwritten with NUL before the header lines are read. */
  function ReadRequest(head: string, start: nat, command: Command): Option<Request>
    requires start <= |head|
  {
    var stop := UrlEnd(head, start);
    if stop == |head| then None
    else
      var lines := HeaderLines(AfterFirstLine(head[stop := '\0']));
      Some(Request(command, CString(head[start..stop]), LastValue(lines)))
  }

  /** What the server makes of a request head. */
  function ParseRequest(head: string): Option<Request> {
    var k := FindCommand(head, 0);
    if k == |COMMANDS| || |COMMANDS[k].0| + 1 > |head| then None
    else ReadRequest(head, |COMMANDS[k].0| + 1, COMMANDS[k].1)
  }

  // ------------------------------------------ which lines the scan really reads

  // A complete head with a known method always has a URL end, so it is always parsed.
  lemma ParsedIffCommandKnown(head: string)
    requires HeaderEnd(head) == |head|
    ensures ParseRequest(head).Some? <==> FindCommand(head, 0) < |COMMANDS|
    ensures FindCommand(head, 0) < |COMMANDS| ==> |COMMANDS[FindCommand(head, 0)].0| + 4 <= |head|
  {
    var k := FindCommand(head, 0);
    if k < |COMMANDS| {
      var name := COMMANDS[k].0;
      NameHasNoCr(k);
      assert head[|head| - 4] == '\r';
      assert forall i :: 0 <= i < |name| ==> head[i] == name[i];
      assert |name| <= |head| - 4;
      assert EndsUrl(head[|head| - 1]);
    }
  }

  lemma NameHasNoCr(k: nat)
    requires k < |COMMANDS|
    ensures '\r' !in COMMANDS[k].0
  {
  }

  /** The NUL written after the URL lands on the CRLF that ends the request line. */
  predicate ErasesFirstCrlf(head: string, stop: nat) {
    stop == LineEnd(head) || stop == LineEnd(head) + 1
  }

  // Overwriting a byte inside the first line leaves the lines after it alone.
  lemma EditInsideFirstLine(head: string, stop: nat)
    requires CrlfAt(head, LineEnd(head)) && stop < LineEnd(head)
    ensures AfterFirstLine(head[stop := '\0']) == AfterFirstLine(head)
  {
    var c, edited := LineEnd(head), head[stop := '\0'];
    forall i: nat | i < c
      ensures !CrlfAt(edited, i)
    {
      assert !CrlfAt(head, i);
    }
    assert CrlfAt(edited, c);
  }

  // A text without CRLF in its first `n` characters.
  lemma LineEndAfter(s: string, n: nat)
    requires n <= |s| - 2 && (forall i: nat :: i < n ==> !CrlfAt(s, i))
    ensures LineEnd(s) == n + LineEnd(s[n..])
  {
    var e := LineEnd(s[n..]);
    assert forall i: nat :: i < e ==> !CrlfAt(s[n..], i);
    forall i: nat | i < n + e
      ensures !CrlfAt(s, i)
    {
      assert i >= n ==> CrlfAt(s, i) == CrlfAt(s[n..], i - n);
    }
    assert n + e + 1 < |s| ==> CrlfAt(s, n + e);
  }

  // Overwriting its CRLF joins it with the second line.
  lemma EditFirstCrlf(head: string, stop: nat)
    requires CrlfAt(head, LineEnd(head)) && ErasesFirstCrlf(head, stop)
    requires |AfterFirstLine(head)| >= 2
    ensures AfterFirstLine(head[stop := '\0']) == AfterFirstLine(AfterFirstLine(head))
  {
    var c, edited, rest := LineEnd(head), head[stop := '\0'], AfterFirstLine(head);
    assert edited[c + 2..] == rest;
    FirstCrlfGone(head, stop, edited);
    LineEndAfter(edited, c + 2);
    AfterLine(edited, c + 2);
  }

  lemma FirstCrlfGone(head: string, stop: nat, edited: string)
    requires CrlfAt(head, LineEnd(head)) && ErasesFirstCrlf(head, stop) && edited == head[stop := '\0']
    ensures forall i: nat :: i < LineEnd(head) + 2 ==> !CrlfAt(edited, i)
  {
    forall i: nat | i < LineEnd(head) + 2
      ensures !CrlfAt(edited, i)
    {
      if i < LineEnd(head) {
        assert !CrlfAt(head, i);
      }
    }
  }

  lemma AfterLine(s: string, n: nat)
    requires n <= |s| && LineEnd(s) == n + LineEnd(s[n..])
    ensures AfterFirstLine(s) == AfterFirstLine(s[n..])
  {
    DropTwice(s, n, Min(LineEnd(s[n..]) + 2, |s| - n));
    hide LineEnd;
  }

  lemma DropTwice(s: string, n: nat, m: nat)
    requires n + m <= |s|
    ensures s[n..][m..] == s[n + m..]
  {
  }

  // Together: which header lines are left after the NUL is written.
  lemma EditedLines(head: string, stop: nat)
    requires HeaderEnd(head) == |head| && stop <= LineEnd(head) + 1
    ensures var lines := HeaderLines(AfterFirstLine(head));
      HeaderLines(AfterFirstLine(head[stop := '\0'])) ==
        if !ErasesFirstCrlf(head, stop) then lines else if lines == [] then [] else lines[1..]
  {
    var c, rest := LineEnd(head), AfterFirstLine(head);
    assert CrlfAt(head, c) && CrlfAt(head, |head| - 2);
    if ErasesFirstCrlf(head, stop) {
      EditFirstCrlf(head, stop);
      if CrlfAt(rest, 0) {
        assert BlankLineAt(head, c);
        assert AfterFirstLine(rest) == "";
      }
    } else {
      EditInsideFirstLine(head, stop);
    }
  }

  // The Content-Length used is the last one among all header lines after the request
  // line, unless the NUL erases the CRLF of the request line: then the first header
  // line is not read.
  lemma ContentLengthOfHead(head: string)
    requires HeaderEnd(head) == |head| && ParseRequest(head).Some?
    ensures var k := FindCommand(head, 0);
      var start := |COMMANDS[k].0| + 1;
      var lines := HeaderLines(AfterFirstLine(head));
      && start <= UrlEnd(head, start) <= LineEnd(head) + 1
      && ParseRequest(head).value.contentLength ==
           if ErasesFirstCrlf(head, UrlEnd(head, start)) && lines != [] then LastValue(lines[1..])
           else LastValue(lines)
  {
    ParsedIffCommandKnown(head);
    var k := FindCommand(head, 0);
    hide FindCommand, LineEnd, UrlEnd, HeaderEnd, HeaderLines, LastValue, AfterFirstLine, CString;
    FirstLineEndsUrl(head, k);
    EditedLines(head, UrlEnd(head, |COMMANDS[k].0| + 1));
  }

  // The method name lies in the first line, and the URL ends at its CRLF at the latest.
  lemma FirstLineEndsUrl(head: string, k: nat)
    requires HeaderEnd(head) == |head| && k < |COMMANDS| && COMMANDS[k].0 <= head && |COMMANDS[k].0| + 4 <= |head|
    ensures CrlfAt(head, LineEnd(head))
    ensures var start := |COMMANDS[k].0| + 1; start <= UrlEnd(head, start) <= LineEnd(head) + 1
  {
    hide UrlEnd, LineEnd, HeaderEnd;
    NameHasNoCr(k);
    var name, c := COMMANDS[k].0, LineEnd(head);
    assert BlankLineAt(head, |head| - 4);
    assert CrlfAt(head, c);
    assert c >= |name| by {
      assert forall i :: 0 <= i < |name| ==> head[i] == name[i] && name[i] in name;
    }
    assert EndsUrl(head[c + 1]);
  }

  /** `METHOD SP URL SP VERSION CRLF`, then header lines up to the blank line. */
  function RequestHead(name: string, url: string, version: string, rest: string): string {
    name + " " + url + " " + version + "\r\n" + rest
  }

  /** Text that a URL or a version may be. */
  predicate IsToken(s: string) {
    forall c :: c in s ==> !EndsUrl(c) && c != '\0'
  }

  lemma HeadLayout(name: string, url: string, version: string, rest: string)
    requires '\r' !in name && IsToken(url) && IsToken(version)
    ensures var head := RequestHead(name, url, version, rest);
      var start := |name| + 1;
      var stop := start + |url|;
      && name + " " <= head && head[start..stop] == url && head[stop] == ' '
      && UrlEnd(head, start) == stop
      && LineEnd(head) == stop + 1 + |version| && AfterFirstLine(head) == rest
  {
    var line := name + " " + url + " " + version;
    var head := RequestHead(name, url, version, rest);
    var start := |name| + 1;
    assert head == line + "\r\n" + rest;
    assert '\r' !in line;
    assert forall i :: 0 <= i < |line| ==> head[i] == line[i] && line[i] in line;
    assert CrlfAt(head, |line|);
    assert head[start..start + |url|] == url;
    assert forall i :: start <= i < start + |url| ==> head[i] == url[i - start] && head[i] in url;
  }

  // When the URL ends inside the request line, nothing is lost: the URL is read back,
  // and the Content-Length is the last one of all header lines.
  lemma WellFormedHead(head: string, start: nat, command: Command)
    requires HeaderEnd(head) == |head| && start <= |head|
    requires UrlEnd(head, start) < LineEnd(head) && '\0' !in head[start..UrlEnd(head, start)]
    ensures ReadRequest(head, start, command) == Some(Request(
      command, head[start..UrlEnd(head, start)], LastValue(HeaderLines(AfterFirstLine(head)))))
  {
    CStringOfToken(head[start..UrlEnd(head, start)]);
    EditedLines(head, UrlEnd(head, start));
  }

  lemma {:induction false} CStringOfToken(s: string)
    requires '\0' !in s
    ensures CString(s) == s
  {
    if s != "" {
      assert s[0] in s && forall c :: c in s[1..] ==> c in s;
      CStringOfToken(s[1..]);
    }
  }

  // The method name is found again.
  lemma FindsCommand(k: nat, s: string)
    requires k < |COMMANDS| && COMMANDS[k].0 <= s
    ensures FindCommand(s, 0) == k
  {
    assert s[0] == COMMANDS[k].0[0] && s[1] == COMMANDS[k].0[1];
  }

  // The common form of a request is read back whole.
  lemma WellFormedRequest(k: nat, head: string, url: string, version: string, rest: string)
    requires k < |COMMANDS| && head == RequestHead(COMMANDS[k].0, url, version, rest)
    requires IsToken(url) && IsToken(version) && HeaderEnd(head) == |head|
    ensures ParseRequest(head) == Some(Request(COMMANDS[k].1, url, LastValue(HeaderLines(rest))))
  {
    hide HeaderEnd, LastValue, HeaderLines, FindCommand, ReadRequest, UrlEnd, LineEnd, AfterFirstLine, IsToken;
    var start := |COMMANDS[k].0| + 1;
    NameHasNoCr(k);
    HeadLayout(COMMANDS[k].0, url, version, rest);
    hide RequestHead;
    FindsCommand(k, head);
    NoNul(url);
    WellFormedHead(head, start, COMMANDS[k].1);
    assert ParseRequest(head) == ReadRequest(head, start, COMMANDS[k].1);
  }

  lemma NoNul(s: string)
    requires IsToken(s)
    ensures '\0' !in s
  {
  }

  // ------------------------------------------- a request line without a version

  // Then the URL ends at the CRLF of the request line, and the first header line is lost:
  // only the lines after it are read.
  lemma ShortRequestLosesFirstLine(k: nat, head: string, url: string, line: string, rest: string)
    requires k < |COMMANDS| && head == COMMANDS[k].0 + " " + url + "\r\n" + (line + "\r\n" + rest)
    requires IsToken(url) && line != "" && '\r' !in line && HeaderEnd(head) == |head|
    ensures ParseRequest(head).Some?
    ensures ParseRequest(head).value.contentLength == LastValue(HeaderLines(rest))
  {
    hide HeaderEnd, LastValue, FindCommand, ParseRequest;
    ShortLayout(COMMANDS[k].0, url, line + "\r\n" + rest, k);
    FindsCommand(k, head);
    ParsedIffCommandKnown(head);
    ContentLengthOfHead(head);
    LinesCons(line, rest);
    hide HeaderLines, UrlEnd, LineEnd, AfterFirstLine;
    assert ([line] + HeaderLines(rest))[1..] == HeaderLines(rest);
  }

  lemma ShortLayout(name: string, url: string, rest: string, k: nat)
    requires k < |COMMANDS| && name == COMMANDS[k].0 && IsToken(url)
    ensures var head, start := name + " " + url + "\r\n" + rest, |name| + 1;
      && name <= head && UrlEnd(head, start) == start + |url| == LineEnd(head) && AfterFirstLine(head) == rest
  {
    NameHasNoCr(k);
    hide UrlEnd, LineEnd;
    var row, start := name + " " + url, |name| + 1;
    var head := row + "\r\n" + rest;
    assert '\r' !in row;
    assert forall i :: 0 <= i < |row| ==> head[i] == row[i] && row[i] in row;
    assert CrlfAt(head, |row|);
    assert forall i :: start <= i < start + |url| ==> head[i] == url[i - start] && head[i] in url;
  }

  lemma LinesCons(line: string, rest: string)
    requires line != "" && '\r' !in line
    ensures HeaderLines(line + "\r\n" + rest) == [line] + HeaderLines(rest)
  {
    hide LineEnd;
    var s := line + "\r\n" + rest;
    assert forall i :: 0 <= i < |line| ==> s[i] == line[i] && line[i] in line;
    assert CrlfAt(s, |line|);
    assert LineEnd(s) == |line| && s[..|line|] == line && s[|line| + 2..] == rest;
  }

  /** A head with one header line and no version. */
  function ShortHead(name: string, url: string, line: string): string {
    name + " " + url + "\r\n" + (line + "\r\n" + "\r\n")
  }

  // With one header line, whatever it says, nothing is announced.
  lemma OnlyLineIsLost(k: nat, url: string, line: string)
    requires k < |COMMANDS| && IsToken(url) && line != "" && '\r' !in line
    ensures var head := ShortHead(COMMANDS[k].0, url, line);
      && HeaderEnd(head) == |head| && HeaderLines(AfterFirstLine(head)) == [line]
      && ParseRequest(head).Some? && ParseRequest(head).value.contentLength == None
  {
    hide HeaderEnd, ParseRequest, IsToken;
    ShortHeadEnds(k, url, line);
    ShortRequestLosesFirstLine(k, ShortHead(COMMANDS[k].0, url, line), url, line, "\r\n");
    ShortLayout(COMMANDS[k].0, url, line + "\r\n" + "\r\n", k);
    LinesCons(line, "\r\n");
  }

  lemma ShortHeadEnds(k: nat, url: string, line: string)
    requires k < |COMMANDS| && IsToken(url) && line != "" && '\r' !in line
    ensures var head := ShortHead(COMMANDS[k].0, url, line); HeaderEnd(head) == |head|
  {
    NameHasNoCr(k);
    hide HeaderEnd;
    var row := COMMANDS[k].0 + " " + url;
    var head := ShortHead(COMMANDS[k].0, url, line);
    assert '\r' !in row;
    var n, m := |row|, |row| + 2 + |line|;
    assert forall i :: 0 <= i < n ==> head[i] == row[i] && row[i] in row;
    assert forall i :: n + 2 <= i < m ==> head[i] == line[i - n - 2] && head[i] in line;
    assert head[n + 1] == '\n' && head[m] == '\r' && head[m + 1] == '\n' && head[m + 2] == '\r' && head[m + 3] == '\n';
    assert BlankLineAt(head, m);
  }

  // So a POST that announces five bytes in its only header line announces nothing.
  lemma LostLengthExample()
    ensures var line := "Content-Length: 5";
      var head := ShortHead("POST", "/", line);
      && HeaderEnd(head) == |head| && LineValue(line) == Some(5) && HeaderLines(AfterFirstLine(head)) == [line]
      && ParseRequest(head).Some? && ParseRequest(head).value.contentLength == None
  {
    hide HeaderEnd, ParseRequest, LineValue, HeaderLines, AfterFirstLine, ShortHead;
    FiveIsRead();
    assert COMMANDS[2].0 == "POST";
    OnlyLineIsLost(2, "/", "Content-Length: 5");
  }

  lemma FiveIsRead()
    ensures LineValue("Content-Length: 5") == Some(5)
  {
    var rest := "Content-Length: 5"[|FIELD_NAME|..];
    assert rest == " 5" && rest[1..] == "5" && "5"[1..] == "";
    assert DigitCount("5") == 1 && "5"[..1] == "5" && "5"[..0] == "";
    assert Decimal("5") == 5;
  }
}
