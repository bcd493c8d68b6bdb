/** The start-up of the FTP client: replies drive a script of commands. */
module FtpStartup {
  import opened Common

  datatype Kind = Startup | IdleTask | Retrieve | ListFiles | Termination

  /** "Requested" and "in progress" are one state in the source. */
  datatype Phase = NotStarted | SwitchToPassive | Started | InProgress | Finished | FailedTask

  /** What the client does: a command of the script, user name, password; `Ready` marks a
      greeting that (re)starts the script and `Closed` the end of the connection. */
  datatype Act = Command(index: nat) | User | Password | Ready | Closed

  datatype Task = Task(kind: Kind, phase: Phase, progress: nat, log: seq<Act>)

  const INITIAL := Task(Startup, InProgress, 0, [])

  // ------------------------------------------------------------------ replies

  /** The length of the first line of a C string. */
  function LineEnd(s: string): (e: nat)
    ensures e <= |s|
  {
    if s == "" || s[0] == '\0' || CrlfAt(s, 0) then 0 else 1 + LineEnd(s[1..])
  }

  /** The lines of received bytes; everything from the first NUL on is ignored. */
  function Lines(s: string): seq<string>
    decreases |s|
  {
    var e := LineEnd(s);
    [s[..e]] + if CrlfAt(s, e) then Lines(s[e + 2..]) else []
  }

  predicate IsBlank(c: char) { c == ' ' || '\t' <= c <= '\r' }

  function Digits(s: string, value: int): int {
    if s == "" || !IsDigit(s[0]) then value else Digits(s[1..], 10 * value + (s[0] as int - '0' as int))
  }

  /** The number at the start of a string, as the C library reads it. */
  function Number(s: string): int {
    if s != "" && IsBlank(s[0]) then Number(s[1..])
    else if s != "" && s[0] == '-' then -Digits(s[1..], 0)
    else if s != "" && s[0] == '+' then Digits(s[1..], 0)
    else Digits(s, 0)
  }

  function Closing(t: Task): Task { t.(kind := Termination, log := t.log + [Closed]) }

  /** `passive` says whether a passive-mode reply leads to a data connection. */
  function OnCode(t: Task, code: int, passive: bool): Task {
    if code == 150 || code == 226 then t
    else if code == 200 || code == 202 || code == 230 || code == 257 then t.(phase := Finished)
    else if code == 220 then
      if t.kind == Startup then t.(phase := NotStarted, progress := 0, log := t.log + [Ready]) else t
    else if code == 227 then t.(phase := Started, kind := if passive then t.kind else Termination)
    else if code == 331 then t.(log := t.log + [Password])
    else if code == 530 then t.(log := t.log + [User])
    else if code == 550 then t.(phase := FailedTask)
    else Closing(t)
  }

  function OnLine(t: Task, line: string, passive: bool): Task {
    if |line| < 4 || (line[3] != ' ' && line[3] != '-') then Closing(t)
    else OnCode(t, Number(line[..3]), passive)
  }

  /** Handles lines until the client terminates. */
  function OnLines(t: Task, lines: seq<string>, passive: bool): Task
    decreases lines
  {
    if lines == [] then t
    else
      var t1 := if lines[0] == "" then t else OnLine(t, lines[0], passive);
      if t1.kind == Termination then t1 else OnLines(t1, lines[1..], passive)
  }

  // ------------------------------------------------------------ the main loop

  /** The script has `n` commands. */
  function Work(t: Task, n: nat): Task {
    if t.kind != Startup then t
    else
      var t1 := if t.phase == Finished then t.(progress := t.progress + 1, phase := NotStarted) else t;
      var t2 := if t1.progress >= n then t1.(kind := IdleTask, phase := Finished) else t1;
      if t2.phase == NotStarted then t2.(phase := InProgress, log := t2.log + [Command(t2.progress)]) else t2
  }

  /** One turn of the loop: bytes arrived, none could be read, nothing happened, or the
      network or the connection went down. */
  datatype Event = Bytes(data: string, passive: bool) | Unreadable | Silence | Down

  function Turn(t: Task, n: nat, e: Event): Task {
    if t.kind == Termination then t
    else match e
      case Bytes(data, passive) => Work(OnLines(t, Lines(data), passive), n)
      case Unreadable => Work(Closing(t), n)
      case Silence => Work(t, n)
      case Down => Closing(t)
  }

  function Run(n: nat, es: seq<Event>): Task {
    if es == [] then INITIAL else Turn(Run(n, es[..|es| - 1]), n, es[|es| - 1])
  }

  // ------------------------------------------------------------ what was sent

  /** The script commands since the last greeting. */
  function Sent(log: seq<Act>): seq<nat> {
    if log == [] then []
    else
      var a := log[|log| - 1];
      if a.Ready? then []
      else Sent(log[..|log| - 1]) + if a.Command? then [a.index] else []
  }

  function Range(from: nat, to: nat): seq<nat> {
    if from >= to then [] else Range(from, to - 1) + [to - 1]
  }

  lemma SentNext(log: seq<Act>, a: Act)
    ensures Sent(log + [a]) ==
      if a.Ready? then [] else Sent(log) + if a.Command? then [a.index] else []
  {
    assert (log + [a])[..|log|] == log;
  }

  lemma {:induction false} RangeAt(from: nat, to: nat, i: nat)
    requires from + i < to
    ensures |Range(from, to)| == to - from && Range(from, to)[i] == from + i
  {
    if from + i < to - 1 {
      RangeAt(from, to - 1, i);
    } else if from < to - 1 {
      RangeAt(from, to - 1, 0);
    }
  }

  // ------------------------------------------------------------ every run

  predicate IsGreeting(line: string) {
    |line| >= 4 && (line[3] == ' ' || line[3] == '-') && Number(line[..3]) == 220
  }

  ghost predicate HasGreeting(lines: seq<string>) {
    exists i :: 0 <= i < |lines| && IsGreeting(lines[i])
  }

  /** What a turn's lines do to a client that survives them. */
  lemma {:induction false} LinesEffect(t: Task, lines: seq<string>, passive: bool)
    requires t.kind != Termination && OnLines(t, lines, passive).kind != Termination
    ensures
      var t' := OnLines(t, lines, passive);
      && t'.kind == t.kind
      && (t'.phase == NotStarted ==> t.phase == NotStarted || (t.kind == Startup && HasGreeting(lines)))
      && (if t.kind == Startup && HasGreeting(lines) then t'.progress == 0 && Sent(t'.log) == []
          else t'.progress == t.progress && Sent(t'.log) == Sent(t.log))
    decreases lines
  {
    if lines != [] {
      var t1 := if lines[0] == "" then t else OnLine(t, lines[0], passive);
      LineEffect(t, lines[0], passive);
      LinesEffect(t1, lines[1..], passive);
      GreetingFirst(lines);
    }
  }

  lemma GreetingFirst(lines: seq<string>)
    requires lines != []
    ensures HasGreeting(lines) <==> IsGreeting(lines[0]) || HasGreeting(lines[1..])
  {
    hide IsGreeting;
    if HasGreeting(lines) && !IsGreeting(lines[0]) {
      var i :| 0 <= i < |lines| && IsGreeting(lines[i]);
      assert lines[1..][i - 1] == lines[i];
    }
  }

  lemma LineEffect(t: Task, line: string, passive: bool)
    requires t.kind != Termination
    ensures
      var t1 := if line == "" then t else OnLine(t, line, passive);
      t1.kind != Termination ==>
        && t1.kind == t.kind
        && (t1.phase == NotStarted ==> t.phase == NotStarted || (t.kind == Startup && IsGreeting(line)))
        && (if t.kind == Startup && IsGreeting(line) then t1.progress == 0 && Sent(t1.log) == []
            else t1.progress == t.progress && Sent(t1.log) == Sent(t.log))
  {
    SentNext(t.log, Ready);
    SentNext(t.log, User);
    SentNext(t.log, Password);
    hide Number, Sent;
  }

  /** A reply that counts as an answer to a command, or ends it: a greeting before it is forgotten. */
  predicate IsAnswer(line: string) {
    && |line| >= 4 && (line[3] == ' ' || line[3] == '-')
    && var code := Number(line[..3]);
    (code == 200 || code == 202 || code == 227 || code == 230 || code == 257 || code == 550)
  }

  /** Some line is an answer, and no greeting comes after it. */
  ghost predicate AnswerFollows(lines: seq<string>) {
    exists j :: 0 <= j < |lines| && IsAnswer(lines[j]) && !HasGreeting(lines[j + 1..])
  }

  lemma AnswerFirst(lines: seq<string>)
    requires lines != []
    ensures AnswerFollows(lines) <==>
      AnswerFollows(lines[1..]) || (IsAnswer(lines[0]) && !HasGreeting(lines[1..]))
  {
    hide IsAnswer, HasGreeting;
    var rest := lines[1..];
    if AnswerFollows(lines) {
      var j :| 0 <= j < |lines| && IsAnswer(lines[j]) && !HasGreeting(lines[j + 1..]);
      if j > 0 {
        assert rest[j - 1] == lines[j] && rest[j..] == lines[j + 1..];
      }
    }
    if AnswerFollows(rest) {
      var j :| 0 <= j < |rest| && IsAnswer(rest[j]) && !HasGreeting(rest[j + 1..]);
      assert lines[j + 1] == rest[j] && lines[j + 2..] == rest[j + 1..];
    }
  }

  lemma LinePhase(t: Task, line: string, passive: bool)
    requires t.kind == Startup
    ensures
      var t1 := if line == "" then t else OnLine(t, line, passive);
      t1.kind != Termination ==>
        && (IsGreeting(line) ==> t1.phase == NotStarted)
        && (IsAnswer(line) ==> t1.phase != NotStarted)
        && (!IsGreeting(line) && !IsAnswer(line) ==> t1.phase == t.phase)
  {
    hide Number;
  }

  /** The phase after the lines of a turn, for a client that survives them, by what the lines are:
      a greeting stands exactly if no answer follows it. */
  lemma {:induction false} PhaseAfterLines(t: Task, lines: seq<string>, passive: bool)
    requires t.kind == Startup && OnLines(t, lines, passive).kind != Termination
    ensures OnLines(t, lines, passive).phase != NotStarted <==>
      AnswerFollows(lines) || (!HasGreeting(lines) && t.phase != NotStarted)
    decreases lines
  {
    if lines != [] {
      var t1 := if lines[0] == "" then t else OnLine(t, lines[0], passive);
      LineEffect(t, lines[0], passive);
      LinePhase(t, lines[0], passive);
      GreetingFirst(lines);
      AnswerFirst(lines);
      PhaseAfterLines(t1, lines[1..], passive);
      hide OnLine, IsGreeting, IsAnswer, HasGreeting, AnswerFollows, Sent;
    }
  }

  /** Whether the script begins with its second command: there was no greeting during start-up, or
      in the turn of the last one an answer followed it. */
  ghost predicate SkipsFirst(n: nat, es: seq<Event>) {
    es == [] ||
      var most, e := es[..|es| - 1], es[|es| - 1];
      if e.Bytes? && Run(n, most).kind == Startup && HasGreeting(Lines(e.data))
      then AnswerFollows(Lines(e.data))
      else SkipsFirst(n, most)
  }

  ghost function First(n: nat, es: seq<Event>): nat {
    if SkipsFirst(n, es) then 1 else 0
  }

  /** Where a client is between turns. */
  predicate OnTrack(t: Task, n: nat, first: nat) {
    match t.kind
    case Startup => t.phase != NotStarted && Sent(t.log) == Range(first, t.progress + 1)
    case IdleTask => t.progress >= n && (n > 0 ==> t.progress == n) && Sent(t.log) == Range(first, n)
    case Termination => true
    case _ => false
  }

  lemma WorkStaysOnTrack(t: Task, n: nat, first: nat)
    requires first <= 1 && (t.kind == Startup || t.kind == IdleTask || t.kind == Termination)
    requires t.kind != Startup ==> OnTrack(t, n, first)
    requires t.kind == Startup ==>
      && (t.progress < n || (t.progress == 0 && Sent(t.log) == []))
      && (if t.phase == NotStarted then t.progress == 0 && Sent(t.log) == [] && first == 0
          else Sent(t.log) == Range(first, t.progress + 1))
    ensures OnTrack(Work(t, n), n, first)
    ensures Work(t, n).kind == Startup ==> Work(t, n).progress < n
  {
    var p := if t.phase == Finished then t.progress + 1 else t.progress;
    SentNext(t.log, Command(p));
    hide Sent;
  }

  lemma TurnStaysOnTrack(n: nat, es: seq<Event>)
    requires es != []
    requires
      var most := es[..|es| - 1];
      var t := Run(n, most);
      OnTrack(t, n, First(n, most)) && (t.kind == Startup ==> t.progress < n || (t.progress == 0 && Sent(t.log) == []))
    ensures
      var t := Run(n, es);
      OnTrack(t, n, First(n, es)) && (t.kind == Startup ==> t.progress < n)
  {
    var most, e := es[..|es| - 1], es[|es| - 1];
    var t := Run(n, most);
    hide Work, Sent, Range;
    if t.kind != Termination {
      match e
      case Bytes(data, passive) =>
        var t1 := OnLines(t, Lines(data), passive);
        if t1.kind != Termination {
          LinesEffect(t, Lines(data), passive);
          if t.kind == Startup {
            PhaseAfterLines(t, Lines(data), passive);
          }
          WorkStaysOnTrack(t1, n, First(n, es));
        }
      case Silence => WorkStaysOnTrack(t, n, First(n, es));
      case Unreadable =>
      case Down =>
    }
  }

  lemma {:induction false} EveryRunIsOnTrack(n: nat, es: seq<Event>)
    ensures
      var t := Run(n, es);
      && OnTrack(t, n, First(n, es))
      && (t.kind == Startup ==> if es == [] then t.progress == 0 && Sent(t.log) == [] else t.progress < n)
  {
    if es == [] {
      assert Range(1, 1) == [];
    } else {
      EveryRunIsOnTrack(n, es[..|es| - 1]);
      TurnStaysOnTrack(n, es);
    }
  }

  /** The main result: in every run the script is sent in order, without gap or repetition, from
      its first command on (from its second if the greeting came together with an answer); and
      the client is idle only when all of it was sent. */
  lemma ScriptIsSentInOrder(n: nat, es: seq<Event>, i: nat)
    ensures
      var t := Run(n, es);
      var sent := Sent(t.log);
      && (t.kind == Startup ==>
          (i < |sent| ==> sent[i] == First(n, es) + i <= t.progress) &&
          First(n, es) + |sent| == t.progress + 1)
      && (t.kind == IdleTask && n > 0 ==>
          (i < |sent| ==> sent[i] == First(n, es) + i) &&
          t.progress == n && First(n, es) + |sent| == n)
  {
    EveryRunIsOnTrack(n, es);
    hide Run, Sent, SkipsFirst;
    var t, first := Run(n, es), First(n, es);
    RangeLength(first, t.progress + 1);
    RangeLength(first, n);
    if i < |Sent(t.log)| {
      if t.kind == Startup {
        RangeAt(first, t.progress + 1, i);
      } else if t.kind == IdleTask {
        RangeAt(first, n, i);
      }
    }
  }

  lemma {:induction false} RangeLength(from: nat, to: nat)
    ensures |Range(from, to)| == if from <= to then to - from else 0
  {
    if from < to {
      RangeLength(from, to - 1);
    }
  }

  /** Every command ever sent is in the table. */
  lemma {:induction false} CommandsAreInTable(n: nat, es: seq<Event>, k: nat)
    ensures Command(k) in Run(n, es).log ==> k < n
  {
    if es != [] {
      var most, e := es[..|es| - 1], es[|es| - 1];
      CommandsAreInTable(n, most, k);
      if e.Bytes? {
        RepliesSendNoCommand(Run(n, most), Lines(e.data), e.passive, k);
      }
      hide Run, OnLines, Lines;
    }
  }

  lemma {:induction false} RepliesSendNoCommand(t: Task, lines: seq<string>, passive: bool, k: nat)
    ensures Command(k) in OnLines(t, lines, passive).log ==> Command(k) in t.log
    decreases lines
  {
    if lines != [] {
      var t1 := if lines[0] == "" then t else OnLine(t, lines[0], passive);
      assert Command(k) in t1.log ==> Command(k) in t.log by { hide Number; }
      RepliesSendNoCommand(t1, lines[1..], passive, k);
    }
  }

  // ------------------------------------------------- when nothing is skipped

  lemma IdleSent(t: Task, n: nat, first: nat)
    requires OnTrack(t, n, first) && t.kind == IdleTask
    ensures Sent(t.log) == Range(first, n)
  {
  }

  /** An idle client has sent the whole script exactly if it was greeted during start-up and no
      answer followed the last greeting in its turn. */
  lemma WholeScriptIsSentIff(n: nat, es: seq<Event>)
    requires n > 0 && Run(n, es).kind == IdleTask
    ensures Sent(Run(n, es).log) == Range(0, n) <==> !SkipsFirst(n, es)
  {
    EveryRunIsOnTrack(n, es);
    hide Run, Sent, SkipsFirst;
    IdleSent(Run(n, es), n, First(n, es));
    RangeLength(0, n);
    RangeLength(1, n);
  }

  // ---------------------------------------------------------- lines and codes

  predicate PlainLine(l: string) {
    forall i :: 0 <= i < |l| ==> l[i] != '\0' && l[i] != '\r'
  }

  function Joined(ls: seq<string>): string {
    if ls == [] then "" else ls[0] + "\r\n" + Joined(ls[1..])
  }

  /** Splitting gives back every list of lines, and the empty rest after the last one. */
  lemma {:induction false} LinesOfJoined(ls: seq<string>)
    requires forall i :: 0 <= i < |ls| ==> PlainLine(ls[i])
    ensures Lines(Joined(ls)) == ls + [""]
  {
    hide Lines, PlainLine;
    if ls == [] {
      NoLines();
    } else {
      LinesOfJoined(ls[1..]);
      FirstLine(ls[0], Joined(ls[1..]));
      hide Joined;
      assert ls + [""] == [ls[0]] + (ls[1..] + [""]);
    }
  }

  lemma NoLines()
    ensures Lines("") == [""]
  {
  }

  lemma {:induction false} LineEndOfLine(l: string, rest: string)
    requires PlainLine(l)
    ensures LineEnd(l + "\r\n" + rest) == |l|
  {
    var s := l + "\r\n" + rest;
    if l == "" {
      assert CrlfAt(s, 0);
    } else {
      assert s[1..] == l[1..] + "\r\n" + rest;
      assert s[0] == l[0];
      LineEndOfLine(l[1..], rest);
    }
  }

  lemma FirstLine(l: string, rest: string)
    requires PlainLine(l)
    ensures Lines(l + "\r\n" + rest) == [l] + Lines(rest)
  {
    LineEndOfLine(l, rest);
    hide LineEnd, PlainLine;
    var s := l + "\r\n" + rest;
    assert s[..|l|] == l && s[|l| + 2..] == rest;
    assert CrlfAt(s, |l|);
  }

  lemma ShortDigits(s: string)
    requires |s| <= 2
    ensures 0 <= Digits(s, 0) <= 99
  {
    if s != "" && IsDigit(s[0]) {
      var v := s[0] as int - '0' as int;
      assert Digits(s, 0) == Digits(s[1..], v);
      if |s| == 2 {
        assert s[1..] == [s[1]];
        assert Digits([s[1]], v) == if IsDigit(s[1]) then 10 * v + (s[1] as int - '0' as int) else v;
      }
    }
  }

  lemma {:induction false} ShortNumber(s: string)
    requires |s| <= 2
    ensures Number(s) <= 99
  {
    ShortDigits(s);
    if s != "" {
      ShortDigits(s[1..]);
      ShortNumber(s[1..]);
    }
  }

  predicate IsDecimal(s: string, a: nat, b: nat, c: nat)
    requires |s| == 3
  {
    && IsDigit(s[0]) && s[0] as int == '0' as int + a
    && IsDigit(s[1]) && s[1] as int == '0' as int + b
    && IsDigit(s[2]) && s[2] as int == '0' as int + c
  }

  /** A code of three digits is read from exactly one string of three characters. */
  lemma CodeIsUnique(s: string, a: nat, b: nat, c: nat)
    requires |s| == 3 && 1 <= a <= 9 && b <= 9 && c <= 9
    ensures Number(s) == 100 * a + 10 * b + c <==> IsDecimal(s, a, b, c)
  {
    ShortNumber(s[1..]);
    ShortDigits(s[1..]);
    ThreeDigits(s);
  }

  lemma ThreeDigits(s: string)
    requires |s| == 3
    ensures !IsDigit(s[0]) ==> Digits(s, 0) == 0
    ensures IsDigit(s[0]) && !IsDigit(s[1]) ==> Digits(s, 0) <= 9
    ensures IsDigit(s[0]) && IsDigit(s[1]) && !IsDigit(s[2]) ==> Digits(s, 0) <= 99
    ensures IsDigit(s[0]) && IsDigit(s[1]) && IsDigit(s[2]) ==>
      Digits(s, 0) == 100 * (s[0] as int - '0' as int) + 10 * (s[1] as int - '0' as int) + (s[2] as int - '0' as int)
  {
    if IsDigit(s[0]) {
      var v := s[0] as int - '0' as int;
      assert Digits(s, 0) == Digits(s[1..], v);
      if IsDigit(s[1]) {
        var v2 := 10 * v + (s[1] as int - '0' as int);
        assert Digits(s[1..], v) == Digits(s[1..][1..], v2);
        assert s[1..][1..] == [s[2]];
        assert Digits([s[2]], v2) == if IsDigit(s[2]) then 10 * v2 + (s[2] as int - '0' as int) else v2;
      }
    }
  }

  /** Otherwise the first command can be missing: a greeting and an answer in one turn. */
  lemma GreetingWithAnswerSkips(n: nat)
    requires n >= 2
    ensures Sent(Run(n, [Bytes(Joined(["220 ", "200 "]), false)]).log) == [1]
  {
    hide Joined, Lines, OnLines, Number;
    var lines := ["220 ", "200 "];
    LinesOfJoined(lines);
    assert lines + [""] == ["220 ", "200 ", ""];
    GreetingAndAnswer();
    FirstTurn(n, Bytes(Joined(lines), false));
    SentNext([Ready], Command(1));
    SentNext([], Ready);
    assert [] + [Ready] == [Ready];
  }

  lemma FirstTurn(n: nat, e: Event)
    ensures Run(n, [e]) == Turn(INITIAL, n, e)
  {
    hide Turn;
    assert [e][..0] == [];
  }

  lemma GreetingAndAnswer()
    ensures OnLines(INITIAL, ["220 ", "200 ", ""], false) == Task(Startup, Finished, 0, [Ready])
  {
    CodeIsUnique("220", 2, 2, 0);
    CodeIsUnique("200", 2, 0, 0);
    hide Number;
    var greeted := Task(Startup, NotStarted, 0, [Ready]);
    assert "220 "[..3] == "220" && [] + [Ready] == [Ready];
    assert OnLine(INITIAL, "220 ", false) == greeted;
    assert "200 "[..3] == "200";
    var answered := greeted.(phase := Finished);
    assert OnLine(greeted, "200 ", false) == answered;
    hide OnLine;
    assert ["220 ", "200 ", ""][1..] == ["200 ", ""];
    assert ["200 ", ""][1..] == [""];
    assert OnLines(answered, [""], false) == answered;
    assert OnLines(greeted, ["200 ", ""], false) == answered;
  }

  // ----------------------------------------------------------- replies by code

  lemma LineIs(t: Task, code: string, a: nat, b: nat, c: nat, sep: char, rest: string, passive: bool)
    requires |code| == 3 && 1 <= a <= 9 && b <= 9 && c <= 9 && IsDecimal(code, a, b, c) && (sep == ' ' || sep == '-')
    ensures OnLine(t, code + [sep] + rest, passive) == OnCode(t, 100 * a + 10 * b + c, passive)
  {
    CodeIsUnique(code, a, b, c);
    hide Number, OnCode;
    var line := code + [sep] + rest;
    assert line[..3] == code && line[3] == sep;
  }

  /** The replies that ask for a login are answered, those without a meaning here change nothing, and
      the errors end the connection, whatever text follows the code. */
  lemma RepliesByCode(t: Task, sep: char, rest: string, passive: bool)
    requires sep == ' ' || sep == '-'
    ensures OnLine(t, "331" + [sep] + rest, passive) == t.(log := t.log + [Password])
    ensures OnLine(t, "530" + [sep] + rest, passive) == t.(log := t.log + [User])
    ensures OnLine(t, "150" + [sep] + rest, passive) == t && OnLine(t, "226" + [sep] + rest, passive) == t
    ensures OnLine(t, "550" + [sep] + rest, passive) == t.(phase := FailedTask)
    ensures OnLine(t, "227" + [sep] + rest, passive) ==
      t.(phase := Started, kind := if passive then t.kind else Termination)
  {
    hide OnLine;
    LineIs(t, "331", 3, 3, 1, sep, rest, passive);
    LineIs(t, "530", 5, 3, 0, sep, rest, passive);
    LineIs(t, "150", 1, 5, 0, sep, rest, passive);
    LineIs(t, "226", 2, 2, 6, sep, rest, passive);
    LineIs(t, "550", 5, 5, 0, sep, rest, passive);
    LineIs(t, "227", 2, 2, 7, sep, rest, passive);
  }

  /** Every other code ends the connection. */
  lemma OtherCodesClose(t: Task, code: string, a: nat, b: nat, c: nat, sep: char, rest: string, passive: bool)
    requires |code| == 3 && 1 <= a <= 9 && b <= 9 && c <= 9 && IsDecimal(code, a, b, c) && (sep == ' ' || sep == '-')
    requires 100 * a + 10 * b + c !in {150, 200, 202, 220, 226, 227, 230, 257, 331, 530, 550}
    ensures OnLine(t, code + [sep] + rest, passive) == t.(kind := Termination, log := t.log + [Closed])
  {
    hide OnLine, IsDecimal;
    LineIs(t, code, a, b, c, sep, rest, passive);
  }

  /** A failed command stops the script: nothing is sent, turn after turn, until another reply comes. */
  lemma FailureStops(t: Task, n: nat)
    requires t.kind == Startup && t.phase == FailedTask && t.progress < n
    ensures Turn(t, n, Silence) == t
  {
  }

  // ------------------------------------------------------------------ progress

  /** A reply that says that a command is done. */
  predicate IsPositive(line: string) {
    && |line| >= 4 && (line[3] == ' ' || line[3] == '-')
    && var code := Number(line[..3]);
    (code == 200 || code == 202 || code == 230 || code == 257)
  }

  /** A greeting, and then one positive reply per turn. */
  function Dialogue(greeting: string, replies: seq<string>): seq<Event> {
    if replies == [] then [Bytes(Joined([greeting]), false)]
    else Dialogue(greeting, replies[..|replies| - 1]) + [Bytes(Joined([replies[|replies| - 1]]), false)]
  }

  lemma OneLine(t: Task, line: string, passive: bool)
    requires PlainLine(line) && line != ""
    ensures OnLines(t, Lines(Joined([line])), passive) == OnLine(t, line, passive)
  {
    hide Lines, OnLine, Joined;
    LinesOfJoined([line]);
    assert [line] + [""] == [line, ""];
    var t1 := OnLine(t, line, passive);
    assert [line, ""][1..] == [""] && [""][1..] == [];
    assert OnLines(t1, [""], passive) == t1;
  }

  lemma ReplyAdvances(t: Task, n: nat, line: string)
    requires t.kind == Startup && t.progress < n && IsPositive(line) && PlainLine(line)
    ensures Turn(t, n, Bytes(Joined([line]), false)) ==
      if t.progress + 1 < n
      then t.(phase := InProgress, progress := t.progress + 1, log := t.log + [Command(t.progress + 1)])
      else t.(kind := IdleTask, phase := Finished, progress := n)
  {
    OneLine(t, line, false);
    hide OnLines, Lines, Joined, Number;
  }

  lemma GreetingStarts(n: nat, greeting: string)
    requires n > 0 && IsGreeting(greeting) && PlainLine(greeting)
    ensures Turn(INITIAL, n, Bytes(Joined([greeting]), false)) == Task(Startup, InProgress, 0, [Ready, Command(0)])
  {
    OneLine(INITIAL, greeting, false);
    hide OnLines, Lines, Joined, Number;
    assert [] + [Ready] == [Ready] && [Ready] + [Command(0)] == [Ready, Command(0)];
  }

  lemma SentAtStart()
    ensures Sent([Ready, Command(0)]) == [0]
  {
    SentNext([Ready], Command(0));
    SentNext([], Ready);
    assert [] + [Ready] == [Ready] && [Ready] + [Command(0)] == [Ready, Command(0)];
  }

  /** Every greeted client whose commands are answered comes to the end of the script, one command
      per reply. */
  lemma {:induction false} RepliesDriveScript(n: nat, greeting: string, replies: seq<string>)
    requires 0 < n && |replies| <= n && IsGreeting(greeting) && PlainLine(greeting)
    requires forall i :: 0 <= i < |replies| ==> IsPositive(replies[i]) && PlainLine(replies[i])
    ensures var t, k := Run(n, Dialogue(greeting, replies)), |replies|;
      if k < n then t.kind == Startup && t.progress == k && Sent(t.log) == Range(0, k + 1)
      else t.kind == IdleTask && Sent(t.log) == Range(0, n)
  {
    hide Turn, IsPositive, IsGreeting, PlainLine, Joined;
    var es := Dialogue(greeting, replies);
    if replies == [] {
      FirstTurn(n, es[0]);
      GreetingStarts(n, greeting);
      SentAtStart();
      hide Run, Sent;
      assert Range(0, 0) == [] && Range(0, 1) == [0];
    } else {
      var most, line := replies[..|replies| - 1], replies[|replies| - 1];
      RepliesDriveScript(n, greeting, most);
      assert es[..|es| - 1] == Dialogue(greeting, most);
      var t := Run(n, Dialogue(greeting, most));
      assert Run(n, es) == Turn(t, n, Bytes(Joined([line]), false));
      hide Run, Sent, Dialogue;
      ReplyAdvances(t, n, line);
      SentNext(t.log, Command(t.progress + 1));
    }
  }
}
