/** What the FTP client writes to its command socket, as text. */
module FtpSending {
  import opened Common
  import opened FtpStartup

  /** The script of commands, and the names to log in with. */
  datatype Texts = Texts(script: seq<string>, user: string, password: string)

  /** A login line is printed into 64 bytes, the last of which is a NUL. */
  function Cut(s: string): string { if |s| <= 63 then s else s[..63] }

  function UserLine(x: Texts): string { Cut("USER " + x.user + "\r\n") }

  function PasswordLine(x: Texts): string { Cut("PASS " + x.password + "\r\n") }

  // A login line is all there if the name is short enough, and otherwise its first 63 characters.
  lemma LoginLines(x: Texts)
    ensures |UserLine(x)| <= 63 && UserLine(x) <= "USER " + x.user + "\r\n"
    ensures |PasswordLine(x)| <= 63 && PasswordLine(x) <= "PASS " + x.password + "\r\n"
    ensures |x.user| <= 56 ==> UserLine(x) == "USER " + x.user + "\r\n"
    ensures |x.user| > 56 ==> |UserLine(x)| == 63
    ensures |x.password| <= 56 ==> PasswordLine(x) == "PASS " + x.password + "\r\n"
    ensures |x.password| > 56 ==> |PasswordLine(x)| == 63
  {
  }

  /** What one act writes. */
  function TextOf(x: Texts, a: Act): seq<string> {
    match a
    case Command(k) => if k < |x.script| then [x.script[k]] else []
    case User => [UserLine(x)]
    case Password => [PasswordLine(x)]
    case Ready => []
    case Closed => []
  }

  /** Everything that was written. */
  function Written(x: Texts, log: seq<Act>): seq<string> {
    if log == [] then [] else Written(x, log[..|log| - 1]) + TextOf(x, log[|log| - 1])
  }

  lemma WrittenNext(x: Texts, log: seq<Act>, a: Act)
    ensures Written(x, log + [a]) == Written(x, log) + TextOf(x, a)
  {
    assert (log + [a])[..|log|] == log;
  }

  /** What was written before the last greeting, and since. */
  function Until(x: Texts, log: seq<Act>): seq<string> {
    if log == [] then []
    else if log[|log| - 1].Ready? then Written(x, log[..|log| - 1])
    else Until(x, log[..|log| - 1])
  }

  function Since(x: Texts, log: seq<Act>): seq<string> {
    if log == [] || log[|log| - 1].Ready? then []
    else Since(x, log[..|log| - 1]) + TextOf(x, log[|log| - 1])
  }

  lemma {:induction false} UntilAndSince(x: Texts, log: seq<Act>)
    ensures Written(x, log) == Until(x, log) + Since(x, log)
  {
    hide TextOf;
    if log != [] {
      var most, a := log[..|log| - 1], log[|log| - 1];
      UntilAndSince(x, most);
      if a.Ready? {
        assert TextOf(x, a) == [] by { ReadyWritesNothing(x); }
        assert Written(x, most) + [] == Written(x, most);
      } else {
        assert (Until(x, most) + Since(x, most)) + TextOf(x, a) == Until(x, most) + (Since(x, most) + TextOf(x, a));
      }
    }
  }

  lemma ReadyWritesNothing(x: Texts)
    ensures TextOf(x, Ready) == []
  {
  }

  // ------------------------------------------------------- texts and the script

  /** `ws` is `xs` with lines of `login` put in between. */
  ghost predicate Merges(ws: seq<string>, xs: seq<string>, login: set<string>) {
    if ws == [] then xs == []
    else
      || (xs != [] && ws[|ws| - 1] == xs[|xs| - 1] && Merges(ws[..|ws| - 1], xs[..|xs| - 1], login))
      || (ws[|ws| - 1] in login && Merges(ws[..|ws| - 1], xs, login))
  }

  lemma MergesCommand(ws: seq<string>, xs: seq<string>, login: set<string>, w: string)
    requires Merges(ws, xs, login)
    ensures Merges(ws + [w], xs + [w], login)
  {
    assert (ws + [w])[..|ws|] == ws && (xs + [w])[..|xs|] == xs;
  }

  lemma MergesLogin(ws: seq<string>, xs: seq<string>, login: set<string>, w: string)
    requires Merges(ws, xs, login) && w in login
    ensures Merges(ws + [w], xs, login)
  {
    assert (ws + [w])[..|ws|] == ws;
  }

  function Login(x: Texts): set<string> { {UserLine(x), PasswordLine(x)} }

  predicate AllBelow(ks: seq<nat>, n: nat) { forall i :: 0 <= i < |ks| ==> ks[i] < n }

  /** The texts of commands. */
  function Picked(script: seq<string>, ks: seq<nat>): seq<string>
    requires AllBelow(ks, |script|)
  {
    if ks == [] then [] else Picked(script, ks[..|ks| - 1]) + [script[ks[|ks| - 1]]]
  }

  ghost predicate InTable(log: seq<Act>, n: nat) { forall k: nat :: Command(k) in log ==> k < n }

  lemma {:induction false} SentInTable(log: seq<Act>, n: nat)
    requires InTable(log, n)
    ensures AllBelow(Sent(log), n)
  {
    if log != [] {
      assert log[|log| - 1] in log;
      assert forall a :: a in log[..|log| - 1] ==> a in log;
      SentInTable(log[..|log| - 1], n);
    }
  }

  // Since the last greeting exactly the commands were written, and login lines in between.
  lemma {:induction false} SinceMerges(x: Texts, log: seq<Act>)
    requires InTable(log, |x.script|)
    ensures AllBelow(Sent(log), |x.script|)
    ensures Merges(Since(x, log), Picked(x.script, Sent(log)), Login(x))
  {
    SentInTable(log, |x.script|);
    if log != [] && !log[|log| - 1].Ready? {
      var most, a := log[..|log| - 1], log[|log| - 1];
      assert a in log && forall b :: b in most ==> b in log;
      SinceMerges(x, most);
      hide Merges, UserLine, PasswordLine;
      var ws, xs := Since(x, most), Picked(x.script, Sent(most));
      assert Sent(most) + [] == Sent(most) && ws + [] == ws;
      match a
      case Command(k) =>
        assert Sent(log) == Sent(most) + [k] && (Sent(most) + [k])[..|Sent(most)|] == Sent(most);
        MergesCommand(ws, xs, Login(x), x.script[k]);
      case User => MergesLogin(ws, xs, Login(x), UserLine(x));
      case Password => MergesLogin(ws, xs, Login(x), PasswordLine(x));
      case Closed =>
    }
  }

  lemma {:induction false} PickedRange(script: seq<string>, from: nat, to: nat)
    requires from <= to <= |script|
    ensures AllBelow(Range(from, to), |script|) && Picked(script, Range(from, to)) == script[from..to]
  {
    hide *;
    RangeNext(from, to);
    if from < to {
      PickedRange(script, from, to - 1);
      PickedNext(script, Range(from, to - 1), to - 1);
      SliceNext(script, from, to - 1);
    } else {
      NonePicked(script);
      assert script[from..to] == [];
    }
  }

  lemma RangeNext(from: nat, to: nat)
    ensures Range(from, to) == if from >= to then [] else Range(from, to - 1) + [to - 1]
  {
  }

  lemma NonePicked(script: seq<string>)
    ensures AllBelow([], |script|) && Picked(script, []) == []
  {
  }

  lemma SliceNext(script: seq<string>, from: nat, k: nat)
    requires from <= k < |script|
    ensures script[from..k + 1] == script[from..k] + [script[k]]
  {
  }

  lemma PickedNext(script: seq<string>, ks: seq<nat>, k: nat)
    requires k < |script| && AllBelow(ks, |script|)
    ensures AllBelow(ks + [k], |script|) && Picked(script, ks + [k]) == Picked(script, ks) + [script[k]]
  {
    assert (ks + [k])[..|ks|] == ks;
  }

  lemma RunInTable(n: nat, es: seq<Event>)
    ensures InTable(Run(n, es).log, n)
  {
    hide Run;
    forall k: nat
      ensures Command(k) in Run(n, es).log ==> k < n
    {
      CommandsAreInTable(n, es, k);
    }
  }

  // Commands from `first` to `to` were sent since the greeting.
  lemma SinceIsScript(x: Texts, log: seq<Act>, first: nat, to: nat)
    requires InTable(log, |x.script|) && first <= to <= |x.script| && Sent(log) == Range(first, to)
    ensures Merges(Since(x, log), x.script[first..to], Login(x))
  {
    hide *;
    SinceMerges(x, log);
    PickedRange(x.script, first, to);
  }

  /** The main result on the socket: in every run, what was written since the last greeting is the
      script in order, from its first command (or its second if the greeting came together with an
      answer) to the current one, with nothing but login lines in between; all of it once idle. */
  lemma ScriptIsWritten(x: Texts, es: seq<Event>)
    ensures
      var n := |x.script|;
      var t, first := Run(n, es), First(n, es);
      && Written(x, t.log) == Until(x, t.log) + Since(x, t.log)
      && (t.kind == Startup && es != [] ==>
            && t.progress < n && first <= t.progress + 1
            && Merges(Since(x, t.log), x.script[first..t.progress + 1], Login(x)))
      && (t.kind == IdleTask && n > 0 ==> Merges(Since(x, t.log), x.script[first..], Login(x)))
  {
    var n := |x.script|;
    var t, first := Run(n, es), First(n, es);
    EveryRunIsOnTrack(n, es);
    RunInTable(n, es);
    UntilAndSince(x, t.log);
    hide Run, Sent, SkipsFirst, Merges, Since, Until, Written, Range, Login, InTable;
    assert first <= 1;
    if t.kind == Startup && es != [] {
      SinceIsScript(x, t.log, first, t.progress + 1);
    } else if t.kind == IdleTask && n > 0 {
      SinceIsScript(x, t.log, first, n);
      assert x.script[first..n] == x.script[first..];
    }
  }

  lemma {:induction false} OnlyScript(ws: seq<string>, xs: seq<string>, login: set<string>)
    requires Merges(ws, xs, login) && forall i :: 0 <= i < |ws| ==> ws[i] !in login
    ensures ws == xs
  {
    if ws != [] {
      OnlyScript(ws[..|ws| - 1], xs[..|xs| - 1], login);
      assert ws == ws[..|ws| - 1] + [ws[|ws| - 1]] && xs == xs[..|xs| - 1] + [xs[|xs| - 1]];
    }
  }

  /** Hence an idle client that did not have to log in again has written the whole script since the
      last greeting exactly if no answer came with that greeting. */
  lemma WholeScriptIsWrittenIff(x: Texts, es: seq<Event>)
    requires x.script != [] && Run(|x.script|, es).kind == IdleTask
    requires var ws := Since(x, Run(|x.script|, es).log); forall i :: 0 <= i < |ws| ==> ws[i] !in Login(x)
    ensures Since(x, Run(|x.script|, es).log) == x.script <==> !SkipsFirst(|x.script|, es)
  {
    ScriptIsWritten(x, es);
    hide Run, SkipsFirst, Merges, Since, Until, Written, Login;
    OnlyScript(Since(x, Run(|x.script|, es).log), x.script[First(|x.script|, es)..], Login(x));
    assert x.script[0..] == x.script;
  }
}
