/** The FTP client's handling of replies as it runs: the received bytes are split in place. */
module FtpClient {
  import opened Common
  import opened FtpStartup
  import opened FtpSending

  /** The reply codes that have a handler. */
  const CODES: seq<int> := [150, 200, 202, 220, 226, 227, 230, 257, 331, 421, 425, 426, 451, 500, 501, 530, 550]

  class Client {
    const script: seq<string>
    const user: string
    const password: string
    var kind: Kind
    var phase: Phase
    var progress: nat
    var sending: seq<string> // what was written to the command socket
    ghost var log: seq<Act>

    ghost function View(): Task
      reads this
    {
      Task(kind, phase, progress, log)
    }

    ghost function Names(): Texts { Texts(script, user, password) }

    /** What the socket got is what the log says. */
    ghost predicate Synced()
      reads this
    {
      sending == Written(Names(), log)
    }

    constructor (script: seq<string>, user: string, password: string)
      ensures Names() == Texts(script, user, password) && View() == INITIAL && sending == [] && Synced()
    {
      this.script, this.user, this.password := script, user, password;
      kind, phase, progress, sending, log := Startup, InProgress, 0, [], [];
    }

    method Send(text: string)
      modifies `sending
      ensures sending == old(sending) + [text]
    {
      sending := sending + [text];
    }

    /** A login line goes through a buffer of 64 bytes. */
    method SendLogin(command: string, name: string)
      modifies `sending
      ensures sending == old(sending) + [Cut(command + name + "\r\n")]
    {
      var line := command + name + "\r\n";
      if |line| > 63 {
        line := line[..63];
      }
      Send(line);
    }

    method Disconnect()
      requires Synced()
      modifies `kind, `log
      ensures View() == Closing(old(View())) && Synced()
    {
      WrittenNext(Names(), log, Closed);
      log := log + [Closed];
      kind := Termination;
    }

    method HandleCode(code: int, passive: bool)
      requires Synced()
      modifies `kind, `phase, `progress, `log, `sending
      ensures View() == OnCode(old(View()), code, passive) && Synced()
    {
      WrittenNext(Names(), log, Ready);
      WrittenNext(Names(), log, User);
      WrittenNext(Names(), log, Password);
      hide Written;
      var i := 0;
      while i < |CODES| && CODES[i] != code
        invariant 0 <= i <= |CODES|
        invariant forall j :: 0 <= j < i ==> CODES[j] != code
      {
        i := i + 1;
      }
      if i == |CODES| {
        UnknownCode(code);
        Disconnect();
      } else if code == 200 || code == 202 || code == 230 || code == 257 {
        phase := Finished;
      } else if code == 220 {
        if kind == Startup {
          phase := NotStarted;
          progress := 0;
          log := log + [Ready];
        }
      } else if code == 227 {
        phase := Started;
        if !passive {
          kind := Termination;
        }
      } else if code == 331 {
        SendLogin("PASS ", password);
        log := log + [Password];
      } else if code == 530 {
        SendLogin("USER ", user);
        log := log + [User];
      } else if code == 550 {
        phase := FailedTask;
      } else if code != 150 && code != 226 {
        Disconnect();
      }
    }

    /** Handles the line from `line` to `end` and cuts off its code. */
    method WorkSingle(buf: array<char>, line: nat, end: nat, passive: bool, ghost text: string)
      requires line + |text| == end < buf.Length
      requires Synced() && forall i :: 0 <= i < |text| ==> buf[line + i] == text[i]
      modifies buf, `kind, `phase, `progress, `log, `sending
      ensures View() == OnLine(old(View()), text, passive) && Synced()
      ensures forall i :: end <= i < buf.Length ==> buf[i] == old(buf[i])
    {
      if end - line < 4 || (buf[line + 3] != ' ' && buf[line + 3] != '-') {
        Disconnect();
        return;
      }
      buf[line + 3] := '\0';
      assert text[..3] == buf[line..line + 3];
      HandleCode(Number(buf[line..line + 3]), passive);
    }

    /** Ends the line at `line` with a NUL, handles it, and says where the next one begins. */
    method WorkLine(buf: array<char>, line: nat, passive: bool, ghost rest: string) returns (over: bool, next: nat)
      requires kind != Termination && Synced() && line + |rest| + 1 == buf.Length
      requires buf[buf.Length - 1] == '\0' && forall i :: 0 <= i < |rest| ==> buf[line + i] == rest[i]
      modifies buf, `kind, `phase, `progress, `log, `sending
      ensures Synced()
      ensures over ==> View() == OnLines(old(View()), Lines(rest), passive)
      ensures !over ==> kind != Termination && line < next < buf.Length
      ensures !over ==> forall i :: next <= i < buf.Length ==> buf[i] == old(buf[i])
      ensures !over ==>
        OnLines(View(), Lines(rest[next - line..]), passive) == OnLines(old(View()), Lines(rest), passive)
    {
      hide *;
      var n := buf.Length - 1;
      var end := FindLineEnd(buf, line, n, rest);
      FirstOfLines(View(), rest, passive);
      CrlfIs(rest, end - line);
      var more := end + 1 < n && buf[end] == '\r' && buf[end + 1] == '\n';
      if more {
        buf[end] := '\0';
      }
      if buf[line] != '\0' {
        WorkSingle(buf, line, end, passive, rest[..end - line]);
      }
      ViewIs();
      over, next := kind == Termination || !more, end + 2;
    }

    lemma ViewIs()
      ensures View().kind == kind
    {
    }

    /** Splits the received bytes into lines, in place, and handles them. */
    method WorkCmd(data: string, passive: bool)
      requires kind != Termination && Synced()
      modifies `kind, `phase, `progress, `log, `sending
      ensures View() == OnLines(old(View()), Lines(data), passive) && Synced()
    {
      hide *;
      var n := |data|;
      var buf := new char[n + 1](i => if 0 <= i < n then data[i] else '\0');
      var line := 0;
      assert data[0..] == data;
      ghost var goal := OnLines(View(), Lines(data), passive);
      while true
        invariant line <= n && kind != Termination && Synced() && fresh(buf) && buf.Length == n + 1
        invariant forall i :: line <= i < n ==> buf[i] == data[i]
        invariant buf[n] == '\0'
        invariant OnLines(View(), Lines(data[line..]), passive) == goal
        decreases n - line
      {
        ghost var rest := data[line..];
        var over, next := WorkLine(buf, line, passive, rest);
        if over {
          return;
        }
        assert rest[next - line..] == data[next..];
        line := next;
      }
    }

    // --------------------------------------------------------- the main loop

    /** The next command is written exactly when the log says so. */
    method WorkState()
      requires Synced()
      modifies `kind, `phase, `progress, `log, `sending
      ensures View() == Work(old(View()), |script|) && Synced()
      ensures if log == old(log) then sending == old(sending)
              else progress < |script| && log == old(log) + [Command(progress)] &&
                   sending == old(sending) + [script[progress]]
    {
      if kind != Startup {
        return;
      }
      if phase == Finished {
        progress := progress + 1;
        phase := NotStarted;
      }
      if progress >= |script| {
        kind := IdleTask;
        phase := Finished;
      }
      if phase == NotStarted {
        phase := InProgress;
        WrittenNext(Names(), log, Command(progress));
        Send(script[progress]);
        log := log + [Command(progress)];
      }
    }

    /** The client's thread over any sequence of turns. */
    method Thread(events: seq<Event>)
      requires View() == INITIAL && Synced()
      modifies this
      ensures View() == Run(|script|, events)
      ensures sending == Written(Names(), Run(|script|, events).log)
    {
      hide Work, OnLines, Lines, Written;
      var k := 0;
      while k < |events| && kind != Termination
        invariant 0 <= k <= |events| && View() == Run(|script|, events[..k]) && Synced()
      {
        var e := events[k];
        assert events[..k + 1][..k] == events[..k];
        match e {
          case Bytes(data, passive) =>
            WorkCmd(data, passive);
            WorkState();
          case Unreadable =>
            Disconnect();
            WorkState();
          case Silence =>
            WorkState();
          case Down =>
            Disconnect();
        }
        k := k + 1;
      }
      TerminatedStays(|script|, events, k);
      assert events[..|events|] == events;
    }
  }

  lemma CrlfIs(s: string, i: nat)
    ensures CrlfAt(s, i) <==> i + 1 < |s| && s[i] == '\r' && s[i + 1] == '\n'
  {
  }

  lemma FirstOfLines(t: Task, s: string, passive: bool)
    ensures
      var e := LineEnd(s);
      var t1 := if e == 0 then t else OnLine(t, s[..e], passive);
      && OnLines(t, Lines(s), passive) ==
           (if t1.kind == Termination || !CrlfAt(s, e) then t1 else OnLines(t1, Lines(s[e + 2..]), passive))
      && (e > 0 ==> s[0] != '\0')
  {
    var e := LineEnd(s);
    var more := if CrlfAt(s, e) then Lines(s[e + 2..]) else [];
    assert Lines(s) == [s[..e]] + more;
    assert ([s[..e]] + more)[1..] == more;
    hide Lines, LineEnd, OnLine;
  }

  lemma {:induction false} TerminatedStays(n: nat, es: seq<Event>, k: nat)
    requires k <= |es| && (k < |es| ==> Run(n, es[..k]).kind == Termination)
    ensures Run(n, es) == Run(n, es[..k])
    decreases |es|
  {
    if k == |es| {
      assert es[..k] == es;
    } else {
      var most := es[..|es| - 1];
      assert most[..k] == es[..k];
      TerminatedStays(n, most, k);
    }
  }

  lemma UnknownCode(code: int)
    requires forall j :: 0 <= j < |CODES| ==> CODES[j] != code
    ensures forall t: Task, passive: bool :: OnCode(t, code, passive) == Closing(t)
  {
    assert CODES[0] != code && CODES[1] != code && CODES[2] != code && CODES[3] != code && CODES[4] != code;
    assert CODES[5] != code && CODES[6] != code && CODES[7] != code && CODES[8] != code;
    assert CODES[15] != code && CODES[16] != code;
  }

  method FindLineEnd(buf: array<char>, line: nat, n: nat, ghost text: string) returns (end: nat)
    requires line + |text| == n < buf.Length && buf[n] == '\0'
    requires forall i :: 0 <= i < |text| ==> buf[line + i] == text[i]
    ensures end == line + LineEnd(text)
    ensures end > line ==> buf[line] != '\0'
    ensures buf[end] == '\0' || CrlfAt(text, LineEnd(text))
  {
    end := line;
    while buf[end] != '\0' && !(end + 1 < n && buf[end] == '\r' && buf[end + 1] == '\n')
      invariant line <= end <= n
      invariant end - line + LineEnd(text[end - line..]) == LineEnd(text)
      invariant end > line ==> buf[line] != '\0'
      decreases n - end
    {
      assert text[end - line..][1..] == text[end - line + 1..];
      end := end + 1;
    }
  }
}
