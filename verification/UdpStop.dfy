/** Stopping the UDP server ends: there is no deadlock, and every schedule that lets both tasks
    run brings stop to its return. */
module UdpStop {
  import opened Common
  import opened UdpLifecycle

  predicate IsStopping(pc: CallerPc) { pc != Outside && pc != CreateTask && pc != Running }

  /** Who has the lock is about to give it back; the stop flag stays up. */
  predicate LockIsSafe(w: World) {
    && (w.holder == Some(Server) ==> (w.task == ReadSocket || w.task == GiveLock) && w.ctx.lock.Some?)
    && (w.holder == Some(Caller) ==>
        && (w.caller == StopLookSocket || w.caller == StopSetTimeout || w.caller == StopLookGive ||
            w.caller == StopGiveLock || w.caller == EndLookSocket || w.caller == EndForgetSocket ||
            w.caller == EndGiveLock)
        && w.ctx.lock.Some? && w.task != ForgetLock)
    && (IsStopping(w.caller) ==> w.ctx.stopRequested)
  }

  lemma SetUpKeepsLockSafe(w: World, c: Choice)
    requires Inv(w) && LockIsSafe(w) && SettingUp(w.task)
    ensures LockIsSafe(SetUp(w, c))
  {
    hide Balanced;
  }

  lemma ServeKeepsLockSafe(w: World, c: Choice)
    requires Inv(w) && LockIsSafe(w) && !SettingUp(w.task)
    ensures LockIsSafe(Serve(w, c))
  {
    hide Balanced;
  }

  lemma StartOrStopKeepsLockSafe(w: World, stop: bool, callback: bool, createOk: bool)
    requires Inv(w) && LockIsSafe(w) && !CleaningUp(w.caller)
    ensures LockIsSafe(StartOrStop(w, stop, callback, createOk))
  {
    hide Balanced;
  }

  lemma CleanUpKeepsLockSafe(w: World)
    requires Inv(w) && LockIsSafe(w) && CleaningUp(w.caller)
    ensures LockIsSafe(CleanUp(w))
  {
    hide Balanced, TaskFits;
  }

  lemma StepKeepsLockSafe(w: World, e: Event)
    requires Inv(w) && LockIsSafe(w)
    ensures LockIsSafe(Step(w, e))
  {
    hide Balanced, Fits, SetUp, Serve, StartOrStop, CleanUp;
    match e
    case TaskStep(c) =>
      if SettingUp(w.task) {
        SetUpKeepsLockSafe(w, c);
      } else {
        ServeKeepsLockSafe(w, c);
      }
    case CallerStep(stop, callback, createOk) =>
      if CleaningUp(w.caller) {
        CleanUpKeepsLockSafe(w);
      } else {
        StartOrStopKeepsLockSafe(w, stop, callback, createOk);
      }
    case TaskLeaves =>
  }

  // ------------------------------------------------------------- the measure

  /** How many steps the task is from its end, once it is told to stop. */
  function TaskRank(pc: TaskPc): nat {
    match pc
    case Absent => 0
    case ForgetTask => 1
    case LoopHead => 2
    case Idle | BurstHead => 3
    case LookIdle | Receive | LookSocket => 4
    case GiveLock | ForgetLock => 5
    case ReadSocket | DeleteLock => 6
    case TakeLock | LookInitialized => 7
    case ForgetSocket => 8
    case CloseSocket => 9
    case Bind => 10
    case SetTimeouts => 11
    case CreateSocket => 12
    case CreateLock => 13
    case LookStop => 14
    case WaitNetwork => 15
  }

  function CallerRank(pc: CallerPc): nat {
    match pc
    case Outside | CreateTask | Running => 0
    case EndClear => 1
    case EndLookLock => 2
    case EndGiveLock => 3
    case EndForgetSocket => 4
    case EndLookSocket => 5
    case EndTakeLock => 6
    case StopWait => 7
    case StopGiveLock => 8
    case StopLookGive => 9
    case StopSetTimeout => 10
    case StopLookSocket => 11
    case StopTakeLock => 12
    case StopLookLock => 13
  }

  function Rank(w: World): nat { TaskRank(w.task) + CallerRank(w.caller) }

  predicate TaskCanMove(w: World) {
    w.task != Absent && (w.task == TakeLock && w.ctx.lock.Some? ==> LockIsFree(w, w.ctx.lock.value))
  }

  predicate CallerCanMove(w: World) {
    && (w.caller == StopTakeLock && w.ctx.lock.Some? ==> LockIsFree(w, w.ctx.lock.value))
    && (w.caller == StopWait ==> !w.ctx.task)
    && (w.caller == EndTakeLock && w.ctx.lock.Some? ==> LockIsFree(w, w.ctx.lock.value))
  }

  /** No deadlock: one of the two can always move. */
  lemma SomeoneCanMove(w: World)
    requires Inv(w) && LockIsSafe(w) && IsStopping(w.caller)
    ensures TaskCanMove(w) || CallerCanMove(w)
  {
    hide Balanced;
    assert w.holder.None? || w.holder == Some(Server) || w.holder == Some(Caller) by {
      if w.holder.Some? {
        match w.holder.value
        case Server =>
        case Caller =>
      }
    }
  }

  predicate Same(w: World, w': World) { w' == w.(leaving := w'.leaving) }

  lemma SetUpMoves(w: World, c: Choice)
    requires w.ctx.stopRequested && SettingUp(w.task)
    ensures var w' := SetUp(w, c); w'.caller == w.caller && TaskRank(w'.task) < TaskRank(w.task)
  {
  }

  lemma ServeMoves(w: World, c: Choice)
    requires w.ctx.stopRequested && !SettingUp(w.task)
    ensures
      var w' := Serve(w, c);
      w'.caller == w.caller &&
      if TaskCanMove(w) then TaskRank(w'.task) < TaskRank(w.task) else w' == w
  {
  }

  lemma TaskMoves(w: World, c: Choice)
    requires LockIsSafe(w) && IsStopping(w.caller)
    ensures
      var w' := TaskAct(w, c);
      w'.caller == w.caller &&
      if TaskCanMove(w) then TaskRank(w'.task) < TaskRank(w.task) else w' == w
  {
    hide TaskRank, SetUp, Serve;
    if SettingUp(w.task) {
      SetUpMoves(w, c);
    } else {
      ServeMoves(w, c);
    }
  }

  lemma CallerMoves(w: World, stop: bool, callback: bool, createOk: bool)
    requires LockIsSafe(w) && IsStopping(w.caller)
    ensures
      var w' := CallerAct(w, stop, callback, createOk);
      w'.task == w.task && (IsStopping(w'.caller) || w'.caller == Outside) &&
      if CallerCanMove(w) then CallerRank(w'.caller) < CallerRank(w.caller) else w' == w
  {
    if CleaningUp(w.caller) {
      CleanUpMoves(w);
    } else {
      StopMoves(w, stop, callback, createOk);
    }
    hide LockIsSafe, StartOrStop, CleanUp, CallerCanMove, CallerRank;
  }

  lemma CleanUpMoves(w: World)
    requires CleaningUp(w.caller)
    ensures
      var w' := CleanUp(w);
      w'.task == w.task && (CleaningUp(w'.caller) || w'.caller == Outside) &&
      if CallerCanMove(w) then CallerRank(w'.caller) < CallerRank(w.caller) else w' == w
  {
  }

  lemma StopMoves(w: World, stop: bool, callback: bool, createOk: bool)
    requires !CleaningUp(w.caller) && IsStopping(w.caller)
    ensures
      var w' := StartOrStop(w, stop, callback, createOk);
      w'.task == w.task && IsStopping(w'.caller) &&
      if CallerCanMove(w) then CallerRank(w'.caller) < CallerRank(w.caller) else w' == w
  {
  }

  // --------------------------------------------------------------- schedules

  ghost predicate Good(w: World) { Inv(w) && LockIsSafe(w) }

  /** At some point of the run stop has returned. */
  ghost predicate Returned(w: World, es: seq<Event>) {
    exists k :: 0 <= k <= |es| && Run(w, es[..k]).caller == Outside
  }

  /** What part of a round, in which stop has not yet returned, can have done: brought the tasks
      nearer to their ends, or nothing because nobody who could move had a step. */
  ghost predicate Advanced(w: World, es: seq<Event>) {
    var w' := Run(w, es);
    && Good(w') && IsStopping(w'.caller)
    && (|| Rank(w') < Rank(w)
        || (&& Same(w, w')
            && (TaskCanMove(w) ==> forall i :: 0 <= i < |es| ==> !es[i].TaskStep?)
            && (CallerCanMove(w) ==> forall i :: 0 <= i < |es| ==> !es[i].CallerStep?)))
  }

  lemma OneEvent(w: World, e: Event)
    requires Good(w) && IsStopping(w.caller)
    ensures
      var w' := Step(w, e);
      && Good(w') && (IsStopping(w'.caller) || w'.caller == Outside)
      && (Rank(w') < Rank(w) || Same(w, w'))
      && (e.TaskStep? && TaskCanMove(w) ==> Rank(w') < Rank(w))
      && (e.CallerStep? && CallerCanMove(w) ==> Rank(w') < Rank(w))
  {
    StepKeepsInv(w, e);
    StepKeepsLockSafe(w, e);
    hide Inv, LockIsSafe, TaskAct, CallerAct, TaskCanMove, CallerCanMove;
    match e
    case TaskStep(c) => TaskMoves(w, c);
    case CallerStep(stop, callback, createOk) => CallerMoves(w, stop, callback, createOk);
    case TaskLeaves =>
  }

  lemma SameMeans(w: World, w1: World)
    requires Same(w, w1)
    ensures Rank(w1) == Rank(w) && w1.caller == w.caller
    ensures TaskCanMove(w1) == TaskCanMove(w) && CallerCanMove(w1) == CallerCanMove(w)
  {
  }

  lemma NextEvent(w: World, most: seq<Event>, e: Event, es: seq<Event>)
    requires Advanced(w, most) && es == most + [e] && Run(w, es) == Step(Run(w, most), e)
    ensures Run(w, es).caller == Outside || Advanced(w, es)
  {
    var w1 := Run(w, most);
    OneEvent(w1, e);
    hide Good, Step, Run, TaskCanMove, CallerCanMove, Rank;
    if Same(w, w1) {
      SameMeans(w, w1);
      assert Same(w1, Step(w1, e)) ==> Same(w, Step(w1, e));
    } else {
      if Same(w1, Step(w1, e)) {
        SameMeans(w1, Step(w1, e));
      }
    }
  }

  lemma {:induction false} PartOfRound(w: World, es: seq<Event>)
    requires Good(w) && IsStopping(w.caller)
    ensures Returned(w, es) || Advanced(w, es)
  {
    hide Good, Step, TaskCanMove, CallerCanMove, Rank;
    if es != [] {
      var most, e := es[..|es| - 1], es[|es| - 1];
      PartOfRound(w, most);
      hide Advanced;
      assert es == most + [e];
      if Returned(w, most) {
        ReturnedStays(w, most, [e]);
      } else {
        NextEvent(w, most, e, es);
        assert es[..|es|] == es;
      }
    }
  }

  lemma ReturnedStays(w: World, a: seq<Event>, b: seq<Event>)
    requires Returned(w, a)
    ensures Returned(w, a + b)
  {
    hide Run;
    var k :| 0 <= k <= |a| && Run(w, a[..k]).caller == Outside;
    assert (a + b)[..k] == a[..k];
  }

  /** Both tasks get at least one step. */
  ghost predicate IsRound(es: seq<Event>) {
    && (exists i :: 0 <= i < |es| && es[i].TaskStep?)
    && (exists i :: 0 <= i < |es| && es[i].CallerStep?)
  }

  lemma RoundBringsNearer(w: World, es: seq<Event>)
    requires Good(w) && IsStopping(w.caller) && IsRound(es)
    ensures Returned(w, es) ||
      (Good(Run(w, es)) && IsStopping(Run(w, es).caller) && Rank(Run(w, es)) < Rank(w))
  {
    PartOfRound(w, es);
    SomeoneCanMove(w);
    hide Inv, LockIsSafe, Run, TaskCanMove, CallerCanMove, Rank, Same;
  }

  function Joined(rounds: seq<seq<Event>>): seq<Event> {
    if rounds == [] then [] else rounds[0] + Joined(rounds[1..])
  }

  lemma {:induction false} RunInParts(w: World, a: seq<Event>, b: seq<Event>)
    ensures Run(w, a + b) == Run(Run(w, a), b)
  {
    hide Step;
    if b == [] {
      assert a + b == a;
    } else {
      assert (a + b)[..|a + b| - 1] == a + b[..|b| - 1];
      RunInParts(w, a, b[..|b| - 1]);
    }
  }

  lemma ReturnsLater(w: World, a: seq<Event>, b: seq<Event>)
    requires Returned(Run(w, a), b)
    ensures Returned(w, a + b)
  {
    hide Run;
    var k :| 0 <= k <= |b| && Run(Run(w, a), b[..k]).caller == Outside;
    RunInParts(w, a, b[..k]);
    assert (a + b)[..|a| + k] == a + b[..k];
  }

  lemma {:induction false} EnoughRoundsReturn(w: World, rounds: seq<seq<Event>>)
    requires Good(w) && IsStopping(w.caller) && |rounds| > Rank(w)
    requires forall i :: 0 <= i < |rounds| ==> IsRound(rounds[i])
    ensures Returned(w, Joined(rounds))
    decreases |rounds|
  {
    hide Good, Run, Rank, Returned, IsRound;
    var first, rest := rounds[0], rounds[1..];
    RoundBringsNearer(w, first);
    if Returned(w, first) {
      ReturnedStays(w, first, Joined(rest));
    } else {
      EnoughRoundsReturn(Run(w, first), rest);
      ReturnsLater(w, first, Joined(rest));
    }
  }

  lemma {:induction false} EveryRunIsGood(es: seq<Event>)
    ensures Good(Run(INITIAL, es))
  {
    EveryRunKeepsInv(es);
    if es != [] {
      var most := es[..|es| - 1];
      EveryRunIsGood(most);
      hide Inv, LockIsSafe, Step;
      StepKeepsLockSafe(Run(INITIAL, most), es[|es| - 1]);
    }
  }

  /** The main result: in whatever state of whatever run stop is called, it returns as soon as
      both tasks have had a step in each of 29 further rounds, however these are interleaved. */
  lemma StopReturns(es: seq<Event>, rounds: seq<seq<Event>>)
    requires IsStopping(Run(INITIAL, es).caller) && |rounds| >= 29
    requires forall i :: 0 <= i < |rounds| ==> IsRound(rounds[i])
    ensures Returned(Run(INITIAL, es), Joined(rounds))
  {
    EveryRunIsGood(es);
    EnoughRoundsReturn(Run(INITIAL, es), rounds);
  }
}
