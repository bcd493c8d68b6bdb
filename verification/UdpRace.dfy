/** What a stop can run into while the UDP server is still being set up: the lock or the socket
    that it has just seen may be gone when it uses them. When exactly that can happen. */
module UdpRace {
  import opened Common
  import opened UdpLifecycle
  import opened UdpStop

  /** The stop that is under way, or has not begun, has not returned. */
  ghost predicate Pending(w: World, es: seq<Event>) {
    forall k :: 0 <= k <= |es| ==> Run(w, es[..k]).caller != Outside
  }

  ghost predicate CanMissLock(w: World) {
    exists es :: Pending(w, es) && LockMissed(Run(w, es))
  }

  ghost predicate CanMissSocket(w: World) {
    exists es :: Pending(w, es) && SocketMissed(Run(w, es))
  }

  /** The socket is yet to be made, or can still be closed by the task. */
  predicate SocketAtRisk(pc: TaskPc) {
    match pc
    case WaitNetwork | LookStop | CreateLock | CreateSocket | SetTimeouts | Bind => true
    case CloseSocket | ForgetSocket => true
    case _ => false
  }

  predicate IsServing(pc: CallerPc) { pc != Outside && pc != CreateTask }

  // An initialized server stays so until stop clears the context.
  lemma InitializedStays(w: World, e: Event)
    requires Inv(w) && w.ctx.initialized && w.caller != EndClear
    ensures Step(w, e).ctx.initialized
  {
    hide Balanced;
  }

  // And then stop finds lock and socket in place.
  lemma InitializedStopIsLegal(es: seq<Event>)
    ensures
      var w := Run(INITIAL, es);
      w.ctx.initialized ==> !LockMissed(w) && !SocketMissed(w)
  {
    EveryRunKeepsInv(es);
    hide Run;
  }

  // ------------------------------------------------------- states without risk

  predicate LockIsSettled(w: World) {
    && (w.ctx.initialized || (!SettingUp(w.task) && w.ctx.lock.None?))
    && (w.caller == StopTakeLock || w.caller == StopGiveLock ==> w.ctx.initialized)
  }

  predicate SocketIsSettled(w: World) {
    && (w.ctx.initialized || (!SocketAtRisk(w.task) && !w.ctx.socket.Sock?))
    && (w.caller == StopSetTimeout ==> w.ctx.initialized)
  }

  lemma TaskKeepsLock(w: World, c: Choice)
    requires LockIsSettled(w)
    ensures LockIsSettled(TaskAct(w, c))
  {
  }

  lemma TaskKeepsSocket(w: World, c: Choice)
    requires SocketIsSettled(w)
    ensures SocketIsSettled(TaskAct(w, c))
  {
  }

  lemma TaskLeavesCaller(w: World, c: Choice)
    ensures TaskAct(w, c).caller == w.caller
  {
  }

  lemma CallerKeepsLock(w: World, stop: bool, callback: bool, createOk: bool)
    requires IsServing(w.caller) && LockIsSettled(w)
    ensures
      var w' := CallerAct(w, stop, callback, createOk);
      w'.caller != Outside ==> LockIsSettled(w')
  {
  }

  lemma CallerKeepsSocket(w: World, stop: bool, callback: bool, createOk: bool)
    requires IsServing(w.caller) && SocketIsSettled(w)
    ensures
      var w' := CallerAct(w, stop, callback, createOk);
      w'.caller != Outside ==> SocketIsSettled(w')
  {
  }

  lemma CallerServes(w: World, stop: bool, callback: bool, createOk: bool)
    requires IsServing(w.caller)
    ensures
      var w' := CallerAct(w, stop, callback, createOk);
      w'.caller != Outside ==> IsServing(w'.caller)
  {
  }

  lemma EventKeepsSettled(w: World, e: Event)
    requires Inv(w) && IsServing(w.caller) && Step(w, e).caller != Outside
    ensures var w' := Step(w, e);
      && Inv(w') && IsServing(w'.caller)
      && (LockIsSettled(w) ==> LockIsSettled(w'))
      && (SocketIsSettled(w) ==> SocketIsSettled(w'))
  {
    StepKeepsInv(w, e);
    hide Inv, LockIsSettled, SocketIsSettled, TaskAct, CallerAct;
    match e
    case TaskStep(c) =>
      TaskLeavesCaller(w, c);
      if LockIsSettled(w) {
        TaskKeepsLock(w, c);
      }
      if SocketIsSettled(w) {
        TaskKeepsSocket(w, c);
      }
    case CallerStep(stop, callback, createOk) =>
      CallerServes(w, stop, callback, createOk);
      if LockIsSettled(w) {
        CallerKeepsLock(w, stop, callback, createOk);
      }
      if SocketIsSettled(w) {
        CallerKeepsSocket(w, stop, callback, createOk);
      }
    case TaskLeaves => LeavingKeepsSettled(w, Step(w, e));
  }

  lemma SettledIsLegal(w: World)
    requires Inv(w)
    ensures LockIsSettled(w) ==> !LockMissed(w)
    ensures SocketIsSettled(w) ==> !SocketMissed(w)
  {
  }

  lemma {:induction false} StaysSettled(w: World, es: seq<Event>)
    requires Inv(w) && IsServing(w.caller) && Pending(w, es)
    ensures var w' := Run(w, es);
      && Inv(w') && IsServing(w'.caller)
      && (LockIsSettled(w) ==> LockIsSettled(w'))
      && (SocketIsSettled(w) ==> SocketIsSettled(w'))
  {
    hide Inv, LockIsSettled, SocketIsSettled, Step;
    if es != [] {
      var most, e := es[..|es| - 1], es[|es| - 1];
      assert forall k :: 0 <= k <= |most| ==> most[..k] == es[..k];
      StaysSettled(w, most);
      assert es[..|es|] == es && Run(w, es[..|es|]).caller != Outside;
      EventKeepsSettled(Run(w, most), e);
    }
  }

  lemma LeavingKeepsSettled(w: World, w': World)
    requires Same(w, w')
    ensures LockIsSettled(w') == LockIsSettled(w) && SocketIsSettled(w') == SocketIsSettled(w)
  {
  }

  // --------------------------------------------------------- states with risk

  lemma Prepend(w: World, e: Event)
    requires w.caller != Outside
    ensures CanMissLock(Step(w, e)) ==> CanMissLock(w)
    ensures CanMissSocket(Step(w, e)) ==> CanMissSocket(w)
  {
    if CanMissLock(Step(w, e)) {
      var es :| Pending(Step(w, e), es) && LockMissed(Run(Step(w, e), es));
      PendingPrepend(w, e, es);
      assert LockMissed(Run(w, [e] + es));
    }
    if CanMissSocket(Step(w, e)) {
      var es :| Pending(Step(w, e), es) && SocketMissed(Run(Step(w, e), es));
      PendingPrepend(w, e, es);
      assert SocketMissed(Run(w, [e] + es));
    }
  }

  lemma PendingPrepend(w: World, e: Event, es: seq<Event>)
    requires w.caller != Outside && Pending(Step(w, e), es)
    ensures Pending(w, [e] + es) && Run(w, [e] + es) == Run(Step(w, e), es)
  {
    FirstStep(w, e, es);
    var all := [e] + es;
    forall k | 0 <= k <= |all|
      ensures Run(w, all[..k]).caller != Outside
    {
      if k > 0 {
        assert all[..k] == [e] + es[..k - 1];
        FirstStep(w, e, es[..k - 1]);
      } else {
        assert all[..k] == [];
      }
    }
  }

  lemma FirstStep(w: World, e: Event, es: seq<Event>)
    ensures Run(w, [e] + es) == Run(Step(w, e), es)
  {
    hide Step;
    RunInParts(w, [e], es);
    OneStep(w, [], e);
    assert [] + [e] == [e];
  }

  lemma AtOnce(w: World)
    requires w.caller != Outside
    ensures LockMissed(w) ==> CanMissLock(w)
    ensures SocketMissed(w) ==> CanMissSocket(w)
  {
    assert Run(w, []) == w;
    assert Pending(w, []);
  }

  const STOP := CallerStep(true, false, false)
  /** The set-up fails: with no socket, or with one that is closed again. */
  const NO_SOCKET := TaskStep(Choice(true, true, Invalid, false, false, false))
  const BAD_SOCKET := TaskStep(Choice(true, true, Sock(0), false, false, false))

  lemma NoSocketStep(w: World)
    requires Inv(w) && w.caller == Running && SettingUp(w.task) && !w.ctx.initialized && w.task != ForgetLock
    ensures var w' := Step(w, NO_SOCKET);
      && Inv(w') && w'.caller == Running && SettingUp(w'.task) && !w'.ctx.initialized
      && TaskRank(w'.task) < TaskRank(w.task)
  {
    StepKeepsInv(w, NO_SOCKET);
    hide Balanced;
  }

  lemma BadSocketStep(w: World)
    requires Good(w) && w.caller == Running && SocketAtRisk(w.task) && w.task != ForgetSocket
    ensures var w' := Step(w, BAD_SOCKET);
      && Good(w') && w'.caller == Running && SocketAtRisk(w'.task)
      && TaskRank(w'.task) < TaskRank(w.task)
  {
    StepKeepsInv(w, BAD_SOCKET);
    StepKeepsLockSafe(w, BAD_SOCKET);
    hide Balanced, LockIsSafe;
  }

  lemma {:induction false} SetUpCanMissLock(w: World)
    requires Inv(w) && w.caller == Running && SettingUp(w.task) && !w.ctx.initialized
    ensures CanMissLock(w)
    decreases TaskRank(w.task)
  {
    hide CanMissLock, CanMissSocket, Step;
    if w.task == ForgetLock {
      StopMeetsNoLock(w);
      AtOnce(Step(Step(w, STOP), STOP));
      Prepend(Step(w, STOP), STOP);
      Prepend(w, STOP);
    } else {
      NoSocketStep(w);
      SetUpCanMissLock(Step(w, NO_SOCKET));
      Prepend(w, NO_SOCKET);
    }
  }

  lemma StopMeetsNoLock(w: World)
    requires Inv(w) && w.caller == Running && w.task == ForgetLock
    ensures Step(w, STOP).caller != Outside && Step(Step(w, STOP), STOP).caller != Outside
    ensures LockMissed(Step(Step(w, STOP), STOP))
  {
    hide Balanced;
  }

  lemma {:induction false} SetUpCanMissSocket(w: World)
    requires Good(w) && w.caller == Running && SocketAtRisk(w.task)
    ensures CanMissSocket(w)
    decreases TaskRank(w.task)
  {
    hide CanMissLock, CanMissSocket, Step, Good;
    if w.task == ForgetSocket {
      var w1 := Step(w, STOP);
      var w2 := Step(w1, STOP);
      var w3 := Step(w2, STOP);
      StopMeetsNoSocket(w);
      AtOnce(Step(w3, STOP));
      Prepend(w3, STOP);
      Prepend(w2, STOP);
      Prepend(w1, STOP);
      Prepend(w, STOP);
    } else {
      BadSocketStep(w);
      SetUpCanMissSocket(Step(w, BAD_SOCKET));
      Prepend(w, BAD_SOCKET);
    }
  }

  lemma StopMeetsNoSocket(w: World)
    requires Good(w) && w.caller == Running && w.task == ForgetSocket
    ensures var w1 := Step(w, STOP);
      var w2 := Step(w1, STOP);
      var w3 := Step(w2, STOP);
      var w4 := Step(w3, STOP);
      && w1.caller != Outside && w2.caller != Outside && w3.caller != Outside && w4.caller != Outside
      && SocketMissed(w4)
  {
    assert w.holder != Some(Server) && w.holder != Some(Caller);
    var w1 := Step(w, STOP);
    assert w1 == w.(ctx := w.ctx.(stopRequested := true), caller := StopLookLock);
    var w2 := Step(w1, STOP);
    assert w2 == w1.(caller := StopTakeLock);
    var w3 := Step(w2, STOP);
    assert w3.caller == StopLookSocket && w3.ctx == w2.ctx && w3.closed == w.closed && w3.made == w.made by {
      assert w.holder.None? by {
        if w.holder.Some? {
          match w.holder.value
          case Server =>
          case Caller =>
        }
      }
    }
  }

  // ------------------------------------------------------------ main results

  /** Exactly while the server is being set up and not yet initialized, a stop called now can come
      to take or give a lock that does not exist. */
  lemma StopMissesLockIff(es: seq<Event>)
    requires Run(INITIAL, es).caller == Running
    ensures var w := Run(INITIAL, es);
      CanMissLock(w) <==> SettingUp(w.task) && !w.ctx.initialized
  {
    EveryRunKeepsInv(es);
    var w := Run(INITIAL, es);
    hide Run;
    if SettingUp(w.task) && !w.ctx.initialized {
      SetUpCanMissLock(w);
    } else {
      assert LockIsSettled(w) by { hide Balanced; }
      hide Inv, LockIsSettled;
      if CanMissLock(w) {
        var more :| Pending(w, more) && LockMissed(Run(w, more));
        StaysSettled(w, more);
        SettledIsLegal(Run(w, more));
      }
    }
  }

  /** Exactly until its socket is closed for good or initialized, a stop called now can come to
      set the time-out of a socket that is not open. */
  lemma StopMissesSocketIff(es: seq<Event>)
    requires Run(INITIAL, es).caller == Running
    ensures var w := Run(INITIAL, es);
      CanMissSocket(w) <==> SocketAtRisk(w.task)
  {
    EveryRunIsGood(es);
    var w := Run(INITIAL, es);
    hide Run;
    if SocketAtRisk(w.task) {
      SetUpCanMissSocket(w);
    } else {
      assert SocketIsSettled(w) by { hide Balanced; }
      hide Inv, SocketIsSettled;
      if CanMissSocket(w) {
        var more :| Pending(w, more) && SocketMissed(Run(w, more));
        StaysSettled(w, more);
        SettledIsLegal(Run(w, more));
      }
    }
  }

  // -------------------------------------------------------- a concrete run

  const START := CallerStep(false, true, true)

  /** Start, a set-up without a socket up to the point where its lock is deleted, and a stop. */
  const RACE: seq<Event> :=
    [START, START] + [NO_SOCKET, NO_SOCKET] + [NO_SOCKET, NO_SOCKET] + [NO_SOCKET, NO_SOCKET] + [STOP, STOP]

  lemma TwoSteps(w: World, a: Event, b: Event)
    ensures Run(w, [a, b]) == Step(Step(w, a), b)
  {
    hide Step;
    OneStep(w, [], a);
    OneStep(w, [a], b);
    assert [] + [a] == [a] && [a] + [b] == [a, b];
  }

  lemma TwoMore(w: World, es: seq<Event>, a: Event, b: Event)
    ensures Run(w, es + [a, b]) == Step(Step(Run(w, es), a), b)
  {
    hide Step;
    RunInParts(w, es, [a, b]);
    TwoSteps(Run(w, es), a, b);
  }

  lemma FirstSteps(w: World)
    requires w.task == WaitNetwork && !w.ctx.stopRequested
    ensures Step(Step(w, NO_SOCKET), NO_SOCKET) == w.(task := CreateLock)
  {
  }

  lemma FailingSteps(w: World)
    requires w.task == CreateLock
    ensures Step(Step(w, NO_SOCKET), NO_SOCKET) ==
      w.(ctx := w.ctx.(lock := Some(w.locksMade), socket := Invalid), locksMade := w.locksMade + 1,
         task := LookInitialized)
  {
  }

  lemma DeletingSteps(w: World)
    requires w.task == LookInitialized && !w.ctx.initialized && w.ctx.lock.Some?
    ensures Step(Step(w, NO_SOCKET), NO_SOCKET) ==
      w.(deleted := w.deleted + [w.ctx.lock.value], holder := None, task := ForgetLock)
  {
  }

  lemma StoppingSteps(w: World)
    requires w.caller == Running && w.ctx.lock.Some?
    ensures Step(Step(w, STOP), STOP) == w.(ctx := w.ctx.(stopRequested := true), caller := StopTakeLock)
  {
  }

  lemma StartingSteps()
    ensures Step(Step(INITIAL, START), START) ==
      INITIAL.(ctx := ZERO.(task := true, callback := true), task := WaitNetwork, caller := Running)
  {
  }

  lemma RaceMissesLock()
    ensures LockMissed(Run(INITIAL, RACE))
  {
    hide Step;
    var e2 := [START, START];
    var e4 := e2 + [NO_SOCKET, NO_SOCKET];
    var e6 := e4 + [NO_SOCKET, NO_SOCKET];
    var e8 := e6 + [NO_SOCKET, NO_SOCKET];
    TwoSteps(INITIAL, START, START);
    StartingSteps();
    TwoMore(INITIAL, e2, NO_SOCKET, NO_SOCKET);
    FirstSteps(Run(INITIAL, e2));
    TwoMore(INITIAL, e4, NO_SOCKET, NO_SOCKET);
    FailingSteps(Run(INITIAL, e4));
    TwoMore(INITIAL, e6, NO_SOCKET, NO_SOCKET);
    DeletingSteps(Run(INITIAL, e6));
    TwoMore(INITIAL, e8, STOP, STOP);
    StoppingSteps(Run(INITIAL, e8));
    hide Run;
  }
}
