/** A UDP server with a callback, once started and until it is told to stop, comes to receive. */
module UdpServe {
  import opened Common
  import opened UdpLifecycle
  import opened UdpStop

  /** The network, the memory and the scheduler grant what is asked. */
  predicate Grants(c: Choice) {
    c.networkUp && c.lockOk && c.socket.Sock? && c.timeoutsOk && c.bindOk && c.goOn
  }

  /** Nobody asks the server to stop, and its own steps succeed. */
  predicate Kind(e: Event) {
    match e
    case TaskStep(c) => Grants(c)
    case CallerStep(stop, _, _) => !stop
    case TaskLeaves => true
  }

  /** How many steps the task is from receiving. */
  function Distance(pc: TaskPc): Option<nat> {
    match pc
    case Receive => Some(0)
    case BurstHead => Some(1)
    case LookSocket => Some(2)
    case GiveLock => Some(3)
    case ReadSocket => Some(4)
    case TakeLock => Some(5)
    case LoopHead => Some(6)
    case LookIdle => Some(7)
    case LookInitialized => Some(8)
    case Bind => Some(9)
    case SetTimeouts => Some(10)
    case CreateSocket => Some(11)
    case CreateLock => Some(12)
    case LookStop => Some(13)
    case WaitNetwork => Some(14)
    case _ => None
  }

  /** A started server with a callback that is still being set up, or is initialized. */
  predicate OnTheWay(w: World) {
    && w.caller == Running && w.ctx.callback && Distance(w.task).Some?
    && (w.ctx.initialized <==> Distance(w.task).value <= 8)
  }

  lemma TaskComesNearer(w: World, c: Choice)
    requires Good(w) && OnTheWay(w) && w.task != Receive && Grants(c)
    ensures OnTheWay(TaskAct(w, c)) && Distance(TaskAct(w, c).task) == Some(Distance(w.task).value - 1)
  {
    hide Balanced;
    if w.task == TakeLock {
      NobodyHasLock(w);
    }
    if SettingUp(w.task) {
      SetUpComesNearer(w, c);
      hide SetUp, OnTheWay, Distance, LockIsSafe, Fits;
    } else {
      ServeComesNearer(w, c);
      hide Serve, OnTheWay, Distance, LockIsSafe, Fits;
    }
  }

  lemma NobodyHasLock(w: World)
    requires LockIsSafe(w) && w.caller == Running && w.task == TakeLock
    ensures w.holder.None?
  {
    if w.holder.Some? {
      match w.holder.value
      case Server =>
      case Caller =>
    }
  }

  lemma SetUpComesNearer(w: World, c: Choice)
    requires Fits(w) && OnTheWay(w) && SettingUp(w.task) && Grants(c)
    ensures OnTheWay(SetUp(w, c)) && Distance(SetUp(w, c).task) == Some(Distance(w.task).value - 1)
  {
  }

  lemma ServeComesNearer(w: World, c: Choice)
    requires Fits(w) && OnTheWay(w) && !SettingUp(w.task) && w.task != Receive && Grants(c)
    requires w.task == TakeLock ==> w.holder.None?
    ensures OnTheWay(Serve(w, c)) && Distance(Serve(w, c).task) == Some(Distance(w.task).value - 1)
  {
  }

  lemma OthersChangeNothing(w: World, e: Event)
    requires OnTheWay(w) && Kind(e) && !e.TaskStep?
    ensures Step(w, e) == w.(leaving := Step(w, e).leaving)
  {
  }

  function TaskSteps(es: seq<Event>): nat {
    if es == [] then 0 else TaskSteps(es[..|es| - 1]) + if es[|es| - 1].TaskStep? then 1 else 0
  }

  ghost predicate Receives(w: World, es: seq<Event>) {
    exists k :: 0 <= k <= |es| && ReceivesAt(w, es, k)
  }

  /** After `k` steps the task is about to receive, on an open socket. */
  ghost predicate ReceivesAt(w: World, es: seq<Event>, k: nat)
    requires k <= |es|
  {
    Run(w, es[..k]).task == Receive && IsOpen(Run(w, es[..k]), Run(w, es[..k]).local)
  }

  lemma ReceivingIsLegal(w: World)
    requires Inv(w) && w.task == Receive
    ensures IsOpen(w, w.local)
  {
  }

  lemma StillReceives(w: World, es: seq<Event>)
    requires es != [] && Receives(w, es[..|es| - 1])
    ensures Receives(w, es)
  {
    hide Run;
    var most := es[..|es| - 1];
    var k :| 0 <= k <= |most| && ReceivesAt(w, most, k);
    assert most[..k] == es[..k];
    assert ReceivesAt(w, es, k);
  }

  lemma {:induction false} ComesNearer(w: World, es: seq<Event>)
    requires Good(w) && OnTheWay(w) && forall i :: 0 <= i < |es| ==> Kind(es[i])
    ensures Receives(w, es) || (
      && Good(Run(w, es)) && OnTheWay(Run(w, es))
      && Distance(Run(w, es).task).value + TaskSteps(es) == Distance(w.task).value)
  {
    hide Step, Good, OnTheWay, Distance, Receives;
    if es != [] {
      var most, e := es[..|es| - 1], es[|es| - 1];
      ComesNearer(w, most);
      if Receives(w, most) {
        StillReceives(w, es);
      } else if Run(w, most).task == Receive {
        ReceivesThen(w, most);
        StillReceives(w, es);
      } else {
        OneKindStep(Run(w, most), e);
      }
    }
  }

  lemma ReceivesThen(w: World, es: seq<Event>)
    requires Good(Run(w, es)) && Run(w, es).task == Receive
    ensures Receives(w, es)
  {
    hide Run;
    assert es[..|es|] == es;
    ReceivingIsLegal(Run(w, es));
    assert ReceivesAt(w, es, |es|);
  }

  lemma OneKindStep(w: World, e: Event)
    requires Good(w) && OnTheWay(w) && w.task != Receive && Kind(e)
    ensures Good(Step(w, e)) && OnTheWay(Step(w, e))
    ensures Distance(Step(w, e).task).value + (if e.TaskStep? then 1 else 0) == Distance(w.task).value
  {
    StepKeepsInv(w, e);
    StepKeepsLockSafe(w, e);
    if e.TaskStep? {
      TaskComesNearer(w, e.c);
      hide Inv, LockIsSafe, TaskAct, OnTheWay, Distance;
    } else {
      OthersChangeNothing(w, e);
      hide Inv, LockIsSafe, Step;
    }
  }

  /** From any state on the way, after as many steps of the task as it is away, however the other
      events fall between them, the server receives on an open socket. */
  lemma ServerReceives(w: World, es: seq<Event>)
    requires Good(w) && OnTheWay(w) && forall i :: 0 <= i < |es| ==> Kind(es[i])
    requires TaskSteps(es) >= Distance(w.task).value
    ensures Receives(w, es)
  {
    hide Run, Good, OnTheWay, Receives, TaskSteps;
    ComesNearer(w, es);
    if !Receives(w, es) {
      assert Distance(Run(w, es).task) == Some(0) by { SomeDistance(Run(w, es)); }
      ReceivesThen(w, es);
    }
  }

  lemma SomeDistance(w: World)
    requires OnTheWay(w)
    ensures Distance(w.task).Some?
  {
  }

  // A server that is started with a callback is on the way, fourteen steps from receiving.
  lemma StartedIsOnTheWay(w: World)
    requires Good(w) && w.caller == Outside
    ensures var e := CallerStep(false, true, true);
      var w' := Step(Step(w, e), e);
      Good(w') && OnTheWay(w') && Distance(w'.task) == Some(14)
  {
    var e := CallerStep(false, true, true);
    StepKeepsInv(w, e);
    StepKeepsLockSafe(w, e);
    StepKeepsInv(Step(w, e), e);
    StepKeepsLockSafe(Step(w, e), e);
    hide Inv, LockIsSafe;
  }

  // And after every receive it takes one step of the task to the next, as long as nobody stops it.
  lemma ReceivesAgain(w: World, c: Choice, es: seq<Event>)
    requires Good(w) && w.caller == Running && w.ctx.callback && w.ctx.initialized && w.task == Receive
    requires TaskSteps(es) >= 1 && forall i :: 0 <= i < |es| ==> Kind(es[i])
    ensures Receives(Step(w, TaskStep(c)), es)
  {
    var e := TaskStep(c);
    StepKeepsInv(w, e);
    StepKeepsLockSafe(w, e);
    hide Run, TaskSteps, Inv, LockIsSafe, Receives;
    ServerReceives(Step(w, e), es);
  }

  // ------------------------------------------------------------- without a callback

  /** A started server without a callback is being set up, or idles. */
  predicate Idles(w: World) {
    && w.caller == Running && !w.ctx.callback && w.ctx.task
    && (SettingUp(w.task) || w.task == LookIdle || w.task == Idle)
  }

  /** Whatever else happens, it idles until somebody asks it to stop. */
  lemma {:induction false} WithoutCallbackIdles(w: World, es: seq<Event>)
    requires Good(w) && Idles(w) && forall i :: 0 <= i < |es| && es[i].CallerStep? ==> !es[i].stop
    ensures Good(Run(w, es)) && Idles(Run(w, es))
  {
    hide Step, Good, Idles;
    if es != [] {
      WithoutCallbackIdles(w, es[..|es| - 1]);
      IdlesOn(Run(w, es[..|es| - 1]), es[|es| - 1]);
    }
  }

  lemma IdlesOn(w: World, e: Event)
    requires Good(w) && Idles(w) && (e.CallerStep? ==> !e.stop)
    ensures Good(Step(w, e)) && Idles(Step(w, e))
  {
    StepKeepsInv(w, e);
    StepKeepsLockSafe(w, e);
    hide Inv, LockIsSafe;
    match e
    case TaskStep(c) => TaskIdlesOn(w, c);
    case CallerStep(_, _, _) =>
    case TaskLeaves =>
  }

  lemma TaskIdlesOn(w: World, c: Choice)
    requires Fits(w) && Idles(w)
    ensures Idles(TaskAct(w, c))
  {
    hide CallerFits;
    assert !w.ctx.stopRequested by { RunningIsNotStopped(w); }
    if SettingUp(w.task) {
      hide Serve, TaskFits;
    } else {
      hide SetUp, TaskFits;
    }
  }

  lemma RunningIsNotStopped(w: World)
    requires Fits(w) && w.caller == Running
    ensures !w.ctx.stopRequested
  {
  }
}
