/** The start and stop protocol of the UDP server: the server task and the task of the one
    caller of start and stop, interleaved access by access to the shared context. */
module UdpLifecycle {
  import opened Common

  datatype Handle = Null | Invalid | Sock(id: nat)

  datatype Context = Context(
    lock: Option<nat>, socket: Handle, task: bool, initialized: bool, stopRequested: bool, callback: bool)

  const ZERO := Context(None, Null, false, false, false, false)

  /** Where the server task is: the next thing it will do. */
  datatype TaskPc =
    | Absent
    | WaitNetwork | LookStop | CreateLock | CreateSocket | SetTimeouts | Bind
    | CloseSocket | ForgetSocket | LookInitialized | DeleteLock | ForgetLock
    | LookIdle | Idle
    | LoopHead | TakeLock | ReadSocket | GiveLock | LookSocket | BurstHead | Receive
    | ForgetTask

  /** Where the caller is; up to `Running` it starts, after it stops. */
  datatype CallerPc =
    | Outside
    | CreateTask | Running
    | StopLookLock | StopTakeLock | StopLookSocket | StopSetTimeout | StopLookGive | StopGiveLock | StopWait
    | EndTakeLock | EndLookSocket | EndForgetSocket | EndGiveLock | EndLookLock | EndClear

  datatype Who = Server | Caller

  /** `made` and `closed` count and list the sockets, `locksMade` and `deleted` the locks;
      `holder` has the lock; `local` is the task's copy of the socket; `leaving` counts tasks
      that no longer use the context but were not yet removed by the scheduler. */
  datatype World = World(
    ctx: Context, task: TaskPc, caller: CallerPc, local: Handle, holder: Option<Who>, leaving: nat,
    made: nat, closed: seq<nat>, locksMade: nat, deleted: seq<nat>)

  const INITIAL := World(ZERO, Absent, Outside, Null, None, 0, 0, [], 0, [])

  /** What the network, the memory and the scheduler decide. */
  datatype Choice = Choice(
    networkUp: bool, lockOk: bool, socket: Handle, timeoutsOk: bool, bindOk: bool, goOn: bool)

  datatype Event =
    | TaskStep(c: Choice)
    | CallerStep(stop: bool, callback: bool, createOk: bool)
    | TaskLeaves

  function TakenBy(w: World, who: Who, l: nat): World {
    if l in w.deleted then w else w.(holder := Some(who))
  }

  function Given(w: World, who: Who): World {
    if w.ctx.lock.Some? && w.holder == Some(who) then w.(holder := None) else w
  }

  predicate LockIsFree(w: World, l: nat) { l in w.deleted || w.holder.None? }

  /** The task sets the server up. */
  function SetUp(w: World, c: Choice): World {
    var ctx := w.ctx;
    match w.task
    case WaitNetwork => if c.networkUp || ctx.stopRequested then w.(task := LookStop) else w
    case LookStop => w.(task := if ctx.stopRequested then LookIdle else CreateLock)
    case CreateLock =>
      if c.lockOk then
        w.(ctx := ctx.(lock := Some(w.locksMade)), locksMade := w.locksMade + 1, task := CreateSocket)
      else w.(ctx := ctx.(lock := None), task := LookIdle)
    case CreateSocket =>
      if c.socket.Sock? then
        w.(ctx := ctx.(socket := Sock(w.made)), made := w.made + 1, task := SetTimeouts)
      else w.(ctx := ctx.(socket := c.socket), task := LookInitialized)
    case SetTimeouts => w.(task := if c.timeoutsOk then Bind else CloseSocket)
    case Bind =>
      if c.bindOk then w.(ctx := ctx.(initialized := true), task := LookInitialized)
      else w.(task := CloseSocket)
    case CloseSocket =>
      if ctx.socket.Sock? then w.(closed := w.closed + [ctx.socket.id], task := ForgetSocket)
      else w.(task := ForgetSocket)
    case ForgetSocket => w.(ctx := ctx.(socket := Invalid), task := LookInitialized)
    case LookInitialized => w.(task := if ctx.initialized then LookIdle else DeleteLock)
    case DeleteLock =>
      if ctx.lock.Some? then w.(deleted := w.deleted + [ctx.lock.value], holder := None, task := ForgetLock)
      else w.(task := ForgetLock)
    case ForgetLock => w.(ctx := ctx.(lock := None), task := LookIdle)
    case _ => w
  }

  /** The task serves until it is told to stop. */
  function Serve(w: World, c: Choice): World {
    var ctx := w.ctx;
    match w.task
    case LookIdle => w.(task := if !ctx.stopRequested && !ctx.callback then Idle else LoopHead)
    case Idle => if ctx.stopRequested then w.(task := LoopHead) else w
    case LoopHead => w.(task := if !ctx.stopRequested && ctx.callback then TakeLock else ForgetTask)
    case TakeLock =>
      if ctx.lock.None? then w.(task := ReadSocket)
      else if LockIsFree(w, ctx.lock.value) then TakenBy(w, Server, ctx.lock.value).(task := ReadSocket)
      else w
    case ReadSocket => w.(local := ctx.socket, task := GiveLock)
    case GiveLock => Given(w, Server).(task := LookSocket)
    case LookSocket => w.(task := if w.local.Sock? then BurstHead else LoopHead)
    case BurstHead => w.(task := if !ctx.stopRequested && c.goOn then Receive else LoopHead)
    case Receive => w.(task := BurstHead)
    case ForgetTask => w.(ctx := ctx.(task := false), task := Absent, leaving := w.leaving + 1)
    case _ => w
  }

  predicate SettingUp(pc: TaskPc) {
    match pc
    case WaitNetwork | LookStop | CreateLock | CreateSocket | SetTimeouts | Bind => true
    case CloseSocket | ForgetSocket | LookInitialized | DeleteLock | ForgetLock => true
    case _ => false
  }

  function TaskAct(w: World, c: Choice): World {
    if SettingUp(w.task) then SetUp(w, c) else Serve(w, c)
  }

  /** The caller starts the server, or asks it to stop and waits. */
  function StartOrStop(w: World, stop: bool, callback: bool, createOk: bool): World {
    var ctx := w.ctx;
    match w.caller
    case Outside =>
      if stop then w.(ctx := ctx.(stopRequested := true), caller := StopLookLock)
      else w.(ctx := ZERO.(callback := callback), caller := CreateTask)
    case CreateTask =>
      if createOk then w.(ctx := ctx.(task := true), task := WaitNetwork, caller := Running)
      else w.(ctx := ZERO, caller := Outside)
    case Running =>
      if stop then w.(ctx := ctx.(stopRequested := true), caller := StopLookLock) else w
    case StopLookLock => w.(caller := if ctx.lock.Some? then StopTakeLock else StopLookSocket)
    case StopTakeLock =>
      if ctx.lock.None? then w.(caller := StopLookSocket)
      else if LockIsFree(w, ctx.lock.value) then TakenBy(w, Caller, ctx.lock.value).(caller := StopLookSocket)
      else w
    case StopLookSocket => w.(caller := if ctx.socket.Sock? then StopSetTimeout else StopLookGive)
    case StopSetTimeout => w.(caller := StopLookGive)
    case StopLookGive => w.(caller := if ctx.lock.Some? then StopGiveLock else StopWait)
    case StopGiveLock => Given(w, Caller).(caller := StopWait)
    case StopWait => if ctx.task then w else w.(caller := EndTakeLock)
    case _ => w
  }

  /** The caller cleans up after the task is gone. */
  function CleanUp(w: World): World {
    var ctx := w.ctx;
    match w.caller
    case EndTakeLock =>
      if ctx.lock.None? then w.(caller := EndLookSocket)
      else if LockIsFree(w, ctx.lock.value) then TakenBy(w, Caller, ctx.lock.value).(caller := EndLookSocket)
      else w
    case EndLookSocket =>
      if ctx.socket.Sock? then w.(closed := w.closed + [ctx.socket.id], caller := EndForgetSocket)
      else w.(caller := EndGiveLock)
    case EndForgetSocket => w.(ctx := ctx.(socket := Invalid), caller := EndGiveLock)
    case EndGiveLock => Given(w, Caller).(caller := EndLookLock)
    case EndLookLock =>
      if ctx.lock.Some? then w.(deleted := w.deleted + [ctx.lock.value], holder := None, caller := EndClear)
      else w.(caller := EndClear)
    case EndClear => w.(ctx := ZERO, caller := Outside)
    case _ => w
  }

  predicate CleaningUp(pc: CallerPc) {
    match pc
    case EndTakeLock | EndLookSocket | EndForgetSocket | EndGiveLock | EndLookLock | EndClear => true
    case _ => false
  }

  function CallerAct(w: World, stop: bool, callback: bool, createOk: bool): World {
    if CleaningUp(w.caller) then CleanUp(w) else StartOrStop(w, stop, callback, createOk)
  }

  function Step(w: World, e: Event): World {
    match e
    case TaskStep(c) => TaskAct(w, c)
    case CallerStep(stop, callback, createOk) => CallerAct(w, stop, callback, createOk)
    case TaskLeaves => if w.leaving > 0 then w.(leaving := w.leaving - 1) else w
  }

  function Run(w: World, es: seq<Event>): World {
    if es == [] then w else Step(Run(w, es[..|es| - 1]), es[|es| - 1])
  }

  // ------------------------------------------------------------- what is legal

  predicate IsOpen(w: World, h: Handle) { h.Sock? && h.id < w.made && h.id !in w.closed }

  predicate LockExists(w: World, l: nat) { l < w.locksMade && l !in w.deleted }

  /** Before it waits for the task, stop reads the lock and the socket and then uses them, with
      a second read: the lock to take and to give, the socket to shorten its time-out. It may
      find a lock or a socket that is gone. */
  predicate LockMissed(w: World) {
    (w.caller == StopTakeLock || w.caller == StopGiveLock) &&
    (w.ctx.lock.None? || !LockExists(w, w.ctx.lock.value))
  }

  predicate SocketMissed(w: World) { w.caller == StopSetTimeout && !IsOpen(w, w.ctx.socket) }

  /** The next step of the task closes or receives on an open socket only, deletes and takes an
      existing lock only, and uses the context only while no stop has returned. */
  predicate TaskIsLegal(w: World) {
    && (w.task == Receive ==> IsOpen(w, w.local))
    && (w.task == CloseSocket ==> IsOpen(w, w.ctx.socket))
    && (w.task == DeleteLock ==> w.ctx.lock.Some? && LockExists(w, w.ctx.lock.value))
    && (w.task == TakeLock && w.ctx.lock.Some? ==> LockExists(w, w.ctx.lock.value))
    && (w.task != Absent ==> w.caller != Outside && w.caller != CreateTask)
  }

  /** The final part of stop closes, takes and deletes only what exists, and is alone. */
  predicate CallerIsLegal(w: World) {
    && (w.caller == EndLookSocket && w.ctx.socket.Sock? ==> IsOpen(w, w.ctx.socket))
    && (w.caller == EndTakeLock && w.ctx.lock.Some? ==> LockExists(w, w.ctx.lock.value))
    && (w.caller == EndLookLock && w.ctx.lock.Some? ==> LockExists(w, w.ctx.lock.value))
  }

  /** Every number below `n` is in the list, exactly once. */
  ghost predicate ExactlyOnce(xs: seq<nat>, n: nat) {
    Distinct(xs) && forall k: nat :: k < n <==> k in xs
  }

  // -------------------------------------------------------------- the invariant

  /** The socket in the context, unless it was closed and not yet forgotten. */
  function LiveSocket(w: World): Option<nat> {
    if w.ctx.socket.Sock? && w.task != ForgetSocket && w.caller != EndForgetSocket
    then Some(w.ctx.socket.id) else None
  }

  function LiveLock(w: World): Option<nat> {
    if w.task != ForgetLock && w.caller != EndClear then w.ctx.lock else None
  }

  /** All numbers below `n` are used up, once each, except possibly the live one. */
  ghost predicate Accounted(xs: seq<nat>, n: nat, live: Option<nat>) {
    && Distinct(xs)
    && (forall k: nat :: k < n <==> k in xs || live == Some(k))
    && (live.Some? ==> live.value !in xs)
  }

  /** Nothing is half done: a server is initialized or has neither socket nor lock. */
  predicate Settled(ctx: Context) {
    (ctx.initialized <==> ctx.socket.Sock?) && (ctx.initialized <==> ctx.lock.Some?)
  }

  predicate TaskFits(w: World) {
    var ctx := w.ctx;
    match w.task
    case Absent => true
    case WaitNetwork | LookStop | CreateLock => ctx.lock.None? && ctx.socket.Null? && !ctx.initialized
    case CreateSocket => ctx.lock.Some? && ctx.socket.Null? && !ctx.initialized
    case SetTimeouts | Bind | CloseSocket | ForgetSocket =>
      ctx.lock.Some? && ctx.socket.Sock? && !ctx.initialized
    case LookInitialized => ctx.lock.Some? && (ctx.initialized <==> ctx.socket.Sock?)
    case DeleteLock => ctx.lock.Some? && !ctx.socket.Sock? && !ctx.initialized
    case ForgetLock =>
      ctx.lock.Some? && ctx.lock.value in w.deleted && !ctx.socket.Sock? && !ctx.initialized
    case LookIdle | Idle | LoopHead | TakeLock | ReadSocket | ForgetTask => Settled(ctx)
    case GiveLock | LookSocket => Settled(ctx) && w.local == ctx.socket
    case BurstHead | Receive => Settled(ctx) && w.local == ctx.socket && ctx.socket.Sock?
  }

  predicate CallerFits(w: World) {
    var ctx := w.ctx;
    match w.caller
    case Outside => w.task == Absent && ctx == ZERO
    case CreateTask => w.task == Absent && ctx == ZERO.(callback := ctx.callback)
    case EndTakeLock | EndLookSocket => w.task == Absent && Settled(ctx)
    case EndForgetSocket => w.task == Absent && ctx.socket.Sock?
    case EndGiveLock | EndLookLock | EndClear => w.task == Absent && !ctx.socket.Sock?
    case Running => !ctx.stopRequested && (w.task == Absent ==> Settled(ctx))
    case _ => w.task == Absent ==> Settled(ctx)
  }

  ghost predicate Inv(w: World) {
    Fits(w) && Balanced(w)
  }

  lemma OneMore(xs: seq<nat>, n: nat)
    requires Accounted(xs, n, None)
    ensures Accounted(xs, n + 1, Some(n))
  {
  }

  lemma UsedUp(xs: seq<nat>, n: nat, live: nat)
    requires Accounted(xs, n, Some(live))
    ensures Accounted(xs + [live], n, None)
  {
  }

  predicate Fits(w: World) {
    (w.ctx.task <==> w.task != Absent) && TaskFits(w) && CallerFits(w)
  }

  lemma SetUpFits(w: World, c: Choice)
    requires Inv(w) && SettingUp(w.task)
    ensures Fits(SetUp(w, c))
  {
    SetUpFitsTask(w, c);
    SetUpFitsCaller(w, c);
    hide TaskFits, CallerFits, SetUp, Balanced;
  }

  lemma SetUpFitsTask(w: World, c: Choice)
    requires Fits(w) && SettingUp(w.task)
    ensures var w' := SetUp(w, c); (w'.ctx.task <==> w'.task != Absent) && TaskFits(w')
  {
    hide CallerFits;
  }

  lemma SetUpFitsCaller(w: World, c: Choice)
    requires Fits(w) && SettingUp(w.task)
    ensures CallerFits(SetUp(w, c))
  {
  }

  lemma ServeFits(w: World, c: Choice)
    requires Inv(w) && !SettingUp(w.task)
    ensures Fits(Serve(w, c))
  {
    hide Accounted, LiveSocket, LiveLock, Balanced;
  }

  lemma StartOrStopFits(w: World, stop: bool, callback: bool, createOk: bool)
    requires Inv(w) && !CleaningUp(w.caller)
    ensures Fits(StartOrStop(w, stop, callback, createOk))
  {
    hide Balanced;
    StartOrStopKeepsTask(w, stop, callback, createOk);
    StartOrStopKeepsCaller(w, stop, callback, createOk);
    hide StartOrStop, TaskFits, CallerFits;
  }

  lemma StartOrStopKeepsTask(w: World, stop: bool, callback: bool, createOk: bool)
    requires Fits(w) && !CleaningUp(w.caller)
    ensures var w' := StartOrStop(w, stop, callback, createOk);
      TaskFits(w') && (w'.ctx.task <==> w'.task != Absent)
  {
    if w.caller != Outside && w.caller != CreateTask {
      FitsIfSame(w, StartOrStop(w, stop, callback, createOk));
      hide TaskFits, CallerFits;
    }
  }

  lemma FitsIfSame(w: World, w': World)
    requires w'.task == w.task && w'.local == w.local && w'.deleted == w.deleted
    requires w'.ctx.lock == w.ctx.lock && w'.ctx.socket == w.ctx.socket && w'.ctx.initialized == w.ctx.initialized
    ensures TaskFits(w') == TaskFits(w)
  {
  }

  lemma StartOrStopKeepsCaller(w: World, stop: bool, callback: bool, createOk: bool)
    requires Fits(w) && !CleaningUp(w.caller)
    ensures CallerFits(StartOrStop(w, stop, callback, createOk))
  {
  }

  lemma CleanUpFits(w: World)
    requires Inv(w) && CleaningUp(w.caller)
    ensures Fits(CleanUp(w))
  {
    hide Accounted, LiveSocket, LiveLock;
  }

  ghost predicate Balanced(w: World) {
    && Accounted(w.closed, w.made, LiveSocket(w))
    && Accounted(w.deleted, w.locksMade, LiveLock(w))
  }

  lemma SetUpBalances(w: World, c: Choice)
    requires Inv(w) && SettingUp(w.task)
    ensures Balanced(SetUp(w, c))
  {
    SetUpCountsSockets(w, c);
    SetUpCountsLocks(w, c);
    hide SetUp, Accounted, Fits;
  }

  lemma SetUpCountsSockets(w: World, c: Choice)
    requires Inv(w) && SettingUp(w.task)
    ensures var w' := SetUp(w, c); Accounted(w'.closed, w'.made, LiveSocket(w'))
  {
    hide Accounted, LiveLock;
    if w.task == CreateSocket {
      OneMore(w.closed, w.made);
    } else if w.task == CloseSocket {
      UsedUp(w.closed, w.made, w.ctx.socket.id);
    }
  }

  lemma SetUpCountsLocks(w: World, c: Choice)
    requires Inv(w) && SettingUp(w.task)
    ensures var w' := SetUp(w, c); Accounted(w'.deleted, w'.locksMade, LiveLock(w'))
  {
    hide Accounted, LiveSocket;
    if w.task == CreateLock {
      OneMore(w.deleted, w.locksMade);
    } else if w.task == DeleteLock {
      UsedUp(w.deleted, w.locksMade, w.ctx.lock.value);
    }
  }

  lemma ServeBalances(w: World, c: Choice)
    requires Inv(w) && !SettingUp(w.task)
    ensures Balanced(Serve(w, c))
  {
    hide Accounted, TaskFits, CallerFits;
  }

  lemma StartOrStopBalances(w: World, stop: bool, callback: bool, createOk: bool)
    requires Inv(w) && !CleaningUp(w.caller)
    ensures Balanced(StartOrStop(w, stop, callback, createOk))
  {
    hide Accounted, TaskFits;
    if w.caller != Outside && w.caller != CreateTask {
      BalancedIfSame(w, StartOrStop(w, stop, callback, createOk));
      hide Balanced, CallerFits;
    }
  }

  lemma BalancedIfSame(w: World, w': World)
    requires w'.ctx.lock == w.ctx.lock && w'.ctx.socket == w.ctx.socket && w'.task == w.task
    requires w'.closed == w.closed && w'.made == w.made && w'.deleted == w.deleted && w'.locksMade == w.locksMade
    requires w.caller != EndForgetSocket && w'.caller != EndForgetSocket
    requires w.caller != EndClear && w'.caller != EndClear
    ensures Balanced(w') == Balanced(w)
  {
    hide Accounted;
  }

  lemma CleanUpBalances(w: World)
    requires Inv(w) && CleaningUp(w.caller)
    ensures Balanced(CleanUp(w))
  {
    hide Accounted, TaskFits;
    if w.caller == EndLookSocket && w.ctx.socket.Sock? {
      UsedUp(w.closed, w.made, w.ctx.socket.id);
    }
    if w.caller == EndLookLock && w.ctx.lock.Some? {
      UsedUp(w.deleted, w.locksMade, w.ctx.lock.value);
    }
  }

  lemma StepKeepsInv(w: World, e: Event)
    requires Inv(w)
    ensures Inv(Step(w, e))
  {
    hide Accounted, SetUp, Serve, StartOrStop, CleanUp;
    match e
    case TaskStep(c) =>
      if SettingUp(w.task) {
        SetUpFits(w, c);
        SetUpBalances(w, c);
      } else {
        ServeFits(w, c);
        ServeBalances(w, c);
      }
    case CallerStep(stop, callback, createOk) =>
      if CleaningUp(w.caller) {
        CleanUpFits(w);
        CleanUpBalances(w);
      } else {
        StartOrStopFits(w, stop, callback, createOk);
        StartOrStopBalances(w, stop, callback, createOk);
      }
    case TaskLeaves =>
  }

  lemma InitialInv()
    ensures Inv(INITIAL)
  {
  }

  lemma {:induction false} EveryRunKeepsInv(es: seq<Event>)
    ensures Inv(Run(INITIAL, es))
  {
    hide Inv, Step;
    if es == [] {
      InitialInv();
    } else {
      EveryRunKeepsInv(es[..|es| - 1]);
      StepKeepsInv(Run(INITIAL, es[..|es| - 1]), es[|es| - 1]);
    }
  }

  /** The main result, for every interleaving: the task receives on and closes open sockets only,
      uses the context only while no stop has returned, and whenever stop has returned every
      socket ever made was closed once and every lock ever made was deleted once. */
  lemma EveryRunIsLegal(es: seq<Event>)
    ensures
      var w := Run(INITIAL, es);
      && TaskIsLegal(w) && CallerIsLegal(w)
      && Distinct(w.closed) && Distinct(w.deleted)
      && (w.caller == Outside ==> ExactlyOnce(w.closed, w.made) && ExactlyOnce(w.deleted, w.locksMade))
  {
    EveryRunKeepsInv(es);
    hide Run;
  }

  lemma {:induction false} OneStep(w: World, es: seq<Event>, e: Event)
    ensures Run(w, es + [e]) == Step(Run(w, es), e)
  {
    hide Step;
    assert (es + [e])[..|es|] == es;
  }
}
