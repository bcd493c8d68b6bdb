/** The receive path of the UDP server: batches of zero-copy payloads inside bursts. */
module UdpReceive {
  import opened Common

  const TWO_64: int := 0x1_0000_0000_0000_0000

  /** What one receive call returns: the mapped return value, and whether it handed out a
      payload buffer. Buffers are named by the number of the call. */
  datatype Received = Received(value: int, hasPayload: bool, from: nat)

  /** The results of all receive calls, and what each look at the stop flag finds. */
  datatype Env = Env(receive: nat -> Received, stop: nat -> bool)

  datatype Item = Item(buffer: Option<nat>, length: nat, from: nat)

  datatype Act =
    | Receive(call: nat, blocking: bool)
    | Callback(buffer: nat, length: nat, from: nat)
    | Release(buffer: nat)

  // ------------------------------------------------- what should have happened

  predicate Taken(env: Env, k: nat) { env.receive(k).value > 0 }

  predicate Failed(env: Env, k: nat) { env.receive(k).value < 0 }

  /** The results that the application's callback must see, among the first `n` calls. */
  function Deliveries(env: Env, hasCallback: bool, n: nat): seq<Act> {
    if n == 0 then []
    else
      Deliveries(env, hasCallback, n - 1) +
      if hasCallback && Taken(env, n - 1) && env.receive(n - 1).hasPayload then
        [Callback(n - 1, env.receive(n - 1).value, env.receive(n - 1).from)]
      else []
  }

  function Packets(env: Env, n: nat): nat {
    if n == 0 then 0 else Packets(env, n - 1) + if Taken(env, n - 1) then 1 else 0
  }

  function Errors(env: Env, n: nat): nat {
    if n == 0 then 0 else Errors(env, n - 1) + if Failed(env, n - 1) then 1 else 0
  }

  /** Packets that no callback sees. */
  function Undelivered(env: Env, hasCallback: bool, n: nat): nat {
    if n == 0 then 0
    else
      Undelivered(env, hasCallback, n - 1) +
      if Taken(env, n - 1) && !(hasCallback && env.receive(n - 1).hasPayload) then 1 else 0
  }

  lemma {:induction false} PacketsAreDeliveredOrNot(env: Env, hasCallback: bool, n: nat)
    ensures Packets(env, n) == |Deliveries(env, hasCallback, n)| + Undelivered(env, hasCallback, n)
  {
    if n > 0 {
      PacketsAreDeliveredOrNot(env, hasCallback, n - 1);
    }
  }

  // -------------------------------------------------------- what did happen

  function Callbacks(log: seq<Act>): seq<Act> {
    if log == [] then []
    else
      var a := log[|log| - 1];
      Callbacks(log[..|log| - 1]) + if a.Callback? then [a] else []
  }

  function Releases(log: seq<Act>, k: nat): nat {
    if log == [] then 0
    else Releases(log[..|log| - 1], k) + if log[|log| - 1] == Release(k) then 1 else 0
  }

  function Blocking(log: seq<Act>): nat {
    if log == [] then 0
    else
      var a := log[|log| - 1];
      Blocking(log[..|log| - 1]) + if a.Receive? && a.blocking then 1 else 0
  }

  lemma Appended(log: seq<Act>, a: Act)
    ensures Callbacks(log + [a]) == Callbacks(log) + if a.Callback? then [a] else []
    ensures forall k :: Releases(log + [a], k) == Releases(log, k) + if a == Release(k) then 1 else 0
    ensures Blocking(log + [a]) == Blocking(log) + if a.Receive? && a.blocking then 1 else 0
  {
    assert (log + [a])[..|log|] == log;
  }

  /** Calls up to `done` are dispatched; `stray` is a later call that failed. Every payload of
      these was released once, no other was, and the callbacks saw what they must, in order. */
  ghost predicate Settled(env: Env, hasCallback: bool, log: seq<Act>, done: nat, stray: Option<nat>) {
    && Callbacks(log) == Deliveries(env, hasCallback, done)
    && forall k: nat :: Releases(log, k) ==
         if env.receive(k).hasPayload && (k < done || stray == Some(k)) then 1 else 0
  }

  /** No buffer is shown to the callback after its release. */
  ghost predicate NoUseAfterRelease(log: seq<Act>) {
    forall i, j :: 0 <= i < j < |log| && log[i].Release? && log[j].Callback? ==> log[i].buffer != log[j].buffer
  }

  lemma NotReleasedBefore(log: seq<Act>, k: nat)
    requires Releases(log, k) == 0
    ensures forall i :: 0 <= i < |log| ==> log[i] != Release(k)
  {
    if log != [] {
      NotReleasedBefore(log[..|log| - 1], k);
    }
  }

  lemma StillNoUse(log: seq<Act>, a: Act)
    requires NoUseAfterRelease(log) && (a.Callback? ==> Releases(log, a.buffer) == 0)
    ensures NoUseAfterRelease(log + [a])
  {
    if a.Callback? {
      NotReleasedBefore(log, a.buffer);
    }
  }

  /** Everything the log must say after `done` dispatched calls. */
  ghost predicate Proper(env: Env, hasCallback: bool, log: seq<Act>, done: nat, stray: Option<nat>) {
    Settled(env, hasCallback, log, done, stray) && NoUseAfterRelease(log)
  }

  lemma ReceiveIsProper(env: Env, hasCallback: bool, log: seq<Act>, done: nat, a: Act)
    requires Proper(env, hasCallback, log, done, None) && a.Receive?
    ensures Proper(env, hasCallback, log + [a], done, None)
    ensures Blocking(log + [a]) == Blocking(log) + if a.blocking then 1 else 0
  {
    Appended(log, a);
    StillNoUse(log, a);
  }

  /** What a failed call leaves in the log. */
  function StrayActs(env: Env, k: nat): seq<Act> {
    if env.receive(k).hasPayload then [Release(k)] else []
  }

  lemma StrayIsProper(env: Env, hasCallback: bool, log: seq<Act>, done: nat, k: nat)
    requires Proper(env, hasCallback, log, done, None) && k >= done
    ensures Proper(env, hasCallback, log + StrayActs(env, k), done, Some(k))
    ensures Blocking(log + StrayActs(env, k)) == Blocking(log)
  {
    if env.receive(k).hasPayload {
      Appended(log, Release(k));
      StillNoUse(log, Release(k));
    } else {
      assert log + [] == log;
    }
  }

  /** What the dispatch of a taken packet leaves in the log. */
  function DispatchActs(env: Env, hasCallback: bool, k: nat): seq<Act> {
    var r := env.receive(k);
    if !r.hasPayload || r.value <= 0 then []
    else if hasCallback then [Callback(k, r.value, r.from), Release(k)] else [Release(k)]
  }

  lemma DispatchIsProper(env: Env, hasCallback: bool, log: seq<Act>, k: nat, stray: Option<nat>)
    requires Proper(env, hasCallback, log, k, stray) && Taken(env, k)
    requires stray.Some? ==> stray.value > k
    ensures Proper(env, hasCallback, log + DispatchActs(env, hasCallback, k), k + 1, stray)
    ensures Blocking(log + DispatchActs(env, hasCallback, k)) == Blocking(log)
  {
    var r := env.receive(k);
    if !r.hasPayload {
      assert log + [] == log;
    } else if !hasCallback {
      ReleaseIsProper(env, hasCallback, log, log, k, stray);
    } else {
      var c := Callback(k, r.value, r.from);
      Appended(log, c);
      StillNoUse(log, c);
      ReleaseIsProper(env, hasCallback, log, log + [c], k, stray);
      assert log + [c] + [Release(k)] == log + [c, Release(k)];
    }
  }

  lemma ReleaseIsProper(env: Env, hasCallback: bool, log: seq<Act>, log1: seq<Act>, k: nat, stray: Option<nat>)
    requires Settled(env, hasCallback, log, k, stray) && NoUseAfterRelease(log1)
    requires Callbacks(log1) == Deliveries(env, hasCallback, k + 1)
    requires forall j: nat :: Releases(log1, j) == Releases(log, j)
    requires env.receive(k).hasPayload && (stray.Some? ==> stray.value > k)
    ensures Proper(env, hasCallback, log1 + [Release(k)], k + 1, stray)
    ensures Blocking(log1 + [Release(k)]) == Blocking(log1)
  {
    Appended(log1, Release(k));
    StillNoUse(log1, Release(k));
    hide Callbacks, Releases, Blocking, NoUseAfterRelease, Deliveries;
  }

  ghost predicate AllTaken(env: Env, first: nat, count: nat) {
    forall k: nat :: first <= k < first + count ==> Taken(env, k)
  }

  /** The counters after the dispatch of `done` calls, when `made` calls were made. */
  ghost predicate Counted(env: Env, hasCallback: bool, packets: nat, drops: nat, done: nat, made: nat) {
    && packets == Packets(env, done) % TWO_64
    && drops == (Undelivered(env, hasCallback, done) + Errors(env, made)) % TWO_64
  }

  class Receiver {
    const env: Env
    const depth: nat
    const budget: nat
    const hasCallback: bool
    const batch: array<Item>
    var calls: nat
    var looks: nat
    var packetsTotal: nat
    var dropTotal: nat
    ghost var log: seq<Act>

    /** Between bursts: all calls made so far are settled and counted. */
    ghost predicate Valid()
      reads this
    {
      && batch.Length == depth > 0
      && Proper(env, hasCallback, log, calls, None)
      && Counted(env, hasCallback, packetsTotal, dropTotal, calls, calls)
    }

    constructor (env: Env, depth: nat, budget: nat, hasCallback: bool)
      requires depth > 0
      ensures Valid() && fresh(batch) && calls == 0 && log == []
    {
      this.env, this.depth, this.budget, this.hasCallback := env, depth, budget, hasCallback;
      batch := new Item[depth](_ => Item(None, 0, 0));
      calls, looks, packetsTotal, dropTotal, log := 0, 0, 0, 0, [];
    }

    method StopRequested() returns (stop: bool)
      modifies `looks
      ensures stop == env.stop(old(looks)) && looks == old(looks) + 1
    {
      stop := env.stop(looks);
      looks := looks + 1;
    }

    ghost predicate Holds(first: nat, count: nat)
      reads batch
    {
      && count <= batch.Length && AllTaken(env, first, count)
      && forall j :: 0 <= j < count ==> batch[j] == ItemOf(env, first + j)
    }

    /** The call that ended a batch, if it took nothing. */
    ghost function Stray(done: nat): Option<nat>
      reads `calls
    {
      if calls == done + 1 then Some(done) else None
    }

    method ReceiveBatch(valid: bool, capacity: nat, waitForFirst: bool) returns (count: nat)
      requires Valid() && capacity <= depth
      modifies this, batch
      ensures count <= capacity && Holds(old(calls), count)
      ensures old(calls) + count <= calls <= old(calls) + count + 1
      ensures calls == old(calls) + count + 1 ==> !Taken(env, old(calls) + count)
      ensures valid ==> count == capacity || calls == old(calls) + count + 1
      ensures !valid ==> calls == old(calls)
      ensures Proper(env, hasCallback, log, old(calls), Stray(old(calls) + count))
      ensures Counted(env, hasCallback, packetsTotal, dropTotal, old(calls), calls)
      ensures Blocking(log) == old(Blocking(log)) + if valid && capacity > 0 && waitForFirst then 1 else 0
      ensures looks == old(looks)
    {
      hide Proper, Counted, Blocking;
      count := 0;
      if !valid || capacity == 0 {
        return;
      }
      ghost var first := calls;
      var iterations := 0;
      while iterations < capacity
        invariant count == iterations <= capacity && calls == first + count && looks == old(looks)
        invariant Holds(first, count)
        invariant Proper(env, hasCallback, log, first, None)
        invariant Counted(env, hasCallback, packetsTotal, dropTotal, first, calls)
        invariant Blocking(log) == old(Blocking(log)) + if waitForFirst && count > 0 then 1 else 0
      {
        var call, r := calls, env.receive(calls);
        ghost var act := Receive(call, count == 0 && waitForFirst);
        ReceiveIsProper(env, hasCallback, log, first, act);
        log := log + [act];
        calls := calls + 1;
        if r.value <= 0 {
          StrayIsProper(env, hasCallback, log, first, call);
          ghost var before := log;
          if r.hasPayload {
            log := log + [Release(call)];
          }
          assert log == before + StrayActs(env, call);
          CountError(first, r.value < 0);
          return;
        }
        CountError(first, false);
        batch[count] := Item(if r.hasPayload then Some(call) else None, r.value, r.from);
        count := count + 1;
        iterations := iterations + 1;
      }
    }

    method CountError(ghost done: nat, failed: bool)
      requires calls > 0 && failed == Failed(env, calls - 1)
      requires Counted(env, hasCallback, packetsTotal, dropTotal, done, calls - 1)
      modifies `dropTotal
      ensures Counted(env, hasCallback, packetsTotal, dropTotal, done, calls)
    {
      if failed {
        AddWrapped(Undelivered(env, hasCallback, done) + Errors(env, calls - 1), 1);
        dropTotal := (dropTotal + 1) % TWO_64;
      }
    }

    method Dispatch(ghost k: nat, ghost stray: Option<nat>, item: Item)
      requires Taken(env, k) && item == ItemOf(env, k) && (stray.Some? ==> stray.value > k)
      requires Proper(env, hasCallback, log, k, stray)
      requires dropTotal == (Undelivered(env, hasCallback, k) + Errors(env, calls)) % TWO_64
      modifies `log, `dropTotal
      ensures Proper(env, hasCallback, log, k + 1, stray)
      ensures dropTotal == (Undelivered(env, hasCallback, k + 1) + Errors(env, calls)) % TWO_64
      ensures Blocking(log) == old(Blocking(log))
    {
      hide Proper, Blocking, Errors;
      DispatchIsProper(env, hasCallback, log, k, stray);
      if hasCallback && item.buffer.Some? && item.length > 0 {
        log := log + [Callback(item.buffer.value, item.length, item.from)];
      } else {
        AddWrapped(Undelivered(env, hasCallback, k) + Errors(env, calls), 1);
        dropTotal := (dropTotal + 1) % TWO_64;
      }
      if item.buffer.Some? {
        log := log + [Release(item.buffer.value)];
      }
      assert log == old(log) + DispatchActs(env, hasCallback, k);
    }

    method DispatchBatch(ghost first: nat, count: nat)
      requires Holds(first, count) && first + count <= calls <= first + count + 1
      requires Proper(env, hasCallback, log, first, Stray(first + count))
      requires Counted(env, hasCallback, packetsTotal, dropTotal, first, calls)
      modifies `log, `packetsTotal, `dropTotal
      ensures Proper(env, hasCallback, log, first + count, Stray(first + count))
      ensures Counted(env, hasCallback, packetsTotal, dropTotal, first + count, calls)
      ensures Blocking(log) == old(Blocking(log))
    {
      hide Proper, Blocking, Undelivered, Errors, Packets;
      for i := 0 to count
        invariant Proper(env, hasCallback, log, first + i, Stray(first + count))
        invariant dropTotal == (Undelivered(env, hasCallback, first + i) + Errors(env, calls)) % TWO_64
        invariant packetsTotal == old(packetsTotal)
        invariant Blocking(log) == old(Blocking(log))
      {
        Dispatch(first + i, Stray(first + count), batch[i]);
      }
      PacketsOfBatch(env, first, count);
      AddWrapped(Packets(env, first), count);
      packetsTotal := (packetsTotal + count) % TWO_64;
    }

    /** Nobody asked to stop at any of the looks from `from` to `to`. */
    ghost predicate NotStopped(from: nat, to: int) {
      forall l: nat :: from <= l < to ==> !env.stop(l)
    }

    /** One burst: it waits once, and goes on until it is told to stop, the budget is used up, or a
        call takes nothing. */
    method Burst(valid: bool)
      requires Valid()
      modifies this, batch
      ensures Valid() && calls >= old(calls) && looks >= old(looks)
      ensures !valid ==> calls == old(calls) && looks == old(looks)
      ensures valid ==> looks > old(looks) && NotStopped(old(looks), looks - 1)
      ensures valid ==>
        || env.stop(looks - 1)
        || Packets(env, calls) == Packets(env, old(calls)) + budget
        || (calls > old(calls) && !Taken(env, calls - 1))
      ensures valid && budget > 0 && !env.stop(old(looks)) ==> calls > old(calls)
      ensures Packets(env, calls) - Packets(env, old(calls)) <= budget
      ensures Blocking(log) == old(Blocking(log)) + if valid && budget > 0 && !env.stop(old(looks)) then 1 else 0
    {
      hide Proper, Counted, Blocking, Packets;
      if !valid {
        return;
      }
      var left: nat, waitForFirst := budget, true;
      while true
        invariant Valid() && calls >= old(calls) && looks >= old(looks) && NotStopped(old(looks), looks)
        invariant left <= budget && Packets(env, calls) == Packets(env, old(calls)) + budget - left
        invariant waitForFirst <==> looks == old(looks)
        invariant waitForFirst ==> left == budget && calls == old(calls)
        invariant !waitForFirst ==> budget > 0 && calls > old(calls)
        invariant Blocking(log) == old(Blocking(log)) + if waitForFirst then 0 else 1
        decreases left
      {
        var stop := StopRequested();
        if stop || left == 0 {
          break;
        }
        ghost var first := calls;
        var received := ReceiveBatch(valid, if left > depth then depth else left, waitForFirst);
        PacketsOfBatch(env, first, received);
        if received == 0 {
          SettleStray(env, hasCallback, log, first, packetsTotal, dropTotal, calls);
          break;
        }
        waitForFirst := false;
        left := left - received;
        DispatchBatch(first, received);
        SettleStray(env, hasCallback, log, first + received, packetsTotal, dropTotal, calls);
      }
    }

    /** The task's receive loop, for any number of rounds: whatever the calls return and
        whenever the server is stopped, the books are right after every burst; and it goes round
        until it is told to stop. */
    method ReceiveLoop(rounds: nat, valid: nat -> bool) returns (bursts: nat)
      requires Valid()
      modifies this, batch
      ensures Valid()
      ensures bursts <= rounds && (bursts < rounds ==> !hasCallback || (looks > old(looks) && env.stop(looks - 1)))
      ensures (forall i :: 0 <= i < rounds ==> valid(i)) ==>
        hasCallback && budget > 0 && NotStopped(old(looks), looks) ==> bursts == rounds && calls >= old(calls) + rounds
      ensures Callbacks(log) == Deliveries(env, hasCallback, calls)
      ensures forall k: nat :: Releases(log, k) == if k < calls && env.receive(k).hasPayload then 1 else 0
      ensures NoUseAfterRelease(log)
      ensures packetsTotal == (|Callbacks(log)| + Undelivered(env, hasCallback, calls)) % TWO_64
      ensures dropTotal == (Undelivered(env, hasCallback, calls) + Errors(env, calls)) % TWO_64
      ensures Blocking(log) <= old(Blocking(log)) + bursts
    {
      hide Blocking, Callbacks, Releases, NoUseAfterRelease, Proper, Counted;
      bursts := 0;
      while bursts < rounds
        invariant bursts <= rounds && Valid() && looks >= old(looks) && Blocking(log) <= old(Blocking(log)) + bursts
        invariant budget > 0 && NotStopped(old(looks), looks) && (forall i :: 0 <= i < rounds ==> valid(i)) ==>
          calls >= old(calls) + bursts
      {
        var stop := StopRequested();
        if stop || !hasCallback {
          break;
        }
        Burst(valid(bursts));
        bursts := bursts + 1;
      }
      Books(env, hasCallback, log, packetsTotal, dropTotal, calls);
    }
  }

  lemma Books(env: Env, hasCallback: bool, log: seq<Act>, packets: nat, drops: nat, calls: nat)
    requires Proper(env, hasCallback, log, calls, None) && Counted(env, hasCallback, packets, drops, calls, calls)
    ensures Callbacks(log) == Deliveries(env, hasCallback, calls)
    ensures forall k: nat :: Releases(log, k) == if k < calls && env.receive(k).hasPayload then 1 else 0
    ensures NoUseAfterRelease(log)
    ensures packets == (|Callbacks(log)| + Undelivered(env, hasCallback, calls)) % TWO_64
    ensures drops == (Undelivered(env, hasCallback, calls) + Errors(env, calls)) % TWO_64
  {
    hide Callbacks, Releases, NoUseAfterRelease;
    PacketsAreDeliveredOrNot(env, hasCallback, calls);
  }

  lemma {:induction false} PacketsOfBatch(env: Env, first: nat, count: nat)
    requires AllTaken(env, first, count)
    ensures Packets(env, first + count) == Packets(env, first) + count
  {
    if count > 0 {
      PacketsOfBatch(env, first, count - 1);
      assert Taken(env, first + count - 1);
    }
  }

  /** A call that took nothing is settled once its payload, if any, is released. */
  lemma SettleStray(env: Env, hasCallback: bool, log: seq<Act>, done: nat, packets: nat, drops: nat, calls: nat)
    requires done <= calls <= done + 1
    requires Proper(env, hasCallback, log, done, if calls == done + 1 then Some(done) else None)
    requires Counted(env, hasCallback, packets, drops, done, calls)
    requires calls == done + 1 ==> !Taken(env, done)
    ensures Proper(env, hasCallback, log, calls, None)
    ensures Counted(env, hasCallback, packets, drops, calls, calls)
    ensures Packets(env, calls) == Packets(env, done)
  {
  }

  lemma AddWrapped(a: nat, b: nat)
    ensures (a % TWO_64 + b) % TWO_64 == (a + b) % TWO_64
  {
  }

  function ItemOf(env: Env, k: nat): Item {
    var r := env.receive(k);
    Item(if r.hasPayload then Some(k) else None, if r.value > 0 then r.value else 0, r.from)
  }
}
