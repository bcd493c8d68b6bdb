/** The course of a lease outside the exchange of offer and acknowledgement: the first discover,
    the renewal, a refusal, an application that declines, and a wait without an answer. */
module Dhcpv4Course {
  import opened Common
  import opened BitCursor
  import opened Dhcpv4Options
  import opened Dhcpv4Terms
  import opened Dhcpv4Machine
  import opened Dhcpv4Lease
  import opened Dhcpv4BackOff
  import SharedSocket

  /** Both the end-point and the event that drives it are in the given state. */
  ghost predicate At(net: Net, i: nat, s: State) {
    Valid(net) && i < |net.eps| && net.eps[i].state == net.eps[i].expected == s
  }

  // ---------------------------------------------------------------- the start

  /** Two steps, each with the state it is expected in: the end-point is set up, then it is heard of. */
  function Started(cfg: Config, net: Net, i: nat, setUp: Env, first: Env): (net': Net)
    requires |net.sockets.holders| == |net.eps|
    ensures |net'.sockets.holders| == |net'.eps| == |net.eps|
  {
    var ready := Step(cfg, Step(cfg, net, Cycle(i, false, false, setUp)), Expect(i, FirstDiscover));
    Step(cfg, Step(cfg, ready, Cycle(i, false, false, first)), Expect(i, WaitingOffer))
  }

  lemma SetUpGivesShare(cfg: Config, net: Net, i: nat, env: Env)
    requires At(net, i, InitialWait) && Working(env)
    ensures var net' := Step(cfg, Step(cfg, net, Cycle(i, false, false, env)), Expect(i, FirstDiscover));
      && At(net', i, FirstDiscover) && net'.sockets.holders[i].Some? && net'.log == net.log
      && net'.eps[i] == net.eps[i].(state := FirstDiscover, expected := FirstDiscover, xid := env.random.value,
                                    useBroadcast := false, offered := 0, txPeriod := cfg.initialPeriod,
                                    terms := net.eps[i].terms.(server := 0))
  {
    hide SharedSocket.Create, SharedSocket.Close, SharedSocket.Balanced, React;
    SharedSocket.CreateKeepsBalanced(net.sockets, i, true, true);
    assert net.log + [] == net.log;
  }

  /** A client that can work opens its socket, takes the random number as its transaction, sends one
      discover, and waits for an offer. */
  lemma StartSendsDiscover(cfg: Config, net: Net, i: nat, setUp: Env, first: Env)
    requires At(net, i, InitialWait) && Working(setUp) && first.hook == Continue && first.sendOk
    ensures var net' := Started(cfg, net, i, setUp, first);
      && WaitsForOffer(net', i) && net'.log == net.log + [Discover(i)]
      && net'.eps[i].xid == setUp.random.value && net'.eps[i].mac == net.eps[i].mac
      && net'.eps[i].ip == 0 && net'.eps[i].txTime == first.tick && net'.eps[i].txPeriod == cfg.initialPeriod
  {
    SetUpGivesShare(cfg, net, i, setUp);
    var ready := Step(cfg, Step(cfg, net, Cycle(i, false, false, setUp)), Expect(i, FirstDiscover));
    hide SharedSocket.Create, SharedSocket.Close, SharedSocket.Balanced, OfferStep, AckStep;
    assert Step(cfg, ready, Cycle(i, false, false, first)) ==
      Finish(ready, i, ready.sockets, FirstDiscoverStep(ready.eps[i], i, true, first));
  }

  // -------------------------------------------------------------- the renewal

  /** When the lease is to be renewed the client takes a new transaction and its share of the socket,
      and asks the same server for the same address. */
  lemma RenewalAsksAgain(cfg: Config, net: Net, i: nat, env: Env)
    requires At(net, i, Leased) && Working(env) && env.isUp
    ensures
      var net' := Step(cfg, Step(cfg, net, Cycle(i, false, false, env)), Expect(i, WaitingAck));
      var ep := net.eps[i];
      && net'.log == net.log + [Request(i, ep.offered, ep.terms.server)]
      && WaitsForAck(net', i, ep.(xid := env.random.value), ep.terms.server, ep.terms)
      && net'.eps[i].ip == ep.ip && net'.eps[i].txPeriod == cfg.initialPeriod
  {
    hide SharedSocket.Create, SharedSocket.Close, SharedSocket.Balanced, React;
    SharedSocket.CreateKeepsBalanced(net.sockets, i, true, true);
    var sockets := SharedSocket.Create(net.sockets, i, true, true);
    assert Step(cfg, net, Cycle(i, false, false, env)) == Finish(net, i, sockets, RenewStep(cfg, net.eps[i], i, env));
  }

  /** And the server's acknowledgement renews the lease, on its terms. */
  lemma {:induction false} RenewedByAck(cfg: Config, net: Net, i: nat, env: Env, others: seq<Event>, ack: Env)
    requires At(net, i, Leased) && Working(env) && env.isUp && ack.datagram.Some?
    requires forall n :: 0 <= n < |others| ==> others[n].i != i
    requires Answers(net.eps[i].(xid := env.random.value), ack.datagram.value, ACK, net.eps[i].terms.server)
    ensures
      var asked := Step(cfg, Step(cfg, net, Cycle(i, false, false, env)), Expect(i, WaitingAck));
      SettledBy(cfg, Step(cfg, Run(cfg, asked, others), Cycle(i, false, true, ack)).eps[i], net.eps[i].terms,
                ack.datagram.value)
  {
    hide Answers, Run, Step, SettledBy;
    RenewalAsksAgain(cfg, net, i, env);
    var asked := Step(cfg, Step(cfg, net, Cycle(i, false, false, env)), Expect(i, WaitingAck));
    OthersRun(cfg, asked, others, i);
    var ep := net.eps[i];
    AckIsTaken(cfg, Run(cfg, asked, others), i, ep.(xid := env.random.value), ack, ep.terms.server, ep.terms);
  }

  // -------------------------------------------------------------- the refusal

  /** The first message type that the client reads is a refusal (6). */
  ghost predicate Refuses(items: seq<Item>) {
    exists k :: RefusesAt(items, k)
  }

  ghost predicate RefusesAt(items: seq<Item>, k: int) {
    0 <= k < |items| && items[k].code == 53 && items[k].first == 6 && forall j :: 0 <= j < k ==> items[j].code != 53
  }

  lemma {:induction false} RefusalIsSeen(cfg: Config, p: Progress, items: seq<Item>, k: int)
    requires RefusesAt(items, k)
    ensures Process(cfg, 5, p, items).terms.refused
    decreases items
  {
    if k > 0 {
      assert items[0].code != 53;
      assert RefusesAt(items[1..], k - 1);
      RefusalIsSeen(cfg, Handled(cfg, 5, p, items[0]), items[1..], k - 1);
    }
  }

  /** A refusal addressed to an end-point that waits for its acknowledgement makes it start over,
      unless options before it had already passed for an acknowledgement. */
  lemma RefusalStartsOver(cfg: Config, ep: EndPoint, d: Bytes)
    requires Addressed(ep, d) && Refuses(Options(d)) && !EnoughGood(Options(d), 5, ep.terms.server)
    ensures forall env: Env :: env.datagram == Some(d) ==>
      var r := AckStep(cfg, ep, true, env);
      !r.release && !r.giveUp && r.notes == [] && r.ep.state == r.ep.expected == InitialWait
  {
    var k :| RefusesAt(Options(d), k);
    var p := Progress(ep.terms.(refused := false), 0);
    RefusalIsSeen(cfg, p, Options(d), k);
    PassesExactly(cfg, 5, p, Options(d));
    hide Process, EnoughGood, Addressed, Options;
  }

  // ------------------------------------------------------------ declined by hook

  /** What the application answers when asked: defaults, or no change but the address. */
  ghost predicate GivenUp(ep: EndPoint, was: EndPoint, hook: Answer) {
    && ep.state == NotUsingLeased && ep.ip == was.defaults.ip
    && (hook == UseDefaults ==>
          && ep.terms.netMask == was.defaults.netMask && ep.terms.gateway == was.defaults.gateway
          && ep.terms.dns == was.defaults.dns && ep.broadcast == was.defaults.broadcast)
    && (hook == StopNoChanges ==> ep.terms == was.terms && ep.broadcast == was.broadcast)
  }

  /** An application that declines the first discover gets its defaults, nothing is sent, and the
      end-point's share of the socket is returned. */
  lemma DeclinedIsGivenUp(cfg: Config, net: Net, i: nat, env: Env)
    requires At(net, i, FirstDiscover) && env.hook != Continue
    ensures var net' := Step(cfg, net, Cycle(i, false, false, env));
      GivenUp(net'.eps[i], net.eps[i], env.hook) && net'.log == net.log && net'.sockets.holders[i] == None
  {
    hide SharedSocket.Create, SharedSocket.Balanced, SharedSocket.Close, OfferStep, AckStep;
    SharedSocket.CloseKeepsBalanced(net.sockets, i);
    assert net.log + [] == net.log;
  }

  // ------------------------------------------------------- no acknowledgement

  function Requests(log: seq<Note>, i: nat): nat {
    if log == [] then 0
    else
      var n := log[|log| - 1];
      Requests(log[..|log| - 1], i) + if n.Request? && n.from == i then 1 else 0
  }

  lemma {:induction false} RequestsOfSum(log: seq<Note>, notes: seq<Note>, i: nat)
    ensures Requests(log + notes, i) == Requests(log, i) + Requests(notes, i)
  {
    if notes == [] {
      assert log + notes == log;
    } else {
      var most := notes[..|notes| - 1];
      assert (log + notes)[..|log + notes| - 1] == log + most;
      RequestsOfSum(log, most, i);
    }
  }

  /** Where an end-point is that has repeated its request `n` times, after `due` time-outs: it waits,
      or it starts over. */
  ghost predicate Asking(cfg: Config, net: Net, i: nat, n: int, due: nat)
    requires i < |net.eps|
  {
    var ep := net.eps[i];
    && n >= 0 && Within(cfg, n)
    && (|| (ep.state == WaitingAck && ep.txPeriod == Shifted(cfg.initialPeriod, n) && due == n)
        || (&& ep.state == ep.expected == InitialWait && due == n + 1
            && Shifted(cfg.initialPeriod, n + 1) > cfg.maximumPeriod))
  }

  /** The event is a timer event of the end-point after its period. */
  predicate TimesOut(net: Net, e: Event, i: nat)
    requires i < |net.eps|
  {
    e.Cycle? && e.i == i && net.eps[i].state == net.eps[i].expected && TimedOut(net.eps[i], e.env.tick)
  }

  function TimeOuts(cfg: Config, net: Net, es: seq<Event>, i: nat): nat
    requires |net.sockets.holders| == |net.eps| && i < |net.eps|
  {
    if es == [] then 0
    else
      var most := es[..|es| - 1];
      TimeOuts(cfg, net, most, i) + if TimesOut(Run(cfg, net, most), es[|es| - 1], i) then 1 else 0
  }

  lemma OneRequest(log: seq<Note>, i: nat, address: UInt32, server: UInt32)
    ensures Requests(log + [Request(i, address, server)], i) == Requests(log, i) + 1
  {
    RequestsOfSum(log, [Request(i, address, server)], i);
    assert [Request(i, address, server)][..0] == [];
  }

  lemma WithinOneMore(cfg: Config, n: nat)
    requires Within(cfg, n) && Shifted(cfg.initialPeriod, n + 1) <= cfg.maximumPeriod
    ensures Within(cfg, n + 1)
  {
  }

  lemma NextPeriod(period: UInt32, n: nat)
    ensures Shifted(period, n + 1) == Doubled(Shifted(period, n))
  {
  }

  // An event of the end-point itself.
  lemma OwnEventAsks(cfg: Config, net: Net, e: Event, n: int, due: nat)
    requires Valid(net) && e.i < |net.eps| && Quiet(e, e.i) && net.sockets.holders[e.i].Some?
    requires net.eps[e.i].state == WaitingAck && Asking(cfg, net, e.i, n, due)
    ensures var net' := Step(cfg, net, e);
      && Asking(cfg, net', e.i, n + Requests(net'.log, e.i) - Requests(net.log, e.i),
                due + if TimesOut(net, e, e.i) then 1 else 0)
      && net'.sockets == net.sockets
  {
    hide Within, SharedSocket.Create, SharedSocket.Close, SharedSocket.Balanced, OfferStep, AckStep, Requests, Shifted;
    var ep := net.eps[e.i];
    assert net.log + [] == net.log;
    OneRequest(net.log, e.i, ep.offered, ep.terms.server);
    NextPeriod(cfg.initialPeriod, n);
    if Doubled(ep.txPeriod) <= cfg.maximumPeriod {
      WithinOneMore(cfg, n);
    }
  }

  lemma NotMine(log: seq<Note>, notes: seq<Note>, i: nat)
    requires |notes| <= 2 && forall k :: 0 <= k < |notes| ==> !(notes[k].Request? && notes[k].from == i)
    ensures Requests(log + notes, i) == Requests(log, i)
  {
    RequestsOfSum(log, notes, i);
    if |notes| > 0 {
      assert Requests(notes[..|notes| - 1], i) == 0;
    }
  }

  lemma OthersSendNoRequest(cfg: Config, net: Net, e: Event, i: nat)
    requires |net.sockets.holders| == |net.eps| && e.i != i
    ensures Requests(Step(cfg, net, e).log, i) == Requests(net.log, i)
  {
    hide SharedSocket.Create, SharedSocket.Close, Examine, InitialiseStep, Requests;
    if e.Cycle? && e.i < |net.eps| && (e.reset || net.eps[e.i].state == net.eps[e.i].expected) {
      assert net.log + [] == net.log;
      var ep := if e.reset then net.eps[e.i].(state := InitialWait) else net.eps[e.i];
      var has := net.sockets.holders[e.i].Some?;
      NotMine(net.log, React(cfg, ep, e.i, has, e.check, e.env).notes, i);
      NotMine(net.log, RenewStep(cfg, ep, e.i, e.env).notes, i);
    }
  }

  lemma EventAsks(cfg: Config, net: Net, e: Event, i: nat, n: int, due: nat)
    requires Valid(net) && i < |net.eps| && Quiet(e, i) && net.sockets.holders[i].Some?
    requires net.eps[i].state == WaitingAck && Asking(cfg, net, i, n, due)
    ensures var net' := Step(cfg, net, e);
      && Asking(cfg, net', i, n + Requests(net'.log, i) - Requests(net.log, i),
                due + if TimesOut(net, e, i) then 1 else 0)
      && net'.sockets.holders[i].Some?
  {
    hide SharedSocket.Balanced, Requests, Step, Within, Shifted;
    if e.i == i {
      OwnEventAsks(cfg, net, e, n, due);
    } else {
      OthersUntouched(cfg, net, e, i);
      OthersSendNoRequest(cfg, net, e, i);
      OthersKeepSocket(cfg, net, e, i);
    }
  }

  /** The end-point has waited for its acknowledgement through the whole run but its last event. */
  ghost predicate AskingRun(cfg: Config, net: Net, es: seq<Event>, i: nat) {
    && Valid(net) && i < |net.eps| && net.sockets.holders[i].Some?
    && net.eps[i].state == WaitingAck && net.eps[i].txPeriod == cfg.initialPeriod
    && (forall k :: 0 <= k < |es| ==> Quiet(es[k], i))
    && (forall k :: 0 <= k < |es| ==> Run(cfg, net, es[..k]).eps[i].state == WaitingAck)
  }

  lemma AskingBefore(cfg: Config, net: Net, es: seq<Event>, i: nat)
    requires es != [] && AskingRun(cfg, net, es, i)
    ensures AskingRun(cfg, net, es[..|es| - 1], i)
    ensures Run(cfg, net, es[..|es| - 1]).eps[i].state == WaitingAck && Quiet(es[|es| - 1], i)
  {
    hide Run, Quiet, Valid;
    var most := es[..|es| - 1];
    assert forall k :: 0 <= k < |most| ==> most[..k] == es[..k];
  }

  lemma {:induction false} AskingInEveryRun(cfg: Config, net: Net, es: seq<Event>, i: nat)
    requires AskingRun(cfg, net, es, i)
    ensures var now := Run(cfg, net, es);
      && Asking(cfg, now, i, Requests(now.log, i) - Requests(net.log, i), TimeOuts(cfg, net, es, i))
      && now.sockets.holders[i].Some?
  {
    hide *;
    AskingBasics(cfg, net, es, i);
    if es == [] {
      AskingAtFirst(cfg, net, i);
    } else {
      AskingBefore(cfg, net, es, i);
      var most, e := es[..|es| - 1], es[|es| - 1];
      AskingInEveryRun(cfg, net, most, i);
      RunKeepsValid(cfg, net, most);
      LastEvent(cfg, net, es, i);
      var now := Run(cfg, net, most);
      EventAsks(cfg, now, e, i, Requests(now.log, i) - Requests(net.log, i), TimeOuts(cfg, net, most, i));
    }
  }

  lemma AskingBasics(cfg: Config, net: Net, es: seq<Event>, i: nat)
    requires AskingRun(cfg, net, es, i)
    ensures Valid(net) && |net.sockets.holders| == |net.eps| && i < |net.eps|
  {
  }

  lemma AskingAtFirst(cfg: Config, net: Net, i: nat)
    requires AskingRun(cfg, net, [], i)
    ensures Asking(cfg, net, i, 0, 0) && Run(cfg, net, []) == net && TimeOuts(cfg, net, [], i) == 0
    ensures net.sockets.holders[i].Some?
  {
    WithinNone(cfg);
  }

  lemma LastEvent(cfg: Config, net: Net, es: seq<Event>, i: nat)
    requires |net.sockets.holders| == |net.eps| && i < |net.eps| && es != []
    ensures var most, e := es[..|es| - 1], es[|es| - 1];
      && Run(cfg, net, es) == Step(cfg, Run(cfg, net, most), e)
      && TimeOuts(cfg, net, es, i) ==
           TimeOuts(cfg, net, most, i) + if TimesOut(Run(cfg, net, most), e, i) then 1 else 0
  {
    hide Step, TimesOut;
  }

  /** Waiting for an acknowledgement that never comes: each time-out repeats the request and doubles
      the period, until a doubling exceeds the maximum; then, and only then, the client starts over. */
  lemma StartsOverIff(cfg: Config, net: Net, es: seq<Event>, i: nat)
    requires AskingRun(cfg, net, es, i)
    ensures var now, outs := Run(cfg, net, es), TimeOuts(cfg, net, es, i);
      var repeated := Requests(now.log, i) - Requests(net.log, i);
      && (now.eps[i].state == WaitingAck || now.eps[i].state == now.eps[i].expected == InitialWait)
      && (now.eps[i].state == InitialWait <==> outs > 0 && Shifted(cfg.initialPeriod, outs) > cfg.maximumPeriod)
      && repeated == if now.eps[i].state == InitialWait then outs - 1 else outs
  {
    hide Requests, TimeOuts, Run, AskingRun;
    AskingInEveryRun(cfg, net, es, i);
  }
}
