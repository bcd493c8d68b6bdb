/** Waiting for an offer that never comes: the doubling back-off, and how it ends. */
module Dhcpv4BackOff {
  import opened Common
  import opened Dhcpv4Options
  import opened Dhcpv4Machine
  import Dhcpv4Lease
  import SharedSocket

  /** The period after `k` doublings of a 32-bit number. */
  function Shifted(period: UInt32, k: nat): UInt32 {
    if k == 0 then period else Doubled(Shifted(period, k - 1))
  }

  /** None of the first `k` doublings exceeds the maximum. */
  ghost predicate Within(cfg: Config, k: nat) {
    forall j :: 1 <= j <= k ==> Shifted(cfg.initialPeriod, j) <= cfg.maximumPeriod
  }

  function Discovers(log: seq<Note>, i: nat): nat {
    if log == [] then 0
    else Discovers(log[..|log| - 1], i) + if log[|log| - 1] == Discover(i) then 1 else 0
  }

  lemma {:induction false} DiscoversOfSum(log: seq<Note>, notes: seq<Note>, i: nat)
    ensures Discovers(log + notes, i) == Discovers(log, i) + Discovers(notes, i)
  {
    if notes == [] {
      assert log + notes == log;
    } else {
      var most := notes[..|notes| - 1];
      assert (log + notes)[..|log + notes| - 1] == log + most;
      DiscoversOfSum(log, most, i);
    }
  }

  // ----------------------------------------------------------- quiet events

  /** Sockets, random numbers and sends work, and the application lets DHCP go on. */
  predicate Working(env: Env) {
    env.random.Some? && env.sendOk && env.socketOk && env.bindOk && env.hook == Continue
  }

  /** An event in which end-point `i` gets no reply: its timer, a change of its expected state,
      or anything that happens to another end-point. */
  predicate Quiet(e: Event, i: nat) {
    || e.i != i
    || e.Expect?
    || (e.Cycle? && !e.reset && !e.check && Working(e.env))
  }

  /** The event makes end-point `i` act. */
  predicate Due(net: Net, e: Event, i: nat)
    requires i < |net.eps|
  {
    && e.Cycle? && e.i == i && net.eps[i].state == net.eps[i].expected
    && (net.eps[i].state == FirstDiscover ||
        (net.eps[i].state == WaitingOffer && TimedOut(net.eps[i], e.env.tick)))
  }

  function DueEvents(cfg: Config, net: Net, es: seq<Event>, i: nat): nat
    requires |net.sockets.holders| == |net.eps| && i < |net.eps|
  {
    if es == [] then 0
    else
      var most := es[..|es| - 1];
      DueEvents(cfg, net, most, i) + if Due(Run(cfg, net, most), es[|es| - 1], i) then 1 else 0
  }

  // ---------------------------------------------------------- the invariant

  /** Where end-point `i` is when it has sent `n` discovers and had `due` events to act on. */
  ghost predicate Backing(cfg: Config, net: Net, i: nat, n: int, due: nat)
    requires |net.sockets.holders| == |net.eps| && i < |net.eps|
  {
    var ep := net.eps[i];
    var holds := net.sockets.holders[i].Some?;
    match ep.state
    case InitialWait => n == 0 && due == 0
    case FirstDiscover => n == 0 && due == 0 && holds && ep.txPeriod == cfg.initialPeriod
    case WaitingOffer =>
      n == due && n >= 1 && holds && Within(cfg, n - 1) && ep.txPeriod == Shifted(cfg.initialPeriod, n - 1)
    case NotUsingLeased =>
      && due == n + 1 && n >= 1 && !holds && Within(cfg, n - 1)
      && Shifted(cfg.initialPeriod, n) > cfg.maximumPeriod
      && ep.ip == ep.defaults.ip
    case _ => false
  }

  lemma WithinNext(cfg: Config, n: nat)
    requires n >= 1 && Within(cfg, n - 1) && Shifted(cfg.initialPeriod, n) <= cfg.maximumPeriod
    ensures Within(cfg, n)
  {
  }

  lemma OwnEventBacks(cfg: Config, net: Net, e: Event, n: int, due: nat)
    requires Valid(net) && e.i < |net.eps| && Quiet(e, e.i) && Backing(cfg, net, e.i, n, due)
    ensures
      var net' := Step(cfg, net, e);
      var n' := n + Discovers(net'.log, e.i) - Discovers(net.log, e.i);
      Backing(cfg, net', e.i, n', due + if Due(net, e, e.i) then 1 else 0)
  {
    hide Within, SharedSocket.Create, SharedSocket.Close, SharedSocket.Balanced, OfferStep, AckStep, Discovers;
    var i := e.i;
    var ep := net.eps[i];
    if e.Cycle? && ep.state == ep.expected {
      assert net.log + [] == net.log;
      SharedSocket.CreateKeepsBalanced(net.sockets, i, true, true);
      SharedSocket.CloseKeepsBalanced(net.sockets, i);
      OneDiscover(net.log, i);
      if ep.state == WaitingOffer && Doubled(ep.txPeriod) <= cfg.maximumPeriod {
        WithinNext(cfg, n);
      }
      if ep.state == FirstDiscover {
        assert Within(cfg, 0) by { WithinNone(cfg); }
      }
    }
  }

  lemma WithinNone(cfg: Config)
    ensures Within(cfg, 0)
  {
  }

  lemma OneDiscover(log: seq<Note>, i: nat)
    ensures Discovers(log + [Discover(i)], i) == Discovers(log, i) + 1
  {
    DiscoversOfSum(log, [Discover(i)], i);
    assert [Discover(i)][..0] == [];
  }

  // ----------------------------------------------------- other end-points

  lemma OthersSendNoDiscover(cfg: Config, net: Net, e: Event, i: nat)
    requires |net.sockets.holders| == |net.eps| && e.i != i
    ensures Discovers(Step(cfg, net, e).log, i) == Discovers(net.log, i)
  {
    hide SharedSocket.Create, SharedSocket.Close, Examine, InitialiseStep, Discovers;
    if e.Cycle? && e.i < |net.eps| && (e.reset || net.eps[e.i].state == net.eps[e.i].expected) {
      assert net.log + [] == net.log;
      var ep := if e.reset then net.eps[e.i].(state := InitialWait) else net.eps[e.i];
      var has := net.sockets.holders[e.i].Some?;
      NoneOfMine(net.log, React(cfg, ep, e.i, has, e.check, e.env).notes, i);
      NoneOfMine(net.log, RenewStep(cfg, ep, e.i, e.env).notes, i);
    }
  }

  lemma NoneOfMine(log: seq<Note>, notes: seq<Note>, i: nat)
    requires |notes| <= 2 && forall k :: 0 <= k < |notes| ==> notes[k] != Discover(i)
    ensures Discovers(log + notes, i) == Discovers(log, i)
  {
    DiscoversOfSum(log, notes, i);
    if |notes| > 0 {
      assert Discovers(notes[..|notes| - 1], i) == 0;
    }
  }

  lemma OthersKeepShare(cfg: Config, net: Net, e: Event, i: nat)
    requires Valid(net) && i < |net.eps| && e.i != i
    ensures Step(cfg, net, e).sockets.holders[i] == net.sockets.holders[i]
  {
    hide React, InitialiseStep, RenewStep, SharedSocket.Create, SharedSocket.Close, SharedSocket.Balanced;
    if e.i < |net.eps| {
      SharedSocket.CloseKeepsBalanced(net.sockets, e.i);
      if e.Cycle? {
        SharedSocket.CreateKeepsBalanced(net.sockets, e.i, e.env.socketOk, e.env.bindOk);
        SharedSocket.CloseKeepsBalanced(SharedSocket.Create(net.sockets, e.i, e.env.socketOk, e.env.bindOk), e.i);
      }
    }
  }

  lemma EventBacks(cfg: Config, net: Net, e: Event, i: nat, n: int, due: nat)
    requires Valid(net) && i < |net.eps| && Quiet(e, i) && Backing(cfg, net, i, n, due)
    ensures
      var net' := Step(cfg, net, e);
      var n' := n + Discovers(net'.log, i) - Discovers(net.log, i);
      Backing(cfg, net', i, n', due + if Due(net, e, i) then 1 else 0)
  {
    hide SharedSocket.Balanced, Discovers, Step, Within, Shifted;
    if e.i == i {
      hide Backing, Quiet, Due;
      OwnEventBacks(cfg, net, e, n, due);
    } else {
      Dhcpv4Lease.OthersUntouched(cfg, net, e, i);
      OthersSendNoDiscover(cfg, net, e, i);
      OthersKeepShare(cfg, net, e, i);
    }
  }

  // -------------------------------------------------------------- every run

  function Sent(cfg: Config, net: Net, es: seq<Event>, i: nat): int
    requires |net.sockets.holders| == |net.eps|
  {
    Discovers(Run(cfg, net, es).log, i) - Discovers(net.log, i)
  }

  ghost predicate QuietRun(net: Net, es: seq<Event>, i: nat) {
    && Valid(net) && i < |net.eps| && net.eps[i].state == InitialWait
    && forall k :: 0 <= k < |es| ==> Quiet(es[k], i)
  }

  lemma {:induction false} BackingInEveryRun(cfg: Config, net: Net, es: seq<Event>, i: nat)
    requires QuietRun(net, es, i)
    ensures Backing(cfg, Run(cfg, net, es), i, Sent(cfg, net, es, i), DueEvents(cfg, net, es, i))
  {
    hide SharedSocket.Balanced, Step, Discovers, Quiet, Due;
    if es != [] {
      var most, e := es[..|es| - 1], es[|es| - 1];
      BackingInEveryRun(cfg, net, most, i);
      Dhcpv4Lease.RunKeepsValid(cfg, net, most);
      hide Backing;
      EventBacks(cfg, Run(cfg, net, most), e, i, Sent(cfg, net, most, i), DueEvents(cfg, net, most, i));
    }
  }

  /** The end-point gives up exactly if some doubling of the initial period, as a 32-bit number,
      exceeds the maximum: then it does so after that many events, and otherwise never. */
  lemma GivesUpIff(cfg: Config, net: Net, es: seq<Event>, i: nat, k: nat)
    requires QuietRun(net, es, i)
    ensures k >= 1 && Shifted(cfg.initialPeriod, k) > cfg.maximumPeriod && DueEvents(cfg, net, es, i) > k ==>
      Run(cfg, net, es).eps[i].state == NotUsingLeased
    ensures Run(cfg, net, es).eps[i].state == NotUsingLeased ==>
      var n := Sent(cfg, net, es, i);
      n >= 1 && Shifted(cfg.initialPeriod, n) > cfg.maximumPeriod
  {
    BackingInEveryRun(cfg, net, es, i);
  }

  /** How often the period can double without exceeding the maximum. */
  function Doublings(period: nat, max: nat): nat
    requires period > 0
    decreases max - period
  {
    if 2 * period > max then 0 else 1 + Doublings(2 * period, max)
  }

  /** It is the logarithm, rounded down, of the maximum over the period. */
  lemma {:induction false} DoublingsIsLog(period: nat, max: nat)
    requires period > 0
    ensures period <= max ==> period * Power(Doublings(period, max)) <= max
    ensures max < period * Power(Doublings(period, max) + 1)
    decreases max - period
  {
    if 2 * period <= max {
      DoublingsIsLog(2 * period, max);
      var d := Doublings(2 * period, max);
      PowerStep(period, d);
      PowerStep(period, d + 1);
    }
  }

  lemma PowerStep(period: nat, d: nat)
    ensures period * Power(d + 1) == 2 * period * Power(d)
  {
  }

  lemma PowerTwice(period: nat, k: nat)
    requires k >= 1
    ensures period * Power(k) == 2 * (period * Power(k - 1))
  {
    PowerStep(period, k - 1);
  }

  lemma {:induction false} ShiftedIsProduct(cfg: Config, k: nat)
    requires cfg.maximumPeriod < 0x8000_0000 && 0 < cfg.initialPeriod < 0x8000_0000
    requires k >= 1 ==> Within(cfg, k - 1)
    ensures Shifted(cfg.initialPeriod, k) == cfg.initialPeriod * Power(k)
  {
    if k >= 1 {
      ShiftedIsProduct(cfg, k - 1);
      var q := Shifted(cfg.initialPeriod, k - 1);
      assert Shifted(cfg.initialPeriod, k) == Doubled(q) && q < 0x8000_0000;
      NoWrap(q);
      PowerTwice(cfg.initialPeriod, k);
      hide Shifted, Doubled, Within, Power;
    }
  }

  lemma NoWrap(p: UInt32)
    requires p < 0x8000_0000
    ensures Doubled(p) == 2 * p
  {
  }

  lemma {:induction false} PowerMonotone(p: nat, j: nat, k: nat)
    requires j <= k
    ensures p * Power(j) <= p * Power(k)
  {
    if j < k {
      PowerMonotone(p, j, k - 1);
      PowerStep(p, k - 1);
    }
  }

  /** The main result: with periods below half the range of the tick counter, the period is the
      initial one times a power of two, at most one discover more than there are doublings is
      sent, and after that many events and one more the end-point uses its default address and
      has returned its share of the socket. */
  lemma BackOffEnds(cfg: Config, net: Net, es: seq<Event>, i: nat)
    requires QuietRun(net, es, i)
    requires cfg.maximumPeriod < 0x8000_0000 && 0 < cfg.initialPeriod < 0x8000_0000
    ensures
      var now := Run(cfg, net, es);
      var limit := 1 + Doublings(cfg.initialPeriod, cfg.maximumPeriod);
      && Sent(cfg, net, es, i) <= limit
      && (now.eps[i].state == WaitingOffer ==>
          && Sent(cfg, net, es, i) >= 1
          && now.eps[i].txPeriod == cfg.initialPeriod * Power(Sent(cfg, net, es, i) - 1))
      && (DueEvents(cfg, net, es, i) > limit ==>
          && now.eps[i].state == NotUsingLeased
          && now.eps[i].ip == now.eps[i].defaults.ip
          && now.sockets.holders[i] == None)
  {
    hide SharedSocket.Balanced, Run, Doublings, Power, Backing, Sent, DueEvents, Quiet;
    assert Valid(net) && i < |net.eps|;
    BackingInEveryRun(cfg, net, es, i);
    BackingIsBounded(cfg, Run(cfg, net, es), i, Sent(cfg, net, es, i), DueEvents(cfg, net, es, i));
  }

  lemma BackingIsBounded(cfg: Config, net: Net, i: nat, n: int, due: nat)
    requires |net.sockets.holders| == |net.eps| && i < |net.eps| && Backing(cfg, net, i, n, due)
    requires cfg.maximumPeriod < 0x8000_0000 && 0 < cfg.initialPeriod < 0x8000_0000
    ensures n <= 1 + Doublings(cfg.initialPeriod, cfg.maximumPeriod)
    ensures net.eps[i].state == WaitingOffer ==>
      n >= 1 && net.eps[i].txPeriod == cfg.initialPeriod * Power(n - 1)
    ensures due > 1 + Doublings(cfg.initialPeriod, cfg.maximumPeriod) ==>
      && net.eps[i].state == NotUsingLeased
      && net.eps[i].ip == net.eps[i].defaults.ip
      && net.sockets.holders[i] == None
  {
    hide Within, Shifted, Doublings, Power;
    if n >= 1 {
      if n >= 2 {
        WithinLess(cfg, n - 1);
      }
      ShiftedIsProduct(cfg, n - 1);
      AtMostDoublings(cfg, n);
    }
  }

  lemma WithinLess(cfg: Config, k: nat)
    requires k >= 1 && Within(cfg, k)
    ensures Within(cfg, k - 1)
  {
  }

  lemma AtMostDoublings(cfg: Config, n: nat)
    requires cfg.maximumPeriod < 0x8000_0000 && 0 < cfg.initialPeriod < 0x8000_0000
    requires n >= 1 && Within(cfg, n - 1)
    ensures n <= 1 + Doublings(cfg.initialPeriod, cfg.maximumPeriod)
  {
    var d := Doublings(cfg.initialPeriod, cfg.maximumPeriod);
    if n > d + 1 {
      ShiftedIsProduct(cfg, d + 1);
      DoublingsIsLog(cfg.initialPeriod, cfg.maximumPeriod);
    }
  }

  // ------------------------------------------------------ periods that wrap

  /** With a longer maximum the doubling can wrap around to zero without ever exceeding it. */
  lemma {:induction false} WrapsToZero(a: nat, k: nat)
    requires a <= 31 && Power(a) < TWO_32
    ensures Shifted(Power(a), k) == if a + k <= 31 then Power(a + k) else 0
  {
    if k > 0 {
      WrapsToZero(a, k - 1);
      HalfWord();
      if a + k <= 31 {
        PowerMonotone(1, a + k, 31);
        NoWrap(Power(a + k - 1));
      }
    }
  }

  /** So an end-point whose initial period is a power of two and whose maximum is at least half
      the range of the tick counter never gives up. */
  lemma WrappingNeverGivesUp(cfg: Config, net: Net, es: seq<Event>, i: nat, a: nat)
    requires QuietRun(net, es, i)
    requires a <= 31 && Power(a) == cfg.initialPeriod && cfg.maximumPeriod >= 0x8000_0000
    ensures Run(cfg, net, es).eps[i].state != NotUsingLeased
  {
    GivesUpIff(cfg, net, es, i, 0);
    var n := Sent(cfg, net, es, i);
    hide Run, Sent, Shifted, QuietRun;
    if Run(cfg, net, es).eps[i].state == NotUsingLeased {
      PowersStayWithin(cfg, a, n);
    }
  }

  lemma PowersStayWithin(cfg: Config, a: nat, n: nat)
    requires a <= 31 && Power(a) == cfg.initialPeriod && cfg.maximumPeriod >= 0x8000_0000
    ensures Shifted(cfg.initialPeriod, n) <= cfg.maximumPeriod
  {
    WrapsToZero(a, n);
    HalfWord();
    hide Power;
    if a + n <= 31 {
      PowerMonotone(1, a + n, 31);
    }
  }

  lemma HalfWord()
    ensures Power(31) == 0x8000_0000
  {
    PowerIsWord();
  }
}
