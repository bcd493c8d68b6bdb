/** The DHCPv4 client as it runs: the end-points and the shared socket are updated in place. */
module Dhcpv4Client {
  import opened Common
  import opened BitCursor
  import opened Dhcpv4Options
  import opened Dhcpv4Machine
  import SharedSocket

  /** One look at the socket: the datagram that waits there, and the surroundings in which an
      end-point would handle it. */
  datatype Poll = Poll(datagram: Option<Bytes>, env: Env)

  /** The first end-point with the transaction id of a reply. */
  function Target(eps: seq<EndPoint>, d: Bytes, n: nat): Option<nat>
    requires n <= |eps| && |d| >= HEADER_SIZE
  {
    if n == 0 then None
    else
      var t := Target(eps, d, n - 1);
      if t.None? && eps[n - 1].xid == Xid(d) then Some(n - 1) else t
  }

  class Client {
    const cfg: Config
    const pool: SharedSocket.Pool
    var eps: seq<EndPoint>
    ghost var log: seq<Note>

    ghost function View(): Net
      reads this, pool
    {
      Net(eps, pool.State(), log)
    }

    constructor (cfg: Config, eps: seq<EndPoint>)
      ensures Valid(View()) && fresh(pool)
      ensures View() == Net(eps, SharedSocket.Initial(|eps|), []) && this.cfg == cfg
    {
      this.cfg, this.eps, log := cfg, eps, [];
      pool := new SharedSocket.Pool(|eps|);
    }

    // ------------------------------------------------------------ messages

    method SendDiscover(i: nat, env: Env) returns (ok: bool)
      requires i < |pool.holders|
      modifies `log
      ensures ok == (pool.holders[i].Some? && env.sendOk)
      ensures log == if ok then old(log) + [Discover(i)] else old(log)
    {
      ok := pool.holders[i].Some? && env.sendOk;
      if ok {
        log := log + [Discover(i)];
      }
    }

    method SendDhcpRequest(i: nat, env: Env) returns (ok: bool)
      requires i < |pool.holders| && i < |eps|
      modifies `log
      ensures ok == (pool.holders[i].Some? && env.sendOk)
      ensures log == if ok then old(log) + [RequestOf(i, eps[i])] else old(log)
    {
      ok := pool.holders[i].Some? && env.sendOk;
      if ok {
        log := log + [Request(i, eps[i].offered, eps[i].terms.server)];
      }
    }

    method ProcessReplies(i: nat, expected: Byte, env: Env) returns (pass: bool)
      requires i < |pool.holders| && i < |eps|
      modifies `eps
      ensures
        var x := Examine(cfg, expected, old(eps)[i], if pool.holders[i].Some? then env.datagram else None);
        eps == old(eps)[i := x.ep] && pass == x.pass
    {
      hide Process, Items, Value32;
      pass := false;
      if pool.holders[i].None? || env.datagram.None? {
        return;
      }
      var d := env.datagram.value;
      if |d| < HEADER_SIZE {
      } else if !ValidResponse(d) {
      } else if Xid(d) != eps[i].xid {
      } else if HardwareAddress(d) != eps[i].mac {
      } else {
        var set_ := new Walker(cfg, d[HEADER_SIZE..], eps[i].terms.(refused := false));
        set_.Walk(expected);
        eps := eps[i := eps[i].(terms := set_.terms.(refused := false))];
        if set_.terms.refused {
          eps := eps[i := eps[i].(state := InitialWait, expected := InitialWait)];
        }
        if set_.processed >= 2 {
          eps := eps[i := eps[i].(offered := YourAddress(d))];
          pass := true;
        }
      }
    }

    // -------------------------------------------------------- the handlers

    method UseAnswer(i: nat, hook: Answer)
      requires i < |eps|
      modifies `eps
      ensures eps == old(eps)[i := Declined(old(eps)[i], hook).ep]
    {
      if hook == UseDefaults {
        eps := eps[i := WithDefaults(eps[i])];
      }
    }

    method StoreRequested(i: nat, sent: bool, env: Env)
      requires i < |eps|
      modifies `eps
      ensures eps == old(eps)[i := if sent then old(eps)[i].(txTime := env.tick, txPeriod := cfg.initialPeriod,
                                                            state := WaitingAck)
                                   else old(eps)[i].(state := SendRequest)]
    {
      if sent {
        eps := eps[i := eps[i].(txTime := env.tick, txPeriod := cfg.initialPeriod)];
        eps := eps[i := eps[i].(state := WaitingAck)];
      } else {
        eps := eps[i := eps[i].(state := SendRequest)];
      }
    }

    method TakeOffer(i: nat, env: Env) returns (givingUp: bool)
      requires i < |pool.holders| && i < |eps|
      modifies `eps, `log
      ensures
        var r := OfferStep(cfg, old(eps)[i], i, pool.holders[i].Some?, env);
        eps == old(eps)[i := r.ep] && log == old(log) + r.notes && givingUp == r.giveUp
    {
      PassTakesDatagram(cfg, OFFER, eps[i], if pool.holders[i].Some? then env.datagram else None);
      hide Examine, WithDefaults;
      givingUp := false;
      var pass := ProcessReplies(i, OFFER, env);
      if pass {
        if env.hook == Continue {
          log := log + [Offer(i, env.datagram.value)];
          var sent := SendDhcpRequest(i, env);
          StoreRequested(i, sent, env);
        } else {
          UseAnswer(i, env.hook);
          givingUp := true;
        }
      }
    }

    method HandleWaitingOffer(i: nat, check: bool, env: Env) returns (givingUp: bool)
      requires i < |pool.holders| && i < |eps|
      modifies `eps, `log
      ensures
        var has := pool.holders[i].Some?;
        var r := if check then OfferStep(cfg, old(eps)[i], i, has, env)
                 else DiscoverAgain(cfg, old(eps)[i], i, has, env);
        eps == old(eps)[i := r.ep] && log == old(log) + r.notes && givingUp == r.giveUp && !r.release
    {
      hide Examine;
      givingUp := false;
      if check {
        givingUp := TakeOffer(i, env);
      } else if (env.tick - eps[i].txTime) % TWO_32 > eps[i].txPeriod {
        eps := eps[i := eps[i].(txPeriod := (2 * eps[i].txPeriod) % TWO_32)];
        if eps[i].txPeriod <= cfg.maximumPeriod {
          if env.random.Some? {
            eps := eps[i := eps[i].(xid := env.random.value, txTime := env.tick)];
            eps := eps[i := eps[i].(useBroadcast := !eps[i].useBroadcast)];
            var sent := SendDiscover(i, env);
            if !sent {
              eps := eps[i := eps[i].(state := InitialWait)];
            }
          }
        } else {
          givingUp := true;
        }
      }
    }

    method HandleWaitingFirstDiscover(i: nat, env: Env) returns (givingUp: bool)
      requires i < |pool.holders| && i < |eps|
      modifies `eps, `log
      ensures
        var r := FirstDiscoverStep(old(eps)[i], i, pool.holders[i].Some?, env);
        eps == old(eps)[i := r.ep] && log == old(log) + r.notes && givingUp == r.giveUp && !r.release
    {
      givingUp := false;
      if env.hook == Continue {
        if pool.holders[i].None? {
          givingUp := true;
        } else {
          eps := eps[i := eps[i].(ip := 0, txTime := env.tick)];
          var sent := SendDiscover(i, env);
          if sent {
            eps := eps[i := eps[i].(state := WaitingOffer)];
          }
        }
      } else {
        UseAnswer(i, env.hook);
        givingUp := true;
      }
    }

    method CorrectLeaseTime(i: nat)
      requires i < |eps|
      modifies `eps
      ensures eps == old(eps)[i := old(eps)[i].(terms := WithLeaseTime(cfg, old(eps)[i].terms))]
    {
      if eps[i].terms.leaseTime == 0 {
        eps := eps[i := eps[i].(terms := eps[i].terms.(leaseTime := cfg.defaultLease))];
      } else if eps[i].terms.leaseTime < cfg.minimumLease {
        eps := eps[i := eps[i].(terms := eps[i].terms.(leaseTime := cfg.minimumLease))];
      }
    }

    method WaitForAcknowledge(i: nat, env: Env)
      requires i < |pool.holders| && i < |eps|
      modifies `eps, `log
      ensures
        var r := RequestAgain(cfg, old(eps)[i], i, pool.holders[i].Some?, env);
        eps == old(eps)[i := r.ep] && log == old(log) + r.notes
    {
      if (env.tick - eps[i].txTime) % TWO_32 > eps[i].txPeriod {
        eps := eps[i := eps[i].(txPeriod := (2 * eps[i].txPeriod) % TWO_32)];
        if eps[i].txPeriod <= cfg.maximumPeriod {
          eps := eps[i := eps[i].(txTime := env.tick)];
          var sent := SendDhcpRequest(i, env);
          if !sent {
            eps := eps[i := eps[i].(state := SendRequest)];
          }
        } else {
          eps := eps[i := eps[i].(state := InitialWait, expected := InitialWait)];
        }
      }
    }

    method UseOffered(i: nat)
      requires i < |eps|
      modifies `eps
      ensures var ep := old(eps)[i];
        eps == old(eps)[i := ep.(ip := ep.offered, broadcast := BroadcastOf(ep.offered, ep.terms.netMask),
                                 state := Leased)]
    {
      hide BroadcastOf;
      eps := eps[i := eps[i].(ip := eps[i].offered)];
      eps := eps[i := eps[i].(broadcast := BroadcastOf(eps[i].offered, eps[i].terms.netMask))];
      eps := eps[i := eps[i].(state := Leased)];
    }

    method HandleWaitingAcknowledge(i: nat, check: bool, env: Env)
      requires Valid(View()) && i < |eps| && eps[i].state == WaitingAck
      modifies this, pool
      ensures Valid(View())
      ensures View() == Finish(old(View()), i, old(pool.State()),
        React(cfg, old(eps)[i], i, old(pool.holders)[i].Some?, check, env))
    {
      hide Examine, SharedSocket.Balanced, SharedSocket.Create, SharedSocket.Close, BroadcastOf, WithLeaseTime;
      if !check {
        WaitForAcknowledge(i, env);
      } else {
        var pass := ProcessReplies(i, ACK, env);
        if pass {
          UseOffered(i);
          pool.CloseSocket(i);
          CorrectLeaseTime(i);
        }
      }
    }

    method HandleLeasedAddress(i: nat, env: Env)
      requires Valid(View()) && i < |eps|
      modifies this, pool
      ensures Valid(View())
      ensures env.isUp ==>
        var sockets := SharedSocket.Create(old(pool.State()), i, env.socketOk, env.bindOk);
        View() == Finish(old(View()), i, sockets,
          if sockets.holders[i].Some? then RenewStep(cfg, old(eps)[i], i, env) else Stay(old(eps)[i]))
      ensures !env.isUp ==> View() == old(View())
    {
      hide SharedSocket.Balanced, SharedSocket.Create, SharedSocket.Close;
      if env.isUp {
        pool.CreateSocket(i, env.socketOk, env.bindOk);
        if pool.holders[i].Some? {
          if env.random.Some? {
            eps := eps[i := eps[i].(xid := env.random.value)];
          }
          eps := eps[i := eps[i].(txTime := env.tick, txPeriod := cfg.initialPeriod)];
          var sent := SendDhcpRequest(i, env);
          eps := eps[i := eps[i].(state := if sent then WaitingAck else SendRequest)];
        }
      }
    }

    method Initialise(i: nat, env: Env)
      requires Valid(View()) && i < |eps|
      modifies this, pool
      ensures Valid(View())
      ensures
        var sockets := if env.random.Some? then SharedSocket.Create(old(pool.State()), i, env.socketOk, env.bindOk)
                       else old(pool.State());
        View() == Finish(old(View()), i, sockets, Stay(InitialiseStep(cfg, old(eps)[i], env)))
    {
      hide SharedSocket.Balanced, SharedSocket.Create, SharedSocket.Close;
      if env.random.Some? {
        eps := eps[i := eps[i].(xid := env.random.value, useBroadcast := false, offered := 0)];
        eps := eps[i := eps[i].(terms := eps[i].terms.(server := 0), txPeriod := cfg.initialPeriod)];
        pool.CreateSocket(i, env.socketOk, env.bindOk);
      }
      eps := eps[i := eps[i].(state := FirstDiscover)];
    }

    // --------------------------------------------------- the state machine

    method GiveUp(i: nat)
      requires Valid(View()) && i < |eps|
      modifies this, pool
      ensures Valid(View())
      ensures View() == Finish(old(View()), i, old(pool.State()), Reaction(old(eps)[i], [], false, true))
    {
      hide SharedSocket.Balanced, SharedSocket.Close;
      eps := eps[i := eps[i].(ip := eps[i].defaults.ip)];
      eps := eps[i := eps[i].(state := NotUsingLeased)];
      pool.CloseSocket(i);
    }

    /** The states in which an end-point waits for something. */
    method HandleWaiting(i: nat, check: bool, env: Env) returns (givingUp: bool)
      requires i < |pool.holders| && i < |eps|
      requires eps[i].state != InitialWait && eps[i].state != Leased && eps[i].state != WaitingAck
      modifies `eps, `log
      ensures
        var r := React(cfg, old(eps)[i], i, pool.holders[i].Some?, check, env);
        eps == old(eps)[i := r.ep] && log == old(log) + r.notes && givingUp == r.giveUp && !r.release
    {
      hide FirstDiscoverStep, OfferStep, DiscoverAgain;
      givingUp := false;
      match eps[i].state {
        case FirstDiscover =>
          givingUp := HandleWaitingFirstDiscover(i, env);
        case SendRequest =>
          var sent := SendDhcpRequest(i, env);
          if sent {
            eps := eps[i := eps[i].(txTime := env.tick, txPeriod := cfg.initialPeriod)];
            eps := eps[i := eps[i].(state := WaitingAck)];
          }
        case WaitingOffer =>
          givingUp := HandleWaitingOffer(i, check, env);
        case NotUsingLeased =>
      }
    }

    method Handle(i: nat, check: bool, env: Env)
      requires Valid(View()) && i < |eps|
      modifies this, pool
      ensures Valid(View()) && View() == Cycled(cfg, old(View()), i, check, env)
    {
      hide SharedSocket.Balanced, SharedSocket.Create, SharedSocket.Close, React, RenewStep, InitialiseStep;
      if eps[i].state == InitialWait {
        Initialise(i, env);
      } else if eps[i].state == WaitingAck {
        HandleWaitingAcknowledge(i, check, env);
      } else if eps[i].state == Leased {
        HandleLeasedAddress(i, env);
      } else {
        var givingUp := HandleWaiting(i, check, env);
        if givingUp {
          GiveUp(i);
        }
      }
    }

    /** One cycle of the machine of end-point `i`. */
    method CycleEndPoint(i: nat, reset: bool, check: bool, env: Env)
      requires Valid(View()) && i < |eps|
      modifies this, pool
      ensures Valid(View())
      ensures View() == Step(cfg, old(View()), Cycle(i, reset, check, env))
    {
      hide SharedSocket.Balanced, Cycled;
      if reset {
        eps := eps[i := eps[i].(state := InitialWait)];
        assert View() == Restarted(old(View()), i);
      }
      if eps[i].state != eps[i].expected && !reset {
      } else {
        Handle(i, check, env);
      }
    }

    method DhcpStop(i: nat)
      requires Valid(View()) && i < |eps|
      modifies pool
      ensures Valid(View())
      ensures View() == Step(cfg, old(View()), Stop(i))
    {
      pool.CloseSocket(i);
    }

    method FindTarget(d: Bytes) returns (target: Option<nat>)
      requires |d| >= HEADER_SIZE
      ensures target == Target(eps, d, |eps|)
      ensures target.Some? ==> target.value < |eps| && eps[target.value].xid == Xid(d)
    {
      var j := 0;
      while j < |eps|
        invariant 0 <= j <= |eps| && Target(eps, d, j) == None
      {
        if Xid(d) == eps[j].xid {
          TargetStays(eps, d, j + 1);
          return Some(j);
        }
        j := j + 1;
      }
      target := None;
    }

    /** Handles the datagrams that wait in the socket, each for the end-point it is meant for, and
        then `i` itself: a run of the machine in which a leased end-point never sees a datagram. */
    method DhcpProcess(i: nat, reset: bool, env: Env, polls: seq<Poll>) returns (ghost es: seq<Event>)
      requires Valid(View()) && i < |eps|
      modifies this, pool
      ensures Valid(View())
      ensures View() == Run(cfg, old(View()), es)
      ensures ChecksAreTimely(cfg, old(View()), es)
    {
      hide SharedSocket.Balanced, Step, IsReply, Target, Xid;
      es := [];
      if reset {
        eps := eps[i := eps[i].(state := InitialWait)];
        es := [Restart(i)];
        RestartRuns(cfg, old(View()), i);
      }
      var doProcess := true;
      if eps[i].state != eps[i].expected && !reset {
      } else if pool.holders[i].Some? {
        var k := 0;
        while pool.holders[i].Some? && k < |polls|
          invariant Valid(View()) && i < |eps|
          invariant View() == Run(cfg, old(View()), es) && ChecksAreTimely(cfg, old(View()), es)
          decreases |polls| - k
        {
          var datagram, at := polls[k].datagram, polls[k].env;
          k := k + 1;
          if datagram.None? || |datagram.value| < HEADER_SIZE {
            break;
          }
          var target := None;
          if IsReply(datagram.value) {
            target := FindTarget(datagram.value);
          }
          if target.Some? && eps[target.value].state == Leased {
            target := None;
          }
          if target.Some? && eps[target.value].state == eps[target.value].expected {
            ghost var e := Cycle(target.value, false, true, at.(datagram := datagram));
            RunOneMore(cfg, old(View()), es, e);
            CycleEndPoint(target.value, false, true, at.(datagram := datagram));
            es := es + [e];
            if target.value == i {
              doProcess := false;
            }
          }
        }
      }
      if doProcess {
        RunOneMore(cfg, old(View()), es, Cycle(i, reset, false, env));
        CycleEndPoint(i, reset, false, env);
        es := es + [Cycle(i, reset, false, env)];
      }
    }
  }

  /** Every datagram goes to an end-point that is in the state in which it expects one and is
      not leased. */
  ghost predicate ChecksAreTimely(cfg: Config, net: Net, es: seq<Event>)
    requires |net.sockets.holders| == |net.eps|
  {
    es == [] ||
      var most, e := es[..|es| - 1], es[|es| - 1];
      ChecksAreTimely(cfg, net, most) && Timely(Run(cfg, net, most), e)
  }

  predicate Timely(net: Net, e: Event) {
    e.Cycle? && e.check ==>
      e.i < |net.eps| && net.eps[e.i].state != Leased && net.eps[e.i].state == net.eps[e.i].expected
  }

  lemma PassTakesDatagram(cfg: Config, expected: Byte, ep: EndPoint, datagram: Option<Bytes>)
    ensures Examine(cfg, expected, ep, datagram).pass ==> datagram.Some?
  {
  }

  lemma RunOneMore(cfg: Config, net: Net, es: seq<Event>, e: Event)
    requires |net.sockets.holders| == |net.eps|
    ensures Run(cfg, net, es + [e]) == Step(cfg, Run(cfg, net, es), e)
    ensures ChecksAreTimely(cfg, net, es) && Timely(Run(cfg, net, es), e) ==>
      ChecksAreTimely(cfg, net, es + [e])
  {
    hide Step;
    assert (es + [e])[..|es|] == es;
  }

  lemma RestartRuns(cfg: Config, net: Net, i: nat)
    requires |net.sockets.holders| == |net.eps| && i < |net.eps|
    ensures Run(cfg, net, [Restart(i)]) == Restarted(net, i)
    ensures ChecksAreTimely(cfg, net, [Restart(i)])
  {
    assert [Restart(i)][..0] == [];
  }

  lemma TargetStays(eps: seq<EndPoint>, d: Bytes, n: nat)
    requires n <= |eps| && |d| >= HEADER_SIZE && Target(eps, d, n).Some?
    ensures Target(eps, d, |eps|) == Target(eps, d, n)
    decreases |eps| - n
  {
    if n < |eps| {
      TargetStays(eps, d, n + 1);
    }
  }
}
