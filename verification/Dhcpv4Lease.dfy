/** What every run of the DHCPv4 machine keeps: the socket count, and where leases come from. */
module Dhcpv4Lease {
  import opened Common
  import opened BitCursor
  import opened Dhcpv4Options
  import opened Dhcpv4Terms
  import opened Dhcpv4Machine
  import SharedSocket

  // ------------------------------------------------------- the shared socket

  /** Whatever happens to the end-points, the user count of the shared socket is right. */
  lemma StepKeepsValid(cfg: Config, net: Net, e: Event)
    requires Valid(net)
    ensures Valid(Step(cfg, net, e))
  {
    hide React, InitialiseStep, RenewStep, SharedSocket.Balanced, SharedSocket.Create, SharedSocket.Close;
    if e.i < |net.eps| {
      SharedSocket.CloseKeepsBalanced(net.sockets, e.i);
      if e.Cycle? {
        SharedSocket.CreateKeepsBalanced(net.sockets, e.i, e.env.socketOk, e.env.bindOk);
        var s := SharedSocket.Create(net.sockets, e.i, e.env.socketOk, e.env.bindOk);
        SharedSocket.CloseKeepsBalanced(s, e.i);
      }
    }
  }

  lemma {:induction false} RunKeepsValid(cfg: Config, net: Net, es: seq<Event>)
    requires Valid(net)
    ensures Valid(Run(cfg, net, es))
  {
    if es != [] {
      RunKeepsValid(cfg, net, es[..|es| - 1]);
      StepKeepsValid(cfg, Run(cfg, net, es[..|es| - 1]), es[|es| - 1]);
    }
  }

  // ------------------------------------------------- a lease needs an answer

  /** The message type and the server identifier occur at most once. */
  ghost predicate Once(d: Bytes)
    requires |d| >= HEADER_SIZE
  {
    AtMostOnce(Options(d), MESSAGE_TYPE) && AtMostOnce(Options(d), SERVER_ID)
  }

  predicate Usable(address: UInt32) {
    address % 0x100 != 0xFF && address / 0x100_0000 != 0x7F
  }

  /** The end-point has the address of an acknowledgement meant for it and sent by its server. */
  ghost predicate AckedBy(ep: EndPoint, ep': EndPoint, d: Bytes) {
    && Addressed(ep, d)
    && ep'.ip == YourAddress(d)
    && EnoughGood(Options(d), ACK, ep.terms.server)
    && (Once(d) ==>
      HasType(Options(d), ACK) && NamedServer(Options(d)) == Some(ep.terms.server))
  }

  ghost predicate LeaseIsSound(ep: EndPoint) {
    ep.state == Leased ==> Usable(ep.ip) && ep.broadcast == BroadcastOf(ep.ip, ep.terms.netMask)
  }

  lemma ValidAddressIsUsable(d: Bytes)
    requires ValidResponse(d)
    ensures Usable(YourAddress(d))
  {
    var b0: int, b1: int, b2: int, b3: int := d[16], d[17], d[18], d[19];
    assert d[16..20] == [b0, b1, b2, b3];
    FourBytes(b0, b1, b2, b3);
  }

  lemma FourBytes(b0: int, b1: int, b2: int, b3: int)
    requires 0 <= b0 < 0x100 && 0 <= b1 < 0x100 && 0 <= b2 < 0x100 && 0 <= b3 < 0x100
    ensures var v := ((b0 * 0x100 + b1) * 0x100 + b2) * 0x100 + b3;
      v % 0x100 == b3 && v / 0x100_0000 == b0
  {
  }

  lemma ExaminedPass(cfg: Config, expected: Byte, ep: EndPoint, datagram: Option<Bytes>)
    requires Examine(cfg, expected, ep, datagram).pass
    ensures datagram.Some? && Addressed(ep, datagram.value)
    ensures Examine(cfg, expected, ep, datagram).ep.offered == YourAddress(datagram.value)
    ensures EnoughGood(Options(datagram.value), expected, ep.terms.server)
    ensures Once(datagram.value) ==>
      && HasType(Options(datagram.value), expected)
      && HasServer(Options(datagram.value), expected, ep.terms.server)
  {
    var d := datagram.value;
    PassesExactly(cfg, expected, Progress(ep.terms.(refused := false), 0), Options(d));
    if Once(d) {
      PassesIff(cfg, expected, Progress(ep.terms.(refused := false), 0), Options(d));
    }
  }

  lemma AckStepLeases(cfg: Config, ep: EndPoint, hasSocket: bool, env: Env)
    ensures
      var r := AckStep(cfg, ep, hasSocket, env);
      r.ep.state == Leased ==>
        || ep.state == Leased
        || (env.datagram.Some? && AckedBy(ep, r.ep, env.datagram.value) && LeaseIsSound(r.ep) &&
            r.ep.terms.server == ep.terms.server)
  {
    var datagram := if hasSocket then env.datagram else None;
    var x := Examine(cfg, ACK, ep, datagram);
    AckExamined(cfg, ep, datagram);
    if x.pass {
      ExaminedPass(cfg, ACK, ep, datagram);
      var d := datagram.value;
      ValidAddressIsUsable(d);
      if Once(d) {
        NamedIff(Options(d), ACK, ep.terms.server);
      }
    }
  }

  lemma AckExamined(cfg: Config, ep: EndPoint, datagram: Option<Bytes>)
    ensures
      var x := Examine(cfg, ACK, ep, datagram);
      && x.ep.terms.server == ep.terms.server
      && (x.ep.state == ep.state || x.ep.state == InitialWait)
  {
    if datagram.Some? && Addressed(ep, datagram.value) {
      AckKeepsServer(cfg, Progress(ep.terms.(refused := false), 0), Options(datagram.value));
    }
  }

  lemma OfferExamined(cfg: Config, ep: EndPoint, datagram: Option<Bytes>)
    ensures
      var x := Examine(cfg, OFFER, ep, datagram);
      && x.ep.state == ep.state
      && (x.pass ==>
          && datagram.Some? && Addressed(ep, datagram.value)
          && (Once(datagram.value) ==>
              NamedServer(Options(datagram.value)) == Some(x.ep.terms.server)))
  {
    if datagram.Some? && Addressed(ep, datagram.value) {
      var d := datagram.value;
      var p := Progress(ep.terms.(refused := false), 0);
      OfferNeverRefuses(cfg, p, Options(d));
      var x := Examine(cfg, OFFER, ep, datagram);
      if x.pass && Once(d) {
        ExaminedPass(cfg, OFFER, ep, datagram);
        OfferNamesServer(cfg, p, Options(d));
        NamedIff(Options(d), OFFER, ep.terms.server);
      }
    }
  }

  lemma {:induction false} OfferNeverRefuses(cfg: Config, p: Progress, items: seq<Item>)
    ensures Process(cfg, OFFER, p, items).terms.refused == p.terms.refused
    decreases items
  {
    if items != [] && !StopsAt(items[0], OFFER) {
      OfferNeverRefuses(cfg, Handled(cfg, OFFER, p, items[0]), items[1..]);
    }
  }

  /** An end-point becomes leased only in a step that consumed an acknowledgement for it, from
      the server it asked; its address is the one the acknowledgement gives. */
  lemma LeaseOnlyByAck(cfg: Config, net: Net, e: Event, i: nat)
    requires |net.sockets.holders| == |net.eps| && i < |net.eps|
    requires net.eps[i].state != Leased && Step(cfg, net, e).eps[i].state == Leased
    ensures e.Cycle? && e.i == i && e.check && !e.reset && net.eps[i].state == WaitingAck
    ensures e.env.datagram.Some? && AckedBy(net.eps[i], Step(cfg, net, e).eps[i], e.env.datagram.value)
    ensures LeaseIsSound(Step(cfg, net, e).eps[i])
  {
    hide AckedBy, LeaseIsSound, AckStep, OfferStep, SharedSocket.Create, SharedSocket.Close;
    if e.Cycle? && e.i == i && !e.reset {
      var has := net.sockets.holders[i].Some?;
      AckStepLeases(cfg, net.eps[i], has, e.env);
      if net.eps[i].state == WaitingOffer {
        OfferStepStates(cfg, net.eps[i], i, has, e.env);
      }
    }
  }

  // ------------------------------------------------- the server of the offer

  /** The last offer that end-point `i` accepted. */
  function LastOffer(log: seq<Note>, i: nat): Option<Bytes> {
    if log == [] then None
    else
      var n := log[|log| - 1];
      if n.Offer? && n.to == i then Some(n.datagram) else LastOffer(log[..|log| - 1], i)
  }

  lemma {:induction false} LastOfferOfSum(log: seq<Note>, notes: seq<Note>, i: nat)
    ensures LastOffer(log + notes, i) ==
      if LastOffer(notes, i).Some? then LastOffer(notes, i) else LastOffer(log, i)
  {
    if notes == [] {
      assert log + notes == log;
    } else {
      var most := notes[..|notes| - 1];
      assert (log + notes)[..|log + notes| - 1] == log + most;
      LastOfferOfSum(log, most, i);
    }
  }

  predicate AfterOffer(s: State) { s == WaitingAck || s == SendRequest || s == Leased }

  /** The server of an end-point is the one its last accepted offer names. */
  ghost predicate OfferedBy(log: seq<Note>, i: nat, ep: EndPoint) {
    AfterOffer(ep.state) ==>
      match LastOffer(log, i)
      case None => false
      case Some(d) => |d| >= HEADER_SIZE && (Once(d) ==> NamedServer(Options(d)) == Some(ep.terms.server))
  }

  lemma OfferStepStates(cfg: Config, ep: EndPoint, i: nat, hasSocket: bool, env: Env)
    requires ep.state == WaitingOffer
    ensures
      var r := OfferStep(cfg, ep, i, hasSocket, env);
      && r.ep.state != Leased
      && (AfterOffer(r.ep.state) && !r.giveUp ==> OfferedBy(r.notes, i, r.ep))
      && (forall j :: j != i ==> LastOffer(r.notes, j) == None)
      && (r.ep.state == WaitingOffer || r.ep.state == WaitingAck || r.ep.state == SendRequest)
  {
    var datagram := if hasSocket then env.datagram else None;
    OfferExamined(cfg, ep, datagram);
    hide Examine;
    var x := Examine(cfg, OFFER, ep, datagram);
    if x.pass {
      var d := env.datagram.value;
      assert LastOffer([Offer(i, d)], i) == Some(d);
      LastOfferOfSum([Offer(i, d)], [RequestOf(i, x.ep)], i);
      assert LastOffer([RequestOf(i, x.ep)], i) == None;
      forall j | j != i ensures LastOffer(OfferStep(cfg, ep, i, hasSocket, env).notes, j) == None {
        LastOfferOfSum([Offer(i, d)], [RequestOf(i, x.ep)], j);
      }
    }
  }

  lemma StillOffered(log: seq<Note>, notes: seq<Note>, i: nat, ep: EndPoint, ep': EndPoint)
    requires OfferedBy(log, i, ep) && LastOffer(notes, i) == None
    requires AfterOffer(ep'.state) ==> AfterOffer(ep.state) && ep'.terms.server == ep.terms.server
    ensures OfferedBy(log + notes, i, ep')
  {
    LastOfferOfSum(log, notes, i);
    hide LastOffer, Options;
  }

  lemma NewlyOffered(log: seq<Note>, notes: seq<Note>, i: nat, ep: EndPoint)
    requires OfferedBy(notes, i, ep)
    ensures OfferedBy(log + notes, i, ep)
  {
    LastOfferOfSum(log, notes, i);
    hide LastOffer, Options;
  }

  lemma ReactKeepsOffer(cfg: Config, ep: EndPoint, i: nat, hasSocket: bool, check: bool, env: Env, log: seq<Note>)
    requires OfferedBy(log, i, ep)
    ensures
      var r := React(cfg, ep, i, hasSocket, check, env);
      r.giveUp || OfferedBy(log + r.notes, i, r.ep)
  {
    hide OfferedBy, LastOffer;
    var r := React(cfg, ep, i, hasSocket, check, env);
    if ep.state == WaitingOffer && check {
      OfferStepStates(cfg, ep, i, hasSocket, env);
      hide OfferStep;
      if !r.giveUp {
        if AfterOffer(r.ep.state) {
          NewlyOffered(log, r.notes, i, r.ep);
        } else {
          NoOfferNeeded(log + r.notes, i, r.ep);
        }
      }
    } else if ep.state == WaitingAck && check {
      AckExamined(cfg, ep, if hasSocket then env.datagram else None);
      hide Examine, BroadcastOf;
      NoOffer(r.notes);
      StillOffered(log, r.notes, i, ep, r.ep);
    } else {
      hide OfferStep, AckStep;
      NoOffer(r.notes);
      if !r.giveUp {
        StillOffered(log, r.notes, i, ep, r.ep);
      }
    }
  }

  lemma NoOffer(notes: seq<Note>)
    requires |notes| <= 1 && (notes != [] ==> !notes[0].Offer?)
    ensures forall j :: LastOffer(notes, j) == None
  {
  }

  lemma OthersUntouched(cfg: Config, net: Net, e: Event, i: nat)
    requires |net.sockets.holders| == |net.eps| && i < |net.eps| && e.i != i
    ensures Step(cfg, net, e).eps[i] == net.eps[i]
    ensures LastOffer(Step(cfg, net, e).log, i) == LastOffer(net.log, i)
  {
    hide React, InitialiseStep, SharedSocket.Create, SharedSocket.Close, LastOffer, OfferedBy;
    if e.Cycle? && e.i < |net.eps| && (e.reset || net.eps[e.i].state == net.eps[e.i].expected) {
      var ep := net.eps[e.i];
      if e.reset || ep.state == InitialWait {
        assert net.log + [] == net.log;
      } else if ep.state == Leased {
        var r := RenewStep(cfg, ep, e.i, e.env);
        NoOffer(r.notes);
        LastOfferOfSum(net.log, r.notes, i);
        assert net.log + [] == net.log;
      } else {
        var has := net.sockets.holders[e.i].Some?;
        var r := React(cfg, ep, e.i, has, e.check, e.env);
        NotesAreOwn(cfg, ep, e.i, has, e.check, e.env, i);
        LastOfferOfSum(net.log, r.notes, i);
      }
    }
  }

  lemma NotesAreOwn(cfg: Config, ep: EndPoint, i: nat, hasSocket: bool, check: bool, env: Env, j: nat)
    requires j != i
    ensures LastOffer(React(cfg, ep, i, hasSocket, check, env).notes, j) == None
  {
    if ep.state == WaitingOffer && check {
      OfferStepStates(cfg, ep, i, hasSocket, env);
      hide OfferStep, LastOffer;
    } else {
      hide Examine, LastOffer;
      NoOffer(React(cfg, ep, i, hasSocket, check, env).notes);
    }
  }

  // ------------------------------------------------------------- every run

  /** What every step keeps for end-point `i`. */
  ghost predicate Sound(net: Net, i: nat)
    requires i < |net.eps|
  {
    LeaseIsSound(net.eps[i]) && OfferedBy(net.log, i, net.eps[i])
  }

  lemma OwnStepKeepsOffer(cfg: Config, net: Net, e: Event)
    requires |net.sockets.holders| == |net.eps| && e.i < |net.eps|
    requires OfferedBy(net.log, e.i, net.eps[e.i])
    ensures OfferedBy(Step(cfg, net, e).log, e.i, Step(cfg, net, e).eps[e.i])
  {
    var ep := net.eps[e.i];
    if e.Cycle? && (e.reset || ep.state == ep.expected) {
      assert net.log + [] == net.log;
      if e.reset || ep.state == InitialWait {
        hide LastOffer, React;
      } else if ep.state == Leased {
        var r := RenewStep(cfg, ep, e.i, e.env);
        NoOffer(r.notes);
        LastOfferOfSum(net.log, r.notes, e.i);
        hide LastOffer, React;
      } else {
        var has := net.sockets.holders[e.i].Some?;
        ReactKeepsOffer(cfg, ep, e.i, has, e.check, e.env, net.log);
        var r := React(cfg, ep, e.i, has, e.check, e.env);
        hide LastOffer, React, OfferedBy;
        assert Step(cfg, net, e) == Finish(net, e.i, net.sockets, r);
        if r.giveUp {
          NoOfferNeeded(net.log + r.notes, e.i, r.ep.(ip := r.ep.defaults.ip, state := NotUsingLeased));
        }
      }
    }
  }

  lemma NoOfferNeeded(log: seq<Note>, i: nat, ep: EndPoint)
    requires !AfterOffer(ep.state)
    ensures OfferedBy(log, i, ep)
  {
  }

  lemma StepKeepsSound(cfg: Config, net: Net, e: Event, i: nat)
    requires |net.sockets.holders| == |net.eps| && i < |net.eps| && Sound(net, i)
    ensures Sound(Step(cfg, net, e), i)
  {
    if e.i == i {
      OwnStepKeepsOffer(cfg, net, e);
      hide OfferedBy, React, InitialiseStep, RenewStep, BroadcastOf, AckedBy, Usable, ProcessEndPoint;
      if net.eps[i].state != Leased {
        if Step(cfg, net, e).eps[i].state == Leased {
          LeaseOnlyByAck(cfg, net, e, i);
        }
      } else if Step(cfg, net, e).eps[i].state == Leased {
        StaysLeased(cfg, net, e);
      }
    } else {
      OthersUntouched(cfg, net, e, i);
    }
  }

  lemma StaysLeased(cfg: Config, net: Net, e: Event)
    requires |net.sockets.holders| == |net.eps| && e.i < |net.eps|
    requires net.eps[e.i].state == Leased && Step(cfg, net, e).eps[e.i].state == Leased
    ensures Step(cfg, net, e).eps[e.i] == net.eps[e.i].(expected := Step(cfg, net, e).eps[e.i].expected)
  {
    hide React, SharedSocket.Create, SharedSocket.Close;
  }

  lemma {:induction false} RunKeepsSound(cfg: Config, net: Net, es: seq<Event>, i: nat)
    requires |net.sockets.holders| == |net.eps| && i < |net.eps| && Sound(net, i)
    ensures Sound(Run(cfg, net, es), i)
  {
    if es != [] {
      RunKeepsSound(cfg, net, es[..|es| - 1], i);
      StepKeepsSound(cfg, Run(cfg, net, es[..|es| - 1]), es[|es| - 1], i);
    }
  }

  /** The main result: in every run from the initial state, an end-point that becomes leased has
      consumed an acknowledgement with its transaction id and hardware address, sent by the
      server whose offer it accepted last; and as long as it is leased its address is usable and
      its broadcast address fits the net mask. */
  lemma LeaseIsGranted(cfg: Config, net: Net, es: seq<Event>, e: Event, i: nat)
    requires |net.sockets.holders| == |net.eps| && i < |net.eps| && net.eps[i].state == InitialWait
    ensures
      var now := Run(cfg, net, es);
      var then_ := Step(cfg, now, e);
      && LeaseIsSound(now.eps[i])
      && (now.eps[i].state != Leased && then_.eps[i].state == Leased ==>
          && e.Cycle? && e.env.datagram.Some?
          && var ack := e.env.datagram.value;
          && AckedBy(now.eps[i], then_.eps[i], ack)
          && LastOffer(now.log, i).Some?
          && var offer := LastOffer(now.log, i).value;
          && |offer| >= HEADER_SIZE
          && (Once(offer) && Once(ack) ==>
              NamedServer(Options(ack)) == NamedServer(Options(offer)) != None))
  {
    RunKeepsSound(cfg, net, es, i);
    var now := Run(cfg, net, es);
    if now.eps[i].state != Leased && Step(cfg, now, e).eps[i].state == Leased {
      LeaseOnlyByAck(cfg, now, e, i);
    }
  }

  // ------------------------------------------------------ the way to a lease

  /** A reply for the end-point, of the given type, that names the server. */
  ghost predicate Answers(ep: EndPoint, d: Bytes, kind: Byte, server: UInt32) {
    Addressed(ep, d) && Once(d) && HasType(Options(d), kind) && NamedServer(Options(d)) == Some(server)
  }

  lemma AnswerPasses(cfg: Config, ep: EndPoint, d: Bytes, kind: Byte, server: UInt32)
    requires Answers(ep, d, kind, server) && (kind == OFFER || server == ep.terms.server)
    ensures Examine(cfg, kind, ep, Some(d)).pass
  {
    NamedIff(Options(d), kind, ep.terms.server);
    PassesIff(cfg, kind, Progress(ep.terms.(refused := false), 0), Options(d));
  }

  lemma OfferIsAccepted(cfg: Config, ep: EndPoint, i: nat, env: Env, server: UInt32)
    requires ep.state == WaitingOffer && env.datagram.Some? && Answers(ep, env.datagram.value, OFFER, server)
    requires env.hook == Continue && env.sendOk
    ensures
      var d, r := env.datagram.value, OfferStep(cfg, ep, i, true, env);
      && !r.release && !r.giveUp && r.notes == [Offer(i, d), Request(i, YourAddress(d), server)]
      && r.ep.state == WaitingAck && r.ep.terms.server == server
      && r.ep.xid == ep.xid && r.ep.mac == ep.mac && r.ep.expected == ep.expected
      && Follows(cfg, r.ep.terms, ep.terms, Options(d))
  {
    var d := env.datagram.value;
    AnswerPasses(cfg, ep, d, OFFER, server);
    AnswerSetsTerms(cfg, ep, d, OFFER, server);
    hide Follows;
    ExaminedPass(cfg, OFFER, ep, Some(d));
    OfferExamined(cfg, ep, Some(d));
    ExamineKeeps(cfg, OFFER, ep, Some(d));
    hide Examine, Answers;
  }

  lemma ExamineKeeps(cfg: Config, kind: Byte, ep: EndPoint, datagram: Option<Bytes>)
    ensures var x := Examine(cfg, kind, ep, datagram).ep;
      && x.xid == ep.xid && x.mac == ep.mac
      && (x.state == ep.state ==> x.expected == ep.expected || ep.state == InitialWait)
  {
    hide Process, Addressed;
  }

  // A reply with the right type sets the terms from all its options.
  lemma AnswerSetsTerms(cfg: Config, ep: EndPoint, d: Bytes, kind: Byte, server: UInt32)
    requires Answers(ep, d, kind, server)
    ensures Follows(cfg, Examine(cfg, kind, ep, Some(d)).ep.terms, ep.terms, Options(d))
  {
    hide HasType, NamedServer, AtMostOnce, Options, Carried, IsDnsList, IsHalfLease;
    BeforeIsAll(Options(d), kind);
    TermsFollow(cfg, kind, Progress(ep.terms.(refused := false), 0), Options(d));
    hide Process, Before, Has;
  }

  /** The lease time in force: a default without one, and never below the minimum. */
  predicate LeaseInForce(cfg: Config, now: UInt32, renewal: UInt32) {
    if renewal == 0 then now == cfg.defaultLease
    else now >= cfg.minimumLease && now >= renewal && (now == renewal || now == cfg.minimumLease)
  }

  /** All that an acknowledgement settles: the address, the terms that its options carry, and the
      broadcast address of that address and that mask, bit by bit. */
  ghost predicate SettledBy(cfg: Config, ep: EndPoint, was: Terms, d: Bytes)
    requires |d| >= HEADER_SIZE
  {
    && ep.state == Leased && ep.ip == YourAddress(d)
    && (exists renewal :: LeaseInForce(cfg, ep.terms.leaseTime, renewal) &&
                          Follows(cfg, ep.terms.(leaseTime := renewal), was, Options(d)))
    && IsBroadcast(ep.broadcast, ep.ip, ep.terms.netMask)
  }

  ghost predicate IsBroadcast(broadcast: UInt32, ip: UInt32, mask: UInt32) {
    forall k: nat :: k < 32 ==> Bit(broadcast, k) == if Bit(ip, k) == 1 || Bit(mask, k) == 0 then 1 else 0
  }

  lemma BroadcastIs(ip: UInt32, mask: UInt32)
    ensures IsBroadcast(BroadcastOf(ip, mask), ip, mask)
  {
    forall k: nat | k < 32
      ensures Bit(BroadcastOf(ip, mask), k) == if Bit(ip, k) == 1 || Bit(mask, k) == 0 then 1 else 0
    {
      OrNotBit(ip, mask, 32, k);
    }
  }

  lemma AckIsAccepted(cfg: Config, ep: EndPoint, env: Env)
    requires env.datagram.Some? && Answers(ep, env.datagram.value, ACK, ep.terms.server)
    ensures
      var r := AckStep(cfg, ep, true, env);
      r.release && !r.giveUp && r.notes == [] && SettledBy(cfg, r.ep, ep.terms, env.datagram.value)
  {
    var d := env.datagram.value;
    AnswerPasses(cfg, ep, d, ACK, ep.terms.server);
    ExaminedPass(cfg, ACK, ep, env.datagram);
    AnswerSetsTerms(cfg, ep, d, ACK, ep.terms.server);
    var x := Examine(cfg, ACK, ep, Some(d)).ep;
    BroadcastIs(x.offered, x.terms.netMask);
    hide Examine, Answers, Follows, BroadcastOf, IsBroadcast;
    var t := AckStep(cfg, ep, true, env).ep.terms;
    assert t.(leaseTime := x.terms.leaseTime) == x.terms && LeaseInForce(cfg, t.leaseTime, x.terms.leaseTime);
  }

  lemma OthersKeepSocket(cfg: Config, net: Net, e: Event, i: nat)
    requires |net.sockets.holders| == |net.eps| && i < |net.eps| && e.i != i
    ensures Step(cfg, net, e).sockets.holders[i] == net.sockets.holders[i]
  {
    hide React, InitialiseStep, RenewStep, SharedSocket.Create, SharedSocket.Close;
    if e.i < |net.eps| {
      SocketOfOthers(net.sockets, e.i, i, e.Cycle? && e.env.socketOk, e.Cycle? && e.env.bindOk);
    }
  }

  lemma SocketOfOthers(s: SharedSocket.Sockets, j: nat, i: nat, socketOk: bool, bindOk: bool)
    requires j < |s.holders| && i < |s.holders| && i != j
    ensures SharedSocket.Close(s, j).holders[i] == s.holders[i]
    ensures SharedSocket.Create(s, j, socketOk, bindOk).holders[i] == s.holders[i]
    ensures SharedSocket.Close(SharedSocket.Create(s, j, socketOk, bindOk), j).holders[i] == s.holders[i]
  {
  }

  lemma {:induction false} OthersRun(cfg: Config, net: Net, es: seq<Event>, i: nat)
    requires |net.sockets.holders| == |net.eps| && i < |net.eps|
    requires forall n :: 0 <= n < |es| ==> es[n].i != i
    ensures var net' := Run(cfg, net, es);
      net'.eps[i] == net.eps[i] && net'.sockets.holders[i] == net.sockets.holders[i]
  {
    hide Step;
    if es != [] {
      OthersRun(cfg, net, es[..|es| - 1], i);
      OthersUntouched(cfg, Run(cfg, net, es[..|es| - 1]), es[|es| - 1], i);
      OthersKeepSocket(cfg, Run(cfg, net, es[..|es| - 1]), es[|es| - 1], i);
    }
  }

  /** A look at the socket in which the end-point takes an offer, after which it is expected to
      wait for the acknowledgement. */
  function Asked(cfg: Config, net: Net, i: nat, offer: Env): (net': Net)
    requires |net.sockets.holders| == |net.eps|
    ensures |net'.sockets.holders| == |net'.eps| == |net.eps|
  {
    Step(cfg, Step(cfg, net, Cycle(i, false, true, offer)), Expect(i, WaitingAck))
  }

  /** The end-point waits for an offer, with its share of the socket. */
  ghost predicate WaitsForOffer(net: Net, i: nat) {
    && |net.sockets.holders| == |net.eps| && i < |net.eps| && net.sockets.holders[i].Some?
    && net.eps[i].state == net.eps[i].expected == WaitingOffer
  }

  ghost predicate WaitsForAck(net: Net, i: nat, ep: EndPoint, server: UInt32, terms: Terms) {
    && |net.sockets.holders| == |net.eps| && i < |net.eps| && net.sockets.holders[i].Some?
    && net.eps[i].state == net.eps[i].expected == WaitingAck
    && net.eps[i].xid == ep.xid && net.eps[i].mac == ep.mac
    && net.eps[i].terms == terms && terms.server == server
  }

  lemma {:induction false} OfferIsTaken(cfg: Config, net: Net, i: nat, env: Env, server: UInt32) returns (terms: Terms)
    requires WaitsForOffer(net, i) && env.datagram.Some? && env.hook == Continue && env.sendOk
    requires Answers(net.eps[i], env.datagram.value, OFFER, server)
    ensures WaitsForAck(Asked(cfg, net, i, env), i, net.eps[i], server, terms)
    ensures Follows(cfg, terms, net.eps[i].terms, Options(env.datagram.value))
    ensures var d := env.datagram.value;
      Asked(cfg, net, i, env).log == net.log + [Offer(i, d), Request(i, YourAddress(d), server)]
  {
    OfferIsAccepted(cfg, net.eps[i], i, env, server);
    hide OfferStep, AckStep, Answers, DiscoverAgain, RequestAgain, SharedSocket.Create, SharedSocket.Close, Follows;
    var r := OfferStep(cfg, net.eps[i], i, true, env);
    terms := r.ep.terms;
    assert Step(cfg, net, Cycle(i, false, true, env)) == Finish(net, i, net.sockets, r);
  }

  lemma AckIsTaken(cfg: Config, net: Net, i: nat, ep: EndPoint, env: Env, server: UInt32, terms: Terms)
    requires WaitsForAck(net, i, ep, server, terms)
    requires env.datagram.Some? && Answers(ep, env.datagram.value, ACK, server)
    ensures SettledBy(cfg, Step(cfg, net, Cycle(i, false, true, env)).eps[i], terms, env.datagram.value)
  {
    SameAnswer(ep, net.eps[i], env.datagram.value, ACK, server);
    AckIsAccepted(cfg, net.eps[i], env);
    hide OfferStep, AckStep, Answers, DiscoverAgain, RequestAgain, SharedSocket.Create, SharedSocket.Close, SettledBy;
  }

  /** The way to a lease: an end-point that waits for an offer and gets one, asks its server, and
      then, whatever other end-points do in the meantime, gets that server's acknowledgement, is
      leased the acknowledged address on the terms that the acknowledgement carries, or the offer
      where the acknowledgement is silent. */
  lemma {:induction false} OfferAndAckLease(
    cfg: Config, net: Net, i: nat, offer: Env, others: seq<Event>, ack: Env, server: UInt32)
    requires WaitsForOffer(net, i) && offer.datagram.Some? && offer.hook == Continue && offer.sendOk
    requires Answers(net.eps[i], offer.datagram.value, OFFER, server)
    requires forall n :: 0 <= n < |others| ==> others[n].i != i
    requires ack.datagram.Some? && Answers(net.eps[i], ack.datagram.value, ACK, server)
    ensures var d := offer.datagram.value;
      Asked(cfg, net, i, offer).log == net.log + [Offer(i, d), Request(i, YourAddress(d), server)]
    ensures var ep := Step(cfg, Run(cfg, Asked(cfg, net, i, offer), others), Cycle(i, false, true, ack)).eps[i];
      exists terms :: Follows(cfg, terms, net.eps[i].terms, Options(offer.datagram.value)) &&
                      SettledBy(cfg, ep, terms, ack.datagram.value)
  {
    hide Answers, Run, Step, Asked, Follows, SettledBy;
    var terms := OfferIsTaken(cfg, net, i, offer, server);
    OthersRun(cfg, Asked(cfg, net, i, offer), others, i);
    AckIsTaken(cfg, Run(cfg, Asked(cfg, net, i, offer), others), i, net.eps[i], ack, server, terms);
  }

  lemma SameAnswer(ep: EndPoint, ep': EndPoint, d: Bytes, kind: Byte, server: UInt32)
    requires Answers(ep, d, kind, server) && ep'.xid == ep.xid && ep'.mac == ep.mac
    ensures Answers(ep', d, kind, server)
  {
  }
}
