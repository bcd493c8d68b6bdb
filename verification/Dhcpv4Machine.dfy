/** The DHCPv4 lease machine of all end-points: one step for each event, and what every run
    keeps. */
module Dhcpv4Machine {
  import opened Common
  import opened BitCursor
  import opened Dhcpv4Options
  import SharedSocket

  const HEADER_SIZE: nat := 240
  const COOKIE: Bytes := [0x63, 0x82, 0x53, 0x63]

  datatype State =
    | InitialWait | FirstDiscover | WaitingOffer | WaitingAck | SendRequest | Leased | NotUsingLeased

  datatype Defaults = Defaults(
    ip: UInt32, netMask: UInt32, gateway: UInt32, dns: seq<UInt32>, broadcast: UInt32)

  datatype EndPoint = EndPoint(
    state: State, expected: State, mac: Bytes, xid: UInt32, offered: UInt32, terms: Terms,
    txTime: UInt32, txPeriod: UInt32, useBroadcast: bool,
    ip: UInt32, broadcast: UInt32, defaults: Defaults)

  /** What can be observed of a run: the messages sent and the offers accepted. */
  datatype Note =
    | Discover(from: nat)
    | Request(from: nat, address: UInt32, server: UInt32)
    | Offer(to: nat, datagram: Bytes)

  datatype Net = Net(eps: seq<EndPoint>, sockets: SharedSocket.Sockets, log: seq<Note>)

  ghost predicate Valid(net: Net) {
    |net.sockets.holders| == |net.eps| && SharedSocket.Balanced(net.sockets)
  }

  datatype Answer = Continue | UseDefaults | StopNoChanges

  /** What a step finds in its environment. */
  datatype Env = Env(
    tick: UInt32, random: Option<UInt32>, sendOk: bool, socketOk: bool, bindOk: bool,
    datagram: Option<Bytes>, hook: Answer, isUp: bool)

  // -------------------------------------------------------------- datagrams

  function Xid(d: Bytes): UInt32 requires |d| >= HEADER_SIZE { Value32(d[4..8]) }

  function YourAddress(d: Bytes): UInt32 requires |d| >= HEADER_SIZE { Value32(d[16..20]) }

  function HardwareAddress(d: Bytes): Bytes requires |d| >= HEADER_SIZE { d[28..34] }

  function Options(d: Bytes): seq<Item> requires |d| >= HEADER_SIZE { Items(d[HEADER_SIZE..]) }

  predicate IsReply(d: Bytes) {
    |d| >= HEADER_SIZE && d[236..240] == COOKIE && d[0] == 2
  }

  /** The sanity checks on a reply; the last two refuse a broadcast and a loop-back address. */
  predicate ValidResponse(d: Bytes) {
    IsReply(d) && d[1] == 1 && d[2] == 6 && d[19] != 0xFF && d[16] % 0x80 != 0x7F
  }

  predicate Addressed(ep: EndPoint, d: Bytes) {
    ValidResponse(d) && Xid(d) == ep.xid && HardwareAddress(d) == ep.mac
  }

  datatype Examined = Examined(ep: EndPoint, pass: bool)

  function Examine(cfg: Config, expected: Byte, ep: EndPoint, datagram: Option<Bytes>): Examined {
    if datagram.None? || !Addressed(ep, datagram.value) then Examined(ep, false)
    else
      var d := datagram.value;
      var p := Process(cfg, expected, Progress(ep.terms.(refused := false), 0), Options(d));
      var ep1 := ep.(terms := p.terms.(refused := false));
      var ep2 := if p.terms.refused then ep1.(state := InitialWait, expected := InitialWait) else ep1;
      if Passes(p) then Examined(ep2.(offered := YourAddress(d)), true) else Examined(ep2, false)
  }

  // ----------------------------------------------------- one end-point's step

  /** The end-point after a step, what it did, and whether it returns its share of the socket
      or gives up altogether. */
  datatype Reaction = Reaction(ep: EndPoint, notes: seq<Note>, release: bool, giveUp: bool)

  function Stay(ep: EndPoint): Reaction { Reaction(ep, [], false, false) }

  function WithDefaults(ep: EndPoint): EndPoint {
    var d := ep.defaults;
    ep.(ip := d.ip, broadcast := d.broadcast,
        terms := ep.terms.(netMask := d.netMask, gateway := d.gateway, dns := d.dns))
  }

  function Declined(ep: EndPoint, hook: Answer): Reaction {
    Reaction(if hook == UseDefaults then WithDefaults(ep) else ep, [], false, true)
  }

  function TimedOut(ep: EndPoint, tick: UInt32): bool {
    (tick - ep.txTime) % TWO_32 > ep.txPeriod
  }

  function Doubled(period: UInt32): UInt32 { (2 * period) % TWO_32 }

  function RequestOf(i: nat, ep: EndPoint): Note { Request(i, ep.offered, ep.terms.server) }

  function FirstDiscoverStep(ep: EndPoint, i: nat, hasSocket: bool, env: Env): Reaction {
    if env.hook != Continue then Declined(ep, env.hook)
    else if !hasSocket then Reaction(ep, [], false, true)
    else
      var ep1 := ep.(ip := 0, txTime := env.tick);
      if env.sendOk then Reaction(ep1.(state := WaitingOffer), [Discover(i)], false, false) else Stay(ep1)
  }

  function SendRequestStep(cfg: Config, ep: EndPoint, i: nat, hasSocket: bool, env: Env): Reaction {
    if hasSocket && env.sendOk then
      Reaction(ep.(txTime := env.tick, txPeriod := cfg.initialPeriod, state := WaitingAck),
               [RequestOf(i, ep)], false, false)
    else Stay(ep)
  }

  function OfferStep(cfg: Config, ep: EndPoint, i: nat, hasSocket: bool, env: Env): Reaction {
    var x := Examine(cfg, OFFER, ep, if hasSocket then env.datagram else None);
    if !x.pass then Stay(x.ep)
    else if env.hook != Continue then Declined(x.ep, env.hook)
    else
      var offer := if env.datagram.Some? then [Offer(i, env.datagram.value)] else [];
      if hasSocket && env.sendOk then
        Reaction(x.ep.(txTime := env.tick, txPeriod := cfg.initialPeriod, state := WaitingAck),
                 offer + [RequestOf(i, x.ep)], false, false)
      else Reaction(x.ep.(state := SendRequest), offer, false, false)
  }

  function DiscoverAgain(cfg: Config, ep: EndPoint, i: nat, hasSocket: bool, env: Env): Reaction {
    if !TimedOut(ep, env.tick) then Stay(ep)
    else
      var ep1 := ep.(txPeriod := Doubled(ep.txPeriod));
      if ep1.txPeriod > cfg.maximumPeriod then Reaction(ep1, [], false, true)
      else if env.random.None? then Stay(ep1)
      else
        var ep2 := ep1.(xid := env.random.value, txTime := env.tick, useBroadcast := !ep.useBroadcast);
        if hasSocket && env.sendOk then Reaction(ep2, [Discover(i)], false, false)
        else Stay(ep2.(state := InitialWait))
  }

  function WithLeaseTime(cfg: Config, t: Terms): Terms {
    if t.leaseTime == 0 then t.(leaseTime := cfg.defaultLease)
    else if t.leaseTime < cfg.minimumLease then t.(leaseTime := cfg.minimumLease)
    else t
  }

  function AckStep(cfg: Config, ep: EndPoint, hasSocket: bool, env: Env): Reaction {
    var x := Examine(cfg, ACK, ep, if hasSocket then env.datagram else None);
    if !x.pass then Stay(x.ep)
    else
      Reaction(
        x.ep.(ip := x.ep.offered, broadcast := BroadcastOf(x.ep.offered, x.ep.terms.netMask),
              state := Leased, terms := WithLeaseTime(cfg, x.ep.terms)),
        [], true, false)
  }

  function RequestAgain(cfg: Config, ep: EndPoint, i: nat, hasSocket: bool, env: Env): Reaction {
    if !TimedOut(ep, env.tick) then Stay(ep)
    else
      var ep1 := ep.(txPeriod := Doubled(ep.txPeriod));
      if ep1.txPeriod > cfg.maximumPeriod then Stay(ep1.(state := InitialWait, expected := InitialWait))
      else
        var ep2 := ep1.(txTime := env.tick);
        if hasSocket && env.sendOk then Reaction(ep2, [RequestOf(i, ep2)], false, false)
        else Stay(ep2.(state := SendRequest))
  }

  /** The address with all host bits set. */
  function BroadcastOf(address: UInt32, mask: UInt32): UInt32 {
    OrNotIsWord(address, mask, 32);
    OrNot(address, mask, 32)
  }

  lemma {:induction false} OrNotIsWord(a: nat, m: nat, width: nat)
    ensures OrNot(a, m, width) < Power(width)
    ensures Power(32) == TWO_32
  {
    if width > 0 {
      OrNotIsWord(a / 2, m / 2, width - 1);
    }
    PowerIsWord();
  }

  /** Bit by bit: set where the address has it, and everywhere outside the mask. */
  lemma {:induction false} OrNotBit(a: nat, m: nat, width: nat, k: nat)
    requires k < width
    ensures Bit(OrNot(a, m, width), k) == if Bit(a, k) == 1 || Bit(m, k) == 0 then 1 else 0
  {
    var rest := OrNot(a / 2, m / 2, width - 1);
    assert OrNot(a, m, width) / 2 == rest;
    if k > 0 {
      OrNotBit(a / 2, m / 2, width - 1, k - 1);
    }
  }

  function Power(k: nat): nat { if k == 0 then 1 else 2 * Power(k - 1) }

  lemma PowerIsWord()
    ensures Power(32) == TWO_32
  {
    assert Power(8) == 0x100;
    assert Power(16) == 0x1_0000;
    assert Power(24) == 0x100_0000;
  }

  function InitialiseStep(cfg: Config, ep: EndPoint, env: Env): EndPoint {
    var ep1 := ep.(state := FirstDiscover);
    match env.random
    case None => ep1
    case Some(id) =>
      ep1.(xid := id, useBroadcast := false, offered := 0, terms := ep.terms.(server := 0),
           txPeriod := cfg.initialPeriod)
  }

  function RenewStep(cfg: Config, ep: EndPoint, i: nat, env: Env): Reaction {
    var ep1 := ep.(txTime := env.tick, txPeriod := cfg.initialPeriod,
                   xid := if env.random.Some? then env.random.value else ep.xid);
    if env.sendOk then Reaction(ep1.(state := WaitingAck), [RequestOf(i, ep1)], false, false)
    else Stay(ep1.(state := SendRequest))
  }

  function React(cfg: Config, ep: EndPoint, i: nat, hasSocket: bool, check: bool, env: Env): Reaction
  {
    match ep.state
    case FirstDiscover => FirstDiscoverStep(ep, i, hasSocket, env)
    case SendRequest => SendRequestStep(cfg, ep, i, hasSocket, env)
    case WaitingOffer =>
      if check then OfferStep(cfg, ep, i, hasSocket, env) else DiscoverAgain(cfg, ep, i, hasSocket, env)
    case WaitingAck =>
      if check then AckStep(cfg, ep, hasSocket, env) else RequestAgain(cfg, ep, i, hasSocket, env)
    case _ => Stay(ep)
  }

  // ---------------------------------------------------------------- all of it

  function Finish(net: Net, i: nat, sockets: SharedSocket.Sockets, r: Reaction): Net
    requires i < |net.eps| && |sockets.holders| == |net.eps|
  {
    Net(
      net.eps[i := if r.giveUp then r.ep.(ip := r.ep.defaults.ip, state := NotUsingLeased) else r.ep],
      if r.release || r.giveUp then SharedSocket.Close(sockets, i) else sockets,
      net.log + r.notes)
  }

  function Cycled(cfg: Config, net: Net, i: nat, check: bool, env: Env): Net
    requires i < |net.eps| && |net.sockets.holders| == |net.eps|
  {
    var ep := net.eps[i];
    if ep.state == InitialWait then
      Finish(net, i,
        if env.random.Some? then SharedSocket.Create(net.sockets, i, env.socketOk, env.bindOk) else net.sockets,
        Stay(InitialiseStep(cfg, ep, env)))
    else if ep.state == Leased then
      if !env.isUp then net
      else
        var sockets := SharedSocket.Create(net.sockets, i, env.socketOk, env.bindOk);
        Finish(net, i, sockets, if sockets.holders[i].Some? then RenewStep(cfg, ep, i, env) else Stay(ep))
    else Finish(net, i, net.sockets, React(cfg, ep, i, net.sockets.holders[i].Some?, check, env))
  }

  function Restarted(net: Net, i: nat): Net
    requires i < |net.eps|
  {
    net.(eps := net.eps[i := net.eps[i].(state := InitialWait)])
  }

  function ProcessEndPoint(cfg: Config, net: Net, i: nat, reset: bool, check: bool, env: Env): Net
    requires i < |net.eps| && |net.sockets.holders| == |net.eps|
  {
    if reset then Cycled(cfg, Restarted(net, i), i, check, env)
    else if net.eps[i].state != net.eps[i].expected then net
    else Cycled(cfg, net, i, check, env)
  }

  /** A step of the machine of one end-point, the end of its DHCP, a restart, or a change of the
      state in which the next event is expected. */
  datatype Event =
    | Cycle(i: nat, reset: bool, check: bool, env: Env)
    | Stop(i: nat)
    | Restart(i: nat)
    | Expect(i: nat, state: State)

  function Step(cfg: Config, net: Net, e: Event): (net': Net)
    requires |net.sockets.holders| == |net.eps|
    ensures |net'.sockets.holders| == |net'.eps| == |net.eps|
  {
    if e.i >= |net.eps| then net
    else match e
      case Cycle(i, reset, check, env) => ProcessEndPoint(cfg, net, i, reset, check, env)
      case Stop(i) => net.(sockets := SharedSocket.Close(net.sockets, i))
      case Restart(i) => Restarted(net, i)
      case Expect(i, s) => net.(eps := net.eps[i := net.eps[i].(expected := s)])
  }

  function Run(cfg: Config, net: Net, es: seq<Event>): (net': Net)
    requires |net.sockets.holders| == |net.eps|
    ensures |net'.sockets.holders| == |net'.eps| == |net.eps|
  {
    if es == [] then net else Step(cfg, Run(cfg, net, es[..|es| - 1]), es[|es| - 1])
  }
}
