/** What received ARP frames may do to the cache. */
module ArpFrames {
  import opened Common
  import opened ArpTable
  import opened ArpCache

  const ARP_REQUEST := 1
  const ARP_REPLY := 2
  const BROADCAST_MAC: Mac := 0xFFFF_FFFF_FFFF

  /** `wellFormed`: Ethernet hardware type, IPv4 protocol type, lengths 6 and 4. */
  datatype Frame = Frame(
    wellFormed: bool, operation: UInt16,
    senderMac: Mac, senderIp: Ip, targetMac: Mac, targetIp: Ip)

  datatype EndPoint = EndPoint(id: EndPointId, ip: Ip, netMask: Ip, mac: Mac, up: bool)

  /** The answers of the routing layer, which is not part of this model. */
  datatype Routing = Routing(
    onNetMask: Ip -> Option<EndPointId>,
    withIp: Ip -> Option<EndPoint>,
    isBroadcast: Ip -> bool,
    broadcastOn: Ip -> Option<EndPointId>,
    firstEndPoint: Option<EndPointId>,
    gateway: Option<(EndPointId, Ip)>)

  predicate IsGroupMac(mac: Mac) { (mac / 0x100_0000_0000) % 2 == 1 }

  predicate IsLoopback(ip: Ip) { 0x7F00_0000 <= ip < 0x8000_0000 }

  predicate IsMulticast(ip: Ip) { 0xE000_0000 <= ip < 0xF000_0000 }

  function MulticastMac(ip: Ip): Mac { 0x0100_5E00_0000 + ip % 0x80_0000 }

  predicate SameSubnet(a: Ip, b: Ip, mask: Ip) {
    BitAnd(a, mask) == BitAnd(b, mask)
  }

  /** The resolution of an address, and the address that was really looked up: it
      becomes the gateway's when no end-point shares the subnet. */
  function GetCacheEntry(t: Table, r: Routing, ip: Ip): (Resolution, Ip) {
    if IsLoopback(ip) then
      match r.withIp(ip)
      case Some(e) => (Hit(e.mac, Some(e.id)), ip)
      case None => (Unresolved, ip)
    else if IsMulticast(ip) then
      (if r.firstEndPoint.Some? then Hit(MulticastMac(ip), r.firstEndPoint) else Unresolved, ip)
    else if r.isBroadcast(ip) then (Hit(BROADCAST_MAC, r.broadcastOn(ip)), ip)
    else
      var target := if r.onNetMask(ip).Some? then ip
                    else if r.gateway.Some? then r.gateway.value.1 else 0;
      if target == 0 then (Unresolved, ip) else (Lookup(t, target), target)
  }

  /** The frame is not dropped before its operation is looked at. */
  predicate Accepted(f: Frame, e: EndPoint) {
    f.wellFormed && !IsGroupMac(f.senderMac) && !IsLoopback(f.senderIp) && f.senderIp != e.ip && e.up
  }

  /** A gratuitous request of another host on the end-point's subnet. */
  predicate IsGratuitous(f: Frame, e: EndPoint) {
    && f.operation == ARP_REQUEST && f.targetIp != e.ip && f.senderIp == f.targetIp
    && SameSubnet(f.senderIp, e.ip, e.netMask)
    && (f.targetMac == BROADCAST_MAC || f.targetMac == 0) && e.mac != f.senderMac
  }

  /** The address that the frame binds to its sender's MAC, if any. */
  function BoundAddress(t: Table, r: Routing, f: Frame, e: EndPoint): Option<Ip> {
    if !Accepted(f, e) then None
    else if f.operation == ARP_REQUEST && f.targetIp == e.ip then
      if e.mac != f.senderMac then Some(f.senderIp) else None
    else if IsGratuitous(f, e) then
      var (found, ip) := GetCacheEntry(t, r, f.senderIp);
      if found.Hit? && found.endPoint == Some(e.id) then Some(ip) else None
    else if f.operation == ARP_REPLY then
      if f.targetIp == e.ip || Lookup(t, f.senderIp).Hit? then Some(f.senderIp) else None
    else None
  }

  function FrameEvent(t: Table, r: Routing, f: Frame, e: EndPoint): Option<Event> {
    match BoundAddress(t, r, f, e)
    case None => None
    case Some(ip) => Some(Refresh(Some(f.senderMac), ip, Some(e.id), r.onNetMask(ip).Some?))
  }

  function AfterFrame(c: Config, t: Table, r: Routing, f: Frame, ep: Option<EndPoint>): (t': Table)
    requires t != []
    ensures |t'| == |t|
  {
    if ep.None? || FrameEvent(t, r, f, ep.value).None? then t
    else Step(c, t, FrameEvent(t, r, f, ep.value).value)
  }

  /** Handles a received frame in place; a request for the end-point's own address is
      answered in the same frame. */
  method ProcessPacket(cache: Cache, r: Routing, f: Frame, ep: Option<EndPoint>) returns (reply: Option<Frame>)
    requires cache.Valid()
    modifies cache.rows
    ensures cache.Valid()
    ensures cache.rows[..] == AfterFrame(cache.config, old(cache.rows[..]), r, f, ep)
    ensures reply.Some? <==> ep.Some? && Accepted(f, ep.value) && f.operation == ARP_REQUEST
                             && f.targetIp == ep.value.ip && f.senderMac != ep.value.mac
    ensures reply.Some? ==>
      reply.value == Frame(true, ARP_REPLY, ep.value.mac, ep.value.ip, f.senderMac, f.senderIp)
  {
    reply := None;
    if f.wellFormed {
      if IsGroupMac(f.senderMac) || IsLoopback(f.senderIp) {
        return;
      }
      if ep.Some? && f.senderIp == ep.value.ip {
        return;
      }
      if ep.Some? && ep.value.up {
        var e := ep.value;
        if f.operation == ARP_REQUEST {
          if f.targetIp == e.ip {
            if e.mac != f.senderMac {
              cache.RefreshCacheEntry(Some(f.senderMac), f.senderIp, Some(e.id), r.onNetMask(f.senderIp).Some?);
              reply := Some(f.(operation := ARP_REPLY, targetMac := f.senderMac, targetIp := f.senderIp,
                               senderMac := e.mac, senderIp := e.ip));
            }
          } else if f.senderIp == f.targetIp && SameSubnet(f.senderIp, e.ip, e.netMask) {
            if (f.targetMac == BROADCAST_MAC || f.targetMac == 0) && e.mac != f.senderMac {
              var (found, ip) := GetCacheEntry(cache.rows[..], r, f.senderIp);
              if found.Hit? && found.endPoint == Some(e.id) {
                cache.RefreshCacheEntry(Some(f.senderMac), ip, Some(e.id), r.onNetMask(ip).Some?);
              }
            }
          }
        } else if f.operation == ARP_REPLY {
          var known := cache.IsIpInCache(f.senderIp);
          if f.targetIp == e.ip || known {
            cache.RefreshCacheEntry(Some(f.senderMac), f.senderIp, Some(e.id), r.onNetMask(f.senderIp).Some?);
          }
        }
      }
    }
  }

  // ------------------------------------------------------------- the theorem

  /** The one way in which a frame for somebody else adds an address: a gratuitous
      request whose sender address is a group or broadcast address of the end-point,
      because such an address always resolves. */
  predicate Introduces(t: Table, r: Routing, f: Frame, e: EndPoint) {
    && Accepted(f, e) && IsGratuitous(f, e)
    && (if IsMulticast(f.senderIp) then r.firstEndPoint == Some(e.id)
        else r.isBroadcast(f.senderIp) && r.broadcastOn(f.senderIp) == Some(e.id))
    && r.onNetMask(f.senderIp).Some? && f.senderIp != 0 && First(t, ByIp(f.senderIp)) < 0
  }

  // Refreshing an address can only add that address.
  lemma RefreshAddsOnly(c: Config, t: Table, m: Mac, ip: Ip, ep: Option<EndPointId>, local: bool)
    requires t != [] && Injective(t)
    ensures var t' := Step(c, t, Refresh(Some(m), ip, ep, local));
      && Addresses(t') <= Addresses(t) + {ip}
      && (ip != 0 && local ==> ip in Addresses(t'))
  {
    var t' := Step(c, t, Refresh(Some(m), ip, ep, local));
    forall a | a in Addresses(t')
      ensures a in Addresses(t) + {ip}
    {
      var i :| 0 <= i < |t'| && t'[i].ip == a && a != 0;
      assert t'[i].ip == ip || t'[i] == t[i];
    }
    if ip != 0 && local {
      RefreshRows(c, t, m, ip, ep);
      assert t'[Slot(t, m, ip)].ip == ip;
    }
  }

  // A frame whose target is not the end-point's own address brings a new address into
  // the cache exactly in the case `Introduces`.
  lemma ForeignFrameAddsIff(c: Config, t: Table, r: Routing, f: Frame, e: EndPoint)
    requires t != [] && Injective(t) && f.targetIp != e.ip
    ensures Addresses(AfterFrame(c, t, r, f, Some(e))) <= Addresses(t) <==> !Introduces(t, r, f, e)
  {
    var bound := BoundAddress(t, r, f, e);
    if bound.Some? {
      var ip := bound.value;
      RefreshAddsOnly(c, t, f.senderMac, ip, Some(e.id), r.onNetMask(ip).Some?);
      if First(t, ByIp(ip)) >= 0 && ip != 0 {
        assert t[First(t, ByIp(ip))].ip in Addresses(t);
      }
    }
  }

  // Hence a frame from a host with a unicast address never adds one.
  lemma UnicastForeignFrameAddsNothing(c: Config, t: Table, r: Routing, f: Frame, e: EndPoint)
    requires t != [] && Injective(t) && f.targetIp != e.ip
    requires !IsMulticast(f.senderIp) && !r.isBroadcast(f.senderIp)
    ensures Addresses(AfterFrame(c, t, r, f, Some(e))) <= Addresses(t)
  {
    ForeignFrameAddsIff(c, t, r, f, e);
  }

  /** `a` and `b` differ only where the mask ends in zero bits. */
  predicate AgreeAbove(a: nat, b: nat, mask: nat)
    decreases a + b
  {
    a == b || (mask % 2 == 0 && AgreeAbove(a / 2, b / 2, mask / 2))
  }

  lemma {:induction false} AgreeAboveIsSameSubnet(a: nat, b: nat, mask: nat)
    requires AgreeAbove(a, b, mask)
    ensures BitAnd(a, mask) == BitAnd(b, mask)
    decreases a + b
  {
    if a != b {
      AgreeAboveIsSameSubnet(a / 2, b / 2, mask / 2);
    }
  }

  // The broadcast address of the end-point's own subnet is such an address.
  lemma BroadcastAddressIsAdded(c: Config, t: Table, r: Routing, e: EndPoint, broadcast: Ip)
    requires t != [] && Injective(t) && First(t, ByIp(broadcast)) < 0
    requires e.up && e.mac != 2 && broadcast != 0 && broadcast != e.ip
    requires AgreeAbove(broadcast, e.ip, e.netMask) && !IsLoopback(broadcast) && !IsMulticast(broadcast)
    requires r.isBroadcast(broadcast) && r.broadcastOn(broadcast) == r.onNetMask(broadcast) == Some(e.id)
    ensures var f := Frame(true, ARP_REQUEST, 2, broadcast, 0, broadcast);
      !(Addresses(AfterFrame(c, t, r, f, Some(e))) <= Addresses(t))
  {
    var f := Frame(true, ARP_REQUEST, 2, broadcast, 0, broadcast);
    AgreeAboveIsSameSubnet(broadcast, e.ip, e.netMask);
    ForeignFrameAddsIff(c, t, r, f, e);
  }

  // For example 192.168.1.255 for the end-point 192.168.1.2/24.
  lemma ExampleBroadcast()
    ensures AgreeAbove(0xC0A8_01FF, 0xC0A8_0102, 0xFFFF_FF00)
    ensures !IsLoopback(0xC0A8_01FF) && !IsMulticast(0xC0A8_01FF)
  {
  }

  lemma ExampleBroadcastIsAdded(c: Config, t: Table, r: Routing, e: EndPoint)
    requires t != [] && Injective(t) && First(t, ByIp(0xC0A8_01FF)) < 0
    requires e.up && e.mac != 2 && e.ip == 0xC0A8_0102 && e.netMask == 0xFFFF_FF00
    requires r.isBroadcast(0xC0A8_01FF)
    requires r.broadcastOn(0xC0A8_01FF) == r.onNetMask(0xC0A8_01FF) == Some(e.id)
    ensures var f := Frame(true, ARP_REQUEST, 2, 0xC0A8_01FF, 0, 0xC0A8_01FF);
      !(Addresses(AfterFrame(c, t, r, f, Some(e))) <= Addresses(t))
  {
    hide AgreeAbove, IsLoopback, IsMulticast, AfterFrame, Addresses;
    ExampleBroadcast();
    BroadcastAddressIsAdded(c, t, r, e, 0xC0A8_01FF);
  }

  // --------------------------------------------------- frames for the end-point

  /** Ethernet and IPv4, from a single host that is neither this one nor on the loop-back net, while
      the end-point is up. */
  predicate FromHost(f: Frame, e: EndPoint) {
    && f.wellFormed && e.up && f.senderIp != e.ip
    && f.senderMac / 0x100_0000_0000 % 2 == 0 && f.senderIp / 0x100_0000 != 127
  }

  lemma FromHostIff(f: Frame, e: EndPoint)
    ensures Accepted(f, e) <==> FromHost(f, e)
  {
  }

  /** A request (1) for the end-point's address, not sent by itself, or a reply (2) to it. */
  predicate MeantFor(f: Frame, e: EndPoint) {
    FromHost(f, e) && f.targetIp == e.ip && (f.operation == 2 || (f.operation == 1 && f.senderMac != e.mac))
  }

  // A frame meant for the end-point, from an address on a local subnet, is learned whatever the
  // cache holds: the address resolves to its sender. At most the address in the slot written is lost.
  lemma OwnFrameIsLearned(c: Config, t: Table, r: Routing, f: Frame, e: EndPoint)
    requires t != [] && Injective(t) && MeantFor(f, e) && f.senderIp != 0 && r.onNetMask(f.senderIp).Some?
    ensures var t' := AfterFrame(c, t, r, f, Some(e));
      && Lookup(t', f.senderIp) == Hit(f.senderMac, Some(e.id))
      && View(t') == (View(t) - {t[Slot(t, f.senderMac, f.senderIp)].ip})[f.senderIp := Hit(f.senderMac, Some(e.id))]
  {
    FromHostIff(f, e);
    hide IsGroupMac, IsLoopback, GetCacheEntry, SameSubnet;
    var t' := AfterFrame(c, t, r, f, Some(e));
    assert t' == Refreshed(c, t, Some(f.senderMac), f.senderIp, Some(e.id));
    RefreshUpdatesMap(c, t, f.senderMac, f.senderIp, Some(e.id));
    hide Refreshed, AfterFrame;
    ViewIsLookup(t', f.senderIp);
  }

  // In particular an unanswered request is resolved by its answer.
  lemma AnswerResolves(c: Config, t: Table, r: Routing, f: Frame, e: EndPoint, ip: Ip)
    requires t != [] && Injective(t) && ip != 0 && Lookup(t, ip) == Miss && r.onNetMask(ip).Some?
    requires FromHost(f, e) && f.operation == 2 && f.senderIp == ip && f.targetIp == e.ip
    ensures var asked := Step(c, t, Refresh(None, ip, None, true));
      Lookup(asked, ip) == Unresolved && Lookup(AfterFrame(c, asked, r, f, Some(e)), ip) == Hit(f.senderMac, Some(e.id))
  {
    var asked := Step(c, t, Refresh(None, ip, None, true));
    StepKeepsInjective(c, t, Refresh(None, ip, None, true));
    ReserveSetsRow(c, t, ip, None);
    hide AfterFrame, View;
    OwnFrameIsLearned(c, asked, r, f, e);
  }

  // ------------------------------------------------------- exactly when and what

  /** What an address resolves to: a multicast or broadcast address by the end-point for it, a local
      one by its own entry, any other by the entry of the gateway. */
  ghost predicate ResolvesOn(t: Table, r: Routing, a: Ip, id: EndPointId, looked: Ip) {
    if a / 0x1000_0000 == 14 then looked == a && r.firstEndPoint == Some(id)
    else if r.isBroadcast(a) then looked == a && r.broadcastOn(a) == Some(id)
    else
      && looked != 0
      && (if r.onNetMask(a).Some? then looked == a else r.gateway.Some? && looked == r.gateway.value.1)
      && exists mac :: Lookup(t, looked) == Hit(mac, Some(id))
  }

  lemma GetCacheEntryIs(t: Table, r: Routing, a: Ip, id: EndPointId, looked: Ip)
    requires a / 0x100_0000 != 127
    ensures var (found, ip) := GetCacheEntry(t, r, a);
      ResolvesOn(t, r, a, id, looked) <==> found.Hit? && found.endPoint == Some(id) && ip == looked
  {
    hide Lookup;
    var (found, ip) := GetCacheEntry(t, r, a);
    if found.Hit? && found.endPoint == Some(id) {
      assert found == Hit(found.mac, Some(id));
    }
  }

  /** The frame teaches the cache the address `ip`: one meant for the end-point its sender; a reply to
      somebody else the same if the sender is resolved already; and a gratuitous request from the
      end-point's subnet what its sender resolves to, if it does on this end-point. */
  ghost predicate Teaches(t: Table, r: Routing, f: Frame, e: EndPoint, ip: Ip) {
    && FromHost(f, e) && r.onNetMask(ip).Some?
    && (|| (MeantFor(f, e) && ip == f.senderIp)
        || (f.operation == 2 && ip == f.senderIp && exists m, id :: Lookup(t, ip) == Hit(m, id))
        || (&& f.operation == 1 && f.senderIp == f.targetIp && f.senderMac != e.mac
            && (f.targetMac == 0xFFFF_FFFF_FFFF || f.targetMac == 0)
            && BitAnd(f.senderIp, e.netMask) == BitAnd(e.ip, e.netMask) && ResolvesOn(t, r, f.senderIp, e.id, ip)))
  }

  lemma TeachesIff(t: Table, r: Routing, f: Frame, e: EndPoint, ip: Ip)
    ensures Teaches(t, r, f, e, ip) <==> BoundAddress(t, r, f, e) == Some(ip) && r.onNetMask(ip).Some?
  {
    FromHostIff(f, e);
    KnownIff(t, f.senderIp);
    hide IsGroupMac, IsLoopback, GetCacheEntry, Lookup, BitAnd, ResolvesOn;
    if FromHost(f, e) {
      GetCacheEntryIs(t, r, f.senderIp, e.id, ip);
    }
  }

  lemma KnownIff(t: Table, ip: Ip)
    ensures Lookup(t, ip).Hit? <==> exists m, id :: Lookup(t, ip) == Hit(m, id)
  {
    hide Lookup;
    if Lookup(t, ip).Hit? {
      assert Lookup(t, ip) == Hit(Lookup(t, ip).mac, Lookup(t, ip).endPoint);
    }
  }

  /** Some row is already all that a refresh would make of it. */
  predicate IsFresh(c: Config, t: Table, m: Mac, ip: Ip, id: EndPointId) {
    var x := First(t, ByBoth(ip, m));
    x >= 0 && t[x] == Row(ip, m, c.maxAge, true, Some(id))
  }

  lemma RefreshChangesIff(c: Config, t: Table, m: Mac, ip: Ip, id: EndPointId)
    requires t != []
    ensures Refreshed(c, t, Some(m), ip, Some(id)) != t <==> !IsFresh(c, t, m, ip, id)
  {
    var t', x := Refreshed(c, t, Some(m), ip, Some(id)), Slot(t, m, ip);
    assert t'[x] == Row(ip, m, c.maxAge, true, Some(id));
    if First(t, ByBoth(ip, m)) < 0 {
      assert !Matches(t[x], ByBoth(ip, m));
    }
  }

  /** For every frame: the cache changes exactly if the frame teaches some address and the row for it
      is not all that already; and what it teaches is that address with the sender's MAC address. */
  lemma FrameChangesIff(c: Config, t: Table, r: Routing, f: Frame, e: EndPoint)
    requires t != []
    ensures AfterFrame(c, t, r, f, Some(e)) != t <==>
      exists ip :: Teaches(t, r, f, e, ip) && !IsFresh(c, t, f.senderMac, ip, e.id)
    ensures forall ip :: Teaches(t, r, f, e, ip) ==>
      AfterFrame(c, t, r, f, Some(e)) == Refreshed(c, t, Some(f.senderMac), ip, Some(e.id))
  {
    hide Teaches, BoundAddress, IsFresh, Refreshed;
    forall ip: Ip
      ensures Teaches(t, r, f, e, ip) <==> BoundAddress(t, r, f, e) == Some(ip) && r.onNetMask(ip).Some?
    {
      TeachesIff(t, r, f, e, ip);
    }
    if BoundAddress(t, r, f, e).Some? {
      RefreshChangesIff(c, t, f.senderMac, BoundAddress(t, r, f, e).value, e.id);
    }
  }

  // The group address of a multicast address: 01:00:5e and its low 23 bits.
  lemma MulticastMacIs(ip: Ip)
    ensures MulticastMac(ip) / 0x100_0000 == 0x01_005E && MulticastMac(ip) % 0x100_0000 == ip % 0x80_0000
  {
  }
}
