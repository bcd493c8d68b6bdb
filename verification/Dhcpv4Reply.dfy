/** DHCPv4 replies as they are laid out in a datagram, and the lease that an offer and an
    acknowledgement in that layout lead to. */
module Dhcpv4Reply {
  import opened Common
  import opened BitCursor
  import opened Dhcpv4Options
  import opened Dhcpv4Terms
  import opened Dhcpv4Machine
  import opened Dhcpv4Lease

  /** A reply: `flags` stands for the seconds and the flags, `relays` for the next server and the
      relay agent, `names` for the rest of the hardware address field, the server name and the
      boot file name. */
  datatype Reply = Reply(
    hops: Byte, xid: UInt32, flags: Bytes, client: Bytes, yours: UInt32, relays: Bytes, mac: Bytes, names: Bytes,
    options: seq<Item>, junk: Bytes)

  predicate ValidReply(r: Reply) {
    && |r.flags| == 4 && |r.client| == 4 && |r.relays| == 8 && |r.mac| == 6 && |r.names| == 202
    && forall i :: 0 <= i < |r.options| ==> Encodable(r.options[i])
  }

  /** A number in network byte order. */
  function Network(n: UInt32): (bs: Bytes)
    ensures |bs| == 4
  {
    var v: int := n;
    [v / 0x100_0000, v / 0x1_0000 % 0x100, v / 0x100 % 0x100, v % 0x100]
  }

  lemma Shifts(v: int)
    requires v >= 0
    ensures v / 0x1_0000 == v / 0x100 / 0x100 && v / 0x100_0000 == v / 0x100 / 0x100 / 0x100
  {
  }

  lemma NetworkIsRead(n: UInt32)
    ensures Value32(Network(n)) == n && Address(Network(n), 0) == n
  {
    Shifts(n);
    assert Network(n) == U32(n);
    hide Network, U32, Value32, Address;
    U32RoundTrip(n);
    AddressIsRead(U32(n), 0);
    assert U32(n)[0..4] == U32(n);
  }

  /** The layout of section 2 of RFC 2131, with the magic cookie, the options and an end marker. */
  function Datagram(r: Reply): Bytes
    requires ValidReply(r)
  {
    [2, 1, 6, r.hops] + Network(r.xid) + r.flags + r.client + Network(r.yours) + r.relays + r.mac + r.names +
    [99, 130, 83, 99] + (Encode(r.options) + [255] + r.junk)
  }

  /** Neither a broadcast nor a loop-back address, as the client tests it. */
  predicate MayBeUsed(address: UInt32) {
    address % 0x100 != 0xFF && address / 0x100_0000 % 0x80 != 0x7F
  }

  lemma FieldsAt(r: Reply)
    requires ValidReply(r)
    ensures var d := Datagram(r);
      && |d| >= 240 && d[0] == 2 && d[1] == 1 && d[2] == 6
      && d[4..8] == Network(r.xid) && d[16..20] == Network(r.yours) && d[28..34] == r.mac
      && d[236..240] == [99, 130, 83, 99] && d[240..] == Encode(r.options) + [255] + r.junk
  {
    hide Network, Encode;
    var kind: Bytes, cookie: Bytes := [2, 1, 6, r.hops], [99, 130, 83, 99];
    var a := kind + Network(r.xid) + r.flags + r.client;
    var b := a + Network(r.yours) + r.relays;
    var c := b + r.mac + r.names;
    var options := Encode(r.options) + [255] + r.junk;
    var d := Datagram(r);
    assert d == c + cookie + options;
    hide Datagram;
    Middle(kind, Network(r.xid), r.flags + r.client);
    assert a == kind + Network(r.xid) + (r.flags + r.client);
    Middle(a, Network(r.yours), r.relays);
    Middle(b, r.mac, r.names);
    Middle(c, cookie, options);
    Prefix(b, r.mac + r.names, cookie + options);
    Prefix(a, Network(r.yours) + r.relays, r.mac + r.names + cookie + options);
    assert c == b + (r.mac + r.names) && d == c + (cookie + options);
    assert b == a + (Network(r.yours) + r.relays) && d == b + (r.mac + r.names + cookie + options);
    SameSlice(d, a, 4, 8);
    SameSlice(d, b, 16, 20);
    SameSlice(d, c, 28, 34);
    assert d[0] == kind[0] && d[1] == kind[1] && d[2] == kind[2];
  }

  lemma Middle(a: Bytes, b: Bytes, c: Bytes)
    ensures (a + b + c)[|a|..|a| + |b|] == b && (a + b + c)[|a| + |b|..] == c
  {
  }

  lemma Prefix(a: Bytes, b: Bytes, c: Bytes)
    ensures a <= a + b && a + b <= a + b + c
  {
  }

  lemma SameSlice(d: Bytes, a: Bytes, i: nat, j: nat)
    requires a <= d && i <= j <= |a|
    ensures d[i..j] == a[i..j]
  {
  }

  /** The client reads every field of the layout back. */
  lemma LayoutIsRead(r: Reply)
    requires ValidReply(r)
    ensures var d := Datagram(r);
      && |d| >= HEADER_SIZE && Xid(d) == r.xid && YourAddress(d) == r.yours && HardwareAddress(d) == r.mac
      && Options(d) == r.options && (ValidResponse(d) <==> MayBeUsed(r.yours))
  {
    var d := Datagram(r);
    FieldsAt(r);
    NetworkIsRead(r.xid);
    NetworkIsRead(r.yours);
    ItemsOfEncoded(r.options, r.junk);
    UsableBytes(d, r.yours);
    hide Datagram, Network, Value32, Items, Encode;
  }

  lemma UsableBytes(d: Bytes, address: UInt32)
    requires |d| >= 20 && d[16..20] == Network(address)
    ensures (d[19] != 0xFF && d[16] % 0x80 != 0x7F) <==> MayBeUsed(address)
  {
    assert d[16] == d[16..20][0] && d[19] == d[16..20][3];
  }

  // ---------------------------------------------------------------- its options

  /** The options name one message type and one server. */
  ghost predicate Names(options: seq<Item>, kind: Byte, server: UInt32) {
    && AtMostOnce(options, 53) && AtMostOnce(options, 54)
    && Item(53, kind, [kind]) in options && Item(54, Network(server)[0], Network(server)) in options
  }

  lemma {:induction false} ServerIsNamed(options: seq<Item>, server: UInt32)
    requires AtMostOnce(options, 54) && Item(54, Network(server)[0], Network(server)) in options
    ensures NamedServer(options) == Some(server)
  {
    hide Network;
    var it := Item(54, Network(server)[0], Network(server));
    if options[0] == it {
      NetworkIsRead(server);
      assert Network(server)[..4] == Network(server);
    } else {
      var i :| 0 < i < |options| && options[i] == it;
      assert options[0].code != 54;
      assert options[1..][i - 1] == it;
      ServerIsNamed(options[1..], server);
    }
  }

  /** A reply in this layout answers the end-point with its transaction and hardware address. */
  lemma ReplyAnswers(ep: EndPoint, r: Reply, kind: Byte, server: UInt32)
    requires ValidReply(r) && r.xid == ep.xid && r.mac == ep.mac && MayBeUsed(r.yours)
    requires Names(r.options, kind, server)
    ensures Answers(ep, Datagram(r), kind, server)
  {
    LayoutIsRead(r);
    ServerIsNamed(r.options, server);
    hide Datagram, Network, ValidResponse, Xid, HardwareAddress, YourAddress, NamedServer, AtMostOnce;
    var i :| 0 <= i < |r.options| && r.options[i] == Item(53, kind, [kind]);
    assert GoodType(r.options[i], kind);
  }

  // ------------------------------------------------------------------- the lease

  /** From datagrams to the lease: an offer (type 2) and the acknowledgement (type 5) of the server it
      names lead to a lease on the address, the mask, the gateway, the DNS servers and the lease
      time of the acknowledgement, or of the offer where the acknowledgement is silent. */
  lemma {:induction false} RepliesLease(
    cfg: Config, net: Net, i: nat, offer: Env, offered: Reply, others: seq<Event>, ack: Env, acked: Reply,
    server: UInt32)
    requires WaitsForOffer(net, i) && offer.hook == Continue && offer.sendOk
    requires ValidReply(offered) && Names(offered.options, 2, server)
    requires ValidReply(acked) && Names(acked.options, 5, server)
    requires offered.xid == acked.xid == net.eps[i].xid && offered.mac == acked.mac == net.eps[i].mac
    requires MayBeUsed(offered.yours) && MayBeUsed(acked.yours)
    requires offer.datagram == Some(Datagram(offered)) && ack.datagram == Some(Datagram(acked))
    requires forall n :: 0 <= n < |others| ==> others[n].i != i
    ensures Asked(cfg, net, i, offer).log ==
      net.log + [Offer(i, Datagram(offered)), Request(i, offered.yours, server)]
    ensures var ep := Step(cfg, Run(cfg, Asked(cfg, net, i, offer), others), Cycle(i, false, true, ack)).eps[i];
      exists terms, renewal ::
        && Follows(cfg, terms, net.eps[i].terms, offered.options)
        && Follows(cfg, ep.terms.(leaseTime := renewal), terms, acked.options)
        && LeaseInForce(cfg, ep.terms.leaseTime, renewal)
        && ep.state == Leased && ep.ip == acked.yours && IsBroadcast(ep.broadcast, acked.yours, ep.terms.netMask)
  {
    ReplyAnswers(net.eps[i], offered, 2, server);
    ReplyAnswers(net.eps[i], acked, 5, server);
    LayoutIsRead(offered);
    LayoutIsRead(acked);
    hide Datagram, Answers, Run, Step, Asked, Follows, IsBroadcast, LeaseInForce, Names, YourAddress, Options;
    OfferAndAckLease(cfg, net, i, offer, others, ack, server);
  }

  // What `Follows` says of an acknowledgement that carries a mask and a gateway.
  lemma MaskAndGateway(cfg: Config, now: Terms, was: Terms, items: seq<Item>, i: int, j: int)
    requires Follows(cfg, now, was, items) && LastGives(items, 1, i) && LastGives(items, 3, j)
    ensures now.netMask == Address(items[i].value, 0) && now.gateway == Address(items[j].value, 0)
  {
    CarriedIsLast(items, 1, i);
    CarriedIsLast(items, 3, j);
    hide Carried, IsDnsList, IsHalfLease;
  }
}
