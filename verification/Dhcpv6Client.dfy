/** The messages the DHCPv6 client builds, and why they always fit their buffer: no server
    identifier that is too long ever reaches an end-point. */
module Dhcpv6Client {
  import opened Common
  import opened BitCursor
  import opened Dhcpv6Parser
  import opened Dhcpv6Codec
  import opened Dhcpv6Wire

  const SEND_BUFFER_SIZE := 256
  const SOLICIT := 1
  const REQUEST := 3
  const OPTION_LIST := 6
  const ELAPSED_TIME := 8
  const IAID: UInt32 := 0x27FE_8F95

  // ------------------------------------------------------------ the wire format

  /** What a message is built from. */
  datatype Outgoing = Outgoing(
    request: bool, transaction: Bytes, timeStamp: UInt32, mac: Bytes, server: Duid,
    prefixLength: Byte, prefix: Bytes)

  predicate ValidOutgoing(o: Outgoing) {
    |o.transaction| == 3 && |o.mac| == 6 && |o.prefix| == ADDRESS_SIZE && UsableServer(o.server)
  }

  /** An identifier that an analysed reply may leave behind. */
  predicate UsableServer(d: Duid) { |d.id| == d.length <= MAX_ID_LENGTH }

  /** The client's identifier: link-layer address plus time, on Ethernet. */
  function ClientDuid(o: Outgoing): (bs: Bytes)
    ensures |bs| == 8 + |o.mac|
  {
    U16(1) + U16(1) + U32(o.timeStamp) + o.mac
  }

  function ServerItem(d: Duid): Bytes
    requires UsableServer(d)
  {
    if d.length == 0 then [] else Tlv(SERVER_ID, U16(d.duidType) + U16(d.hardwareType) + d.id)
  }

  function PrefixItem(o: Outgoing): (bs: Bytes)
    requires ValidOutgoing(o)
    ensures |bs| == 29
  {
    Tlv(IA_PREFIX, U32(4500) + U32(7200) + [o.prefixLength] + o.prefix)
  }

  function DelegationItem(o: Outgoing): Bytes
    requires ValidOutgoing(o)
  {
    Tlv(IA_PD, U32(IAID) + U32(3600) + U32(5400) + PrefixItem(o))
  }

  /** Type, transaction and identifiers. */
  function Start(o: Outgoing): (bs: Bytes)
    requires ValidOutgoing(o)
    ensures |bs| == 22 + if o.server.length == 0 then 0 else 8 + o.server.length
  {
    [if o.request then REQUEST else SOLICIT] + o.transaction
    + Tlv(CLIENT_ID, ClientDuid(o))
    + ServerItem(o.server)
  }

  /** A message: the declared length of every option is the length of its body. */
  function Build(o: Outgoing): Bytes
    requires ValidOutgoing(o)
  {
    Start(o)
    + (if o.request then Tlv(OPTION_LIST, U16(DNS_SERVERS) + U16(DOMAIN_LIST)) else [])
    + Tlv(ELAPSED_TIME, U16(0))
    + DelegationItem(o)
    + Tlv(IA_NA, U32(IAID) + U32(4500) + U32(7200))
    + (if o.request then Tlv(DNS_SERVERS, []) else [])
  }

  lemma BuiltMessageFits(o: Outgoing)
    requires ValidOutgoing(o)
    ensures |Build(o)| <= SEND_BUFFER_SIZE
    ensures |Build(o)| == |Start(o)| + 67 + if o.request then 12 else 0
    ensures |DelegationItem(o)| == 45
  {
  }

  // ------------------------------------------------------- what a server reads

  /** The body of the prefix option: 4500 and 7200 seconds, length and prefix. */
  function PrefixBody(o: Outgoing): Bytes { [0, 0, 0x11, 0x94, 0, 0, 0x1C, 0x20, o.prefixLength] + o.prefix }

  /** The prefix delegation: its identifier, 3600 and 5400 seconds, and one prefix (26). */
  predicate IsDelegation(o: Outgoing, body: Bytes) {
    && |body| >= 12 && body[..12] == [0x27, 0xFE, 0x8F, 0x95, 0, 0, 0x0E, 0x10, 0, 0, 0x15, 0x18]
    && Tags(body[12..]) == Some([Tag(26, PrefixBody(o))])
  }

  /** The options of a message, by their codes: client identifier (1) of link-layer type with time,
      server identifier (2) if there is one, in a request the wanted options (6), elapsed time (8),
      prefix delegation (25), address (3), and in a request an empty server list (23). */
  function OptionTags(o: Outgoing, delegation: Bytes): seq<Tag> {
    [Tag(1, [0, 1, 0, 1] + Four(o.timeStamp) + o.mac)]
    + (if o.server.length == 0 then [] else [Tag(2, ServerBody(o.server))])
    + (if o.request then [Tag(6, [0, 23, 0, 24])] else [])
    + [Tag(8, [0, 0])]
    + [Tag(25, delegation)]
    + [Tag(3, [0x27, 0xFE, 0x8F, 0x95, 0, 0, 0x11, 0x94, 0, 0, 0x1C, 0x20])]
    + (if o.request then [Tag(23, [])] else [])
  }

  function ServerBody(d: Duid): Bytes {
    [d.duidType / 0x100, d.duidType % 0x100, d.hardwareType / 0x100, d.hardwareType % 0x100] + d.id
  }

  /** A solicitation (1) or a request (3), the transaction, and those options. */
  ghost predicate IsMessage(o: Outgoing, bs: Bytes) {
    && |bs| >= 4 && bs[0] == (if o.request then 3 else 1) && bs[1..4] == o.transaction
    && exists delegation :: IsDelegation(o, delegation) && Tags(bs[4..]) == Some(OptionTags(o, delegation))
  }

  lemma Times()
    ensures U32(IAID) == [0x27, 0xFE, 0x8F, 0x95]
    ensures U32(3600) == [0, 0, 0x0E, 0x10] && U32(5400) == [0, 0, 0x15, 0x18]
    ensures U32(4500) == [0, 0, 0x11, 0x94] && U32(7200) == [0, 0, 0x1C, 0x20]
  {
  }

  lemma DelegationIsRead(o: Outgoing) returns (body: Bytes)
    requires ValidOutgoing(o)
    ensures IsDelegation(o, body) && |body| == 41 && DelegationItem(o) == Tlv(25, body)
  {
    body := U32(IAID) + U32(3600) + U32(5400) + PrefixItem(o);
    Times();
    hide Tags, Tlv, U32;
    assert U32(4500) + U32(7200) + [o.prefixLength] + o.prefix == PrefixBody(o);
    assert U32(IAID) + U32(3600) + U32(5400) == [0x27, 0xFE, 0x8F, 0x95, 0, 0, 0x0E, 0x10, 0, 0, 0x15, 0x18];
    WireOfOne(Tag(26, PrefixBody(o)));
    TagsOfWire([Tag(26, PrefixBody(o))]);
    assert body[12..] == PrefixItem(o) && body[..12] == U32(IAID) + U32(3600) + U32(5400);
  }

  lemma FixedBodies(o: Outgoing)
    ensures U16(DNS_SERVERS) + U16(DOMAIN_LIST) == [0, 23, 0, 24] && U16(0) == [0, 0]
    ensures U32(IAID) + U32(4500) + U32(7200) == [0x27, 0xFE, 0x8F, 0x95, 0, 0, 0x11, 0x94, 0, 0, 0x1C, 0x20]
    ensures ClientDuid(o) == [0, 1, 0, 1] + Four(o.timeStamp) + o.mac
    ensures U16(o.server.duidType) + U16(o.server.hardwareType) + o.server.id == ServerBody(o.server)
  {
    HighByteFirst(o.timeStamp, 0);
    Times();
    hide U32, Four;
  }

  /** The bytes of the options, one after the other. */
  lemma TagsAreWired(o: Outgoing, delegation: Bytes)
    requires ValidOutgoing(o) && |delegation| < 0x1_0000
    ensures AllEncodable(OptionTags(o, delegation))
    ensures Wire(OptionTags(o, delegation)) ==
      Tlv(1, [0, 1, 0, 1] + Four(o.timeStamp) + o.mac)
      + (if o.server.length == 0 then [] else Tlv(2, ServerBody(o.server)))
      + (if o.request then Tlv(6, [0, 23, 0, 24]) else [])
      + Tlv(8, [0, 0])
      + Tlv(25, delegation)
      + Tlv(3, [0x27, 0xFE, 0x8F, 0x95, 0, 0, 0x11, 0x94, 0, 0, 0x1C, 0x20])
      + (if o.request then Tlv(23, []) else [])
  {
    var first := Tag(1, [0, 1, 0, 1] + Four(o.timeStamp) + o.mac);
    var address := Tag(3, [0x27, 0xFE, 0x8F, 0x95, 0, 0, 0x11, 0x94, 0, 0, 0x1C, 0x20]);
    assert |ServerBody(o.server)| < 0x1_0000 && |first.body| < 0x1_0000;
    var a, b := [first], if o.server.length == 0 then [] else [Tag(2, ServerBody(o.server))];
    var c := if o.request then [Tag(6, [0, 23, 0, 24])] else [];
    var d, e, f := [Tag(8, [0, 0])], [Tag(25, delegation)], [address];
    var g := if o.request then [Tag(23, [])] else [];
    assert OptionTags(o, delegation) == a + b + c + d + e + f + g;
    hide Tlv, Four, ServerBody, OptionTags, Wire, AllEncodable, ValidOutgoing;
    WireOfOne(first);
    WireOfMaybe(o.server.length != 0, Tag(2, ServerBody(o.server)));
    WireOfMaybe(o.request, Tag(6, [0, 23, 0, 24]));
    WireOfOne(Tag(8, [0, 0]));
    WireOfOne(Tag(25, delegation));
    WireOfOne(address);
    WireOfMaybe(o.request, Tag(23, []));
    WireOfBoth(a, b);
    WireOfBoth(a + b, c);
    WireOfBoth(a + b + c, d);
    WireOfBoth(a + b + c + d, e);
    WireOfBoth(a + b + c + d + e, f);
    WireOfBoth(a + b + c + d + e + f, g);
  }

  lemma WireOfMaybe(present: bool, t: Tag)
    requires Encodable(t)
    ensures var tags := if present then [t] else [];
      AllEncodable(tags) && Wire(tags) == if present then Tlv(t.code, t.body) else []
  {
    WireOfOne(t);
  }

  /** Every message, read back byte by byte. */
  lemma MessageIsRead(o: Outgoing)
    requires ValidOutgoing(o)
    ensures IsMessage(o, Build(o))
  {
    FixedBodies(o);
    var delegation := DelegationIsRead(o);
    TagsAreWired(o, delegation);
    TagsOfWire(OptionTags(o, delegation));
    var kind: Bytes := [if o.request then 3 else 1];
    var first := Tlv(1, [0, 1, 0, 1] + Four(o.timeStamp) + o.mac);
    var server := if o.server.length == 0 then [] else Tlv(2, ServerBody(o.server));
    var wanted := if o.request then Tlv(6, [0, 23, 0, 24]) else [];
    var address := Tlv(3, [0x27, 0xFE, 0x8F, 0x95, 0, 0, 0x11, 0x94, 0, 0, 0x1C, 0x20]);
    var last := if o.request then Tlv(23, []) else [];
    assert Build(o) == kind + o.transaction + first + server + wanted + Tlv(8, [0, 0]) + Tlv(25, delegation)
                       + address + last;
    assert |kind + o.transaction| == 4;
    hide *;
    Regroup(kind + o.transaction, first, server, wanted, Tlv(8, [0, 0]), Tlv(25, delegation), address, last);
    HeadAndTags(o, Build(o), kind, delegation);
  }

  lemma Regroup(h: Bytes, a: Bytes, b: Bytes, c: Bytes, d: Bytes, e: Bytes, f: Bytes, g: Bytes)
    ensures h + a + b + c + d + e + f + g == h + (a + b + c + d + e + f + g)
  {
  }

  lemma HeadAndTags(o: Outgoing, bs: Bytes, kind: Bytes, delegation: Bytes)
    requires |o.transaction| == 3 && kind == [if o.request then 3 else 1] && IsDelegation(o, delegation)
    requires AllEncodable(OptionTags(o, delegation)) && bs == kind + o.transaction + Wire(OptionTags(o, delegation))
    requires Tags(Wire(OptionTags(o, delegation))) == Some(OptionTags(o, delegation))
    ensures IsMessage(o, bs)
  {
    hide Tags, OptionTags, Wire, IsDelegation, AllEncodable;
    assert bs[1..4] == o.transaction && bs[4..] == Wire(OptionTags(o, delegation));
  }

  /** The client's own reader gives back what it put into the prefix option. */
  lemma PrefixIsReadBack(o: Outgoing, m: Message)
    requires ValidOutgoing(o)
    ensures var p := ReadIaPrefix(Parse(Cursor(PrefixBody(o), 0, false), m));
      && p.c == Cursor(PrefixBody(o), 25, false)
      && p.m == m.(preferred := 4500, validLife := 7200, prefixLength := o.prefixLength, prefix := o.prefix)
  {
    var bs := PrefixBody(o);
    assert bs[0..4] == [0, 0, 0x11, 0x94] && bs[4..8] == [0, 0, 0x1C, 0x20];
    assert bs[8..9] == [o.prefixLength] && bs[9..25] == o.prefix;
  }

  // ------------------------------------------------------------ building in place

  /** The cursor has written exactly `bs`, without error. */
  ghost predicate Written(w: BitConfig, bs: Bytes)
    reads w, w.contents
  {
    !w.hasError && w.index == |bs| <= w.contents.Length && w.contents[..w.index] == bs
  }

  method Put(w: BitConfig, bs: Bytes, ghost before: Bytes)
    requires Written(w, before) && |before| + |bs| <= w.contents.Length
    modifies w, w.contents
    ensures Written(w, before + bs)
  {
    WriteThenNext(w.State(), bs);
    w.WriteUc(bs);
  }

  method Put16(w: BitConfig, v: UInt16, ghost before: Bytes)
    requires Written(w, before) && |before| + 2 <= w.contents.Length
    modifies w, w.contents
    ensures Written(w, before + U16(v))
  {
    WriteThenNext(w.State(), U16(v));
    w.WriteU16(v);
  }

  method Put32(w: BitConfig, v: UInt32, ghost before: Bytes)
    requires Written(w, before) && |before| + 4 <= w.contents.Length
    modifies w, w.contents
    ensures Written(w, before + U32(v))
  {
    WriteThenNext(w.State(), U32(v));
    w.WriteU32(v);
  }

  /** Option code and declared length. */
  method PutHead(w: BitConfig, code: UInt16, length: UInt16, ghost before: Bytes)
    requires Written(w, before) && |before| + 4 <= w.contents.Length
    modifies w, w.contents
    ensures Written(w, before + U16(code) + U16(length))
  {
    Put16(w, code, before);
    Put16(w, length, before + U16(code));
  }

  method PutDuid(w: BitConfig, o: Outgoing, ghost before: Bytes)
    requires |o.mac| == 6 && Written(w, before) && |before| + 14 <= w.contents.Length
    modifies w, w.contents
    ensures Written(w, before + ClientDuid(o))
  {
    Put16(w, 1, before);
    Put16(w, 1, before + U16(1));
    Put32(w, o.timeStamp, before + U16(1) + U16(1));
    Put(w, o.mac, before + U16(1) + U16(1) + U32(o.timeStamp));
    assert before + U16(1) + U16(1) + U32(o.timeStamp) + o.mac == before + ClientDuid(o);
  }

  /** Also hands out the identifier just written, which replies are compared with. */
  method PutClientId(w: BitConfig, o: Outgoing, ghost before: Bytes) returns (duid: Bytes)
    requires |o.mac| == 6 && Written(w, before) && |before| + 18 <= w.contents.Length
    modifies w, w.contents
    ensures Written(w, before + Tlv(CLIENT_ID, ClientDuid(o))) && duid == ClientDuid(o)
  {
    PutHead(w, CLIENT_ID, 14, before);
    ghost var b1 := before + U16(CLIENT_ID) + U16(14);
    PutDuid(w, o, b1);
    hide U16, U32;
    assert b1 + ClientDuid(o) == before + Tlv(CLIENT_ID, ClientDuid(o));
    ghost var all := b1 + ClientDuid(o);
    assert w.contents[..][w.index - 14..w.index] == all[|all| - 14..] == ClientDuid(o) by {
      assert w.contents[..][w.index - 14..w.index] == w.contents[..w.index][w.index - 14..];
    }
    var peek := w.PeekLastIndexUc(14);
    duid := if peek.Some? then peek.value else [];
  }

  method PutServerId(w: BitConfig, d: Duid, ghost before: Bytes)
    requires UsableServer(d) && Written(w, before) && |before| + 8 + d.length <= w.contents.Length
    modifies w, w.contents
    ensures Written(w, before + ServerItem(d))
  {
    if d.length != 0 {
      PutHead(w, SERVER_ID, d.length + 4, before);
      ghost var b1 := before + U16(SERVER_ID) + U16(d.length + 4);
      Put16(w, d.duidType, b1);
      Put16(w, d.hardwareType, b1 + U16(d.duidType));
      Put(w, d.id, b1 + U16(d.duidType) + U16(d.hardwareType));
      ghost var body := U16(d.duidType) + U16(d.hardwareType) + d.id;
      assert b1 + U16(d.duidType) + U16(d.hardwareType) + d.id == b1 + body;
      assert b1 + body == before + Tlv(SERVER_ID, body);
    } else {
      assert before + [] == before;
    }
  }

  lemma TlvParts(before: Bytes, code: UInt16, body: Bytes)
    requires |body| < 0x1_0000
    ensures before + U16(code) + U16(|body|) + body == before + Tlv(code, body)
  {
  }

  method PutPrefix(w: BitConfig, o: Outgoing, ghost before: Bytes)
    requires ValidOutgoing(o) && Written(w, before) && |before| + 29 <= w.contents.Length
    modifies w, w.contents
    ensures Written(w, before + PrefixItem(o))
  {
    hide U16, U32, Written, Tlv;
    PutHead(w, IA_PREFIX, 25, before);
    ghost var b1 := before + U16(IA_PREFIX) + U16(25);
    Put32(w, 4500, b1);
    Put32(w, 7200, b1 + U32(4500));
    Put(w, [o.prefixLength], b1 + U32(4500) + U32(7200));
    Put(w, o.prefix, b1 + U32(4500) + U32(7200) + [o.prefixLength]);
    ghost var body := U32(4500) + U32(7200) + [o.prefixLength] + o.prefix;
    assert b1 + U32(4500) + U32(7200) + [o.prefixLength] + o.prefix == b1 + body;
    TlvParts(before, IA_PREFIX, body);
  }

  method PutDelegation(w: BitConfig, o: Outgoing, ghost before: Bytes)
    requires ValidOutgoing(o) && Written(w, before) && |before| + 45 <= w.contents.Length
    modifies w, w.contents
    ensures Written(w, before + DelegationItem(o))
  {
    hide U16, U32, Written, Tlv, PrefixItem;
    PutHead(w, IA_PD, 41, before);
    ghost var b1 := before + U16(IA_PD) + U16(41);
    Put32(w, IAID, b1);
    Put32(w, 3600, b1 + U32(IAID));
    Put32(w, 5400, b1 + U32(IAID) + U32(3600));
    PutPrefix(w, o, b1 + U32(IAID) + U32(3600) + U32(5400));
    ghost var body := U32(IAID) + U32(3600) + U32(5400) + PrefixItem(o);
    assert b1 + U32(IAID) + U32(3600) + U32(5400) + PrefixItem(o) == b1 + body;
    TlvParts(before, IA_PD, body);
  }

  method PutNonTemporary(w: BitConfig, ghost before: Bytes)
    requires Written(w, before) && |before| + 16 <= w.contents.Length
    modifies w, w.contents
    ensures Written(w, before + Tlv(IA_NA, U32(IAID) + U32(4500) + U32(7200)))
  {
    PutHead(w, IA_NA, 12, before);
    ghost var b1 := before + U16(IA_NA) + U16(12);
    Put32(w, IAID, b1);
    Put32(w, 4500, b1 + U32(IAID));
    Put32(w, 7200, b1 + U32(IAID) + U32(4500));
    assert b1 + U32(IAID) + U32(4500) + U32(7200) == before + Tlv(IA_NA, U32(IAID) + U32(4500) + U32(7200));
  }

  method PutOptionList(w: BitConfig, ghost before: Bytes)
    requires Written(w, before) && |before| + 8 <= w.contents.Length
    modifies w, w.contents
    ensures Written(w, before + Tlv(OPTION_LIST, U16(DNS_SERVERS) + U16(DOMAIN_LIST)))
  {
    PutHead(w, OPTION_LIST, 4, before);
    ghost var b1 := before + U16(OPTION_LIST) + U16(4);
    Put16(w, DNS_SERVERS, b1);
    Put16(w, DOMAIN_LIST, b1 + U16(DNS_SERVERS));
    assert b1 + U16(DNS_SERVERS) + U16(DOMAIN_LIST)
        == before + Tlv(OPTION_LIST, U16(DNS_SERVERS) + U16(DOMAIN_LIST));
  }

  method PutElapsed(w: BitConfig, ghost before: Bytes)
    requires Written(w, before) && |before| + 6 <= w.contents.Length
    modifies w, w.contents
    ensures Written(w, before + Tlv(ELAPSED_TIME, U16(0)))
  {
    PutHead(w, ELAPSED_TIME, 2, before);
    Put16(w, 0, before + U16(ELAPSED_TIME) + U16(2));
    TlvParts(before, ELAPSED_TIME, U16(0));
  }

  method PutEmpty(w: BitConfig, code: UInt16, ghost before: Bytes)
    requires Written(w, before) && |before| + 4 <= w.contents.Length
    modifies w, w.contents
    ensures Written(w, before + Tlv(code, []))
  {
    PutHead(w, code, 0, before);
    TlvParts(before, code, []);
    assert before + U16(code) + U16(0) + [] == before + U16(code) + U16(0);
  }

  /** The fixed part before the options that depend on the kind of message. */
  method PutStart(w: BitConfig, o: Outgoing) returns (duid: Bytes)
    requires ValidOutgoing(o) && Written(w, []) && w.contents.Length == SEND_BUFFER_SIZE
    modifies w, w.contents
    ensures Written(w, Start(o)) && duid == ClientDuid(o)
  {
    hide Written, ClientDuid, Tlv;
    var kind := if o.request then REQUEST else SOLICIT;
    Put(w, [kind], []);
    Put(w, o.transaction, [] + [kind]);
    assert [] + [kind] + o.transaction == [kind] + o.transaction;
    duid := PutClientId(w, o, [kind] + o.transaction);
    PutServerId(w, o.server, [kind] + o.transaction + Tlv(CLIENT_ID, ClientDuid(o)));
  }

  /** Builds the message in a buffer of the fixed size: it never overflows. */
  method BuildMessage(o: Outgoing) returns (sent: Bytes, duid: Bytes, error: bool)
    requires ValidOutgoing(o)
    ensures !error && sent == Build(o) && IsMessage(o, sent) && duid == [0, 1, 0, 1] + Four(o.timeStamp) + o.mac
  {
    MessageIsRead(o);
    FixedBodies(o);
    hide IsMessage, Four, Start, DelegationItem, Tlv, ClientDuid;
    BuiltMessageFits(o);
    var w := new BitConfig(seq(SEND_BUFFER_SIZE, i => 0));
    assert |w.State().data| == SEND_BUFFER_SIZE && w.contents[..0] == [];
    duid := PutStart(w, o);
    ghost var b := Start(o);
    assert b + [] == b;
    if o.request {
      PutOptionList(w, b);
      b := b + Tlv(OPTION_LIST, U16(DNS_SERVERS) + U16(DOMAIN_LIST));
    }
    PutElapsed(w, b);
    b := b + Tlv(ELAPSED_TIME, U16(0));
    PutDelegation(w, o, b);
    b := b + DelegationItem(o);
    PutNonTemporary(w, b);
    b := b + Tlv(IA_NA, U32(IAID) + U32(4500) + U32(7200));
    assert b + [] == b;
    if o.request {
      PutEmpty(w, DNS_SERVERS, b);
    }
    sent, error := w.contents[..w.index], w.hasError;
  }

  // ------------------------------------------------- what analysis lets through

  lemma {:induction false} DnsKeepsServer(capacity: nat, p: Parse, count: nat)
    ensures ReadDns(capacity, p, count).m.serverId == p.m.serverId
    decreases count
  {
    if count > 0 {
      if |p.m.dns| < capacity {
        var (c, a) := Copy(p.c, ADDRESS_SIZE, NO_ADDRESS);
        DnsKeepsServer(capacity, Parse(c, p.m.(dns := p.m.dns + [a])), count - 1);
      } else {
        DnsKeepsServer(capacity, p.(c := Skip(p.c, ADDRESS_SIZE)), count - 1);
      }
    }
  }

  lemma {:induction false} SubLoopKeepsServer(rounds: nat, p: Parse, start: nat, length: nat)
    ensures var r := SubLoop(rounds, p, start, length);
      r.Done? ==> r.p.m.serverId == p.m.serverId
    decreases rounds
  {
    assert SubRound(p, start).0.m.serverId == p.m.serverId;
    hide SubRound;
    if rounds > 0 {
      SubLoopKeepsServer(rounds - 1, SubRound(p, start).0, start, length);
    }
  }

  lemma DuidUsable(c: Cursor, length: nat, was: Duid)
    ensures var (c', d, ok) := ReadDuid(c, length, was); ok && !c'.err ==> UsableServer(d)
  {
  }

  // An option that is handled without error leaves a usable server identifier.
  lemma OptionKeepsUsable(rounds: nat, capacity: nat, own: Own, p: Parse, option: UInt16, length: UInt16)
    requires UsableServer(p.m.serverId)
    ensures var h := HandleOption(rounds, capacity, own, p, option, length);
      h.Handled? && !h.ready && !h.p.c.err ==> UsableServer(h.p.m.serverId)
  {
    hide ReadDuid, ReadDns, SubLoop, StatusCode, PeekLast, Skip, Read8, Read32;
    DuidUsable(p.c, length, p.m.serverId);
    DnsKeepsServer(capacity, p, length / ADDRESS_SIZE);
    var (c1, _) := Read32(p.c);
    var (c2, _) := Read32(c1);
    var (c3, _) := Read32(c2);
    SubLoopKeepsServer(rounds, p.(c := c3), p.c.index, length);
  }

  lemma {:induction false} LoopKeepsUsable(rounds: nat, capacity: nat, own: Own, p: Parse, seen: set<UInt16>)
    requires UsableServer(p.m.serverId)
    ensures var v := OptionLoop(rounds, capacity, own, p, seen);
      v.Verdict? && v.pass ==> UsableServer(v.p.m.serverId)
    decreases if p.c.err then 0 else 1, |p.c.data| - p.c.index
  {
    hide HandleOption, UsableServer;
    var (c1, option) := Read16(p.c);
    var (c2, length) := Read16(c1);
    if !c2.err {
      var p1 := p.(c := c2);
      OptionOnward(rounds, capacity, own, p1, option, length);
      OptionKeepsUsable(rounds, capacity, own, p1, option, length);
      var h := HandleOption(rounds, capacity, own, p1, option, length);
      if h.Handled? && !h.ready && !h.p.c.err && h.p.c.index != |h.p.c.data| {
        LoopKeepsUsable(rounds, capacity, own, h.p, seen + {option});
      }
    }
  }

  // No byte string whatever gets a server identifier of more than 128 bytes through.
  lemma PassedServerIsUsable(rounds: nat, capacity: nat, own: Own, bytes: Bytes)
    ensures var v := Analyse(rounds, capacity, own, bytes);
      v.Verdict? && v.pass ==> UsableServer(v.p.m.serverId)
  {
    hide OptionLoop;
    var (c1, messageType) := Read8(Cursor(bytes, 0, false));
    var (c2, transaction) := Copy(c1, 3, [0, 0, 0]);
    var p := Parse(c2, ZERO_MESSAGE.(messageType := messageType, transaction := transaction));
    LoopKeepsUsable(rounds, capacity, own, p, {});
  }

  // ---------------------------------------------------------------- whole runs

  /** An end-point: what it compares replies with, and the last message stored for it. */
  datatype EndPoint = EndPoint(wantsDhcp: bool, leased: bool, own: Own, message: Message)

  /** `Set` stands for the steps of the lease machine, which change the compared values at
      will but not the stored message. */
  datatype Event =
    | Set(i: nat, wantsDhcp: bool, leased: bool, own: Own)
    | Datagram(i: nat, bytes: Bytes, rounds: nat)

  /** The first end-point waiting for this transaction, or the number of end-points. */
  function Waiting(eps: seq<EndPoint>, transaction: Bytes, k: nat): (j: nat)
    requires k <= |eps|
    ensures k <= j <= |eps|
    decreases |eps| - k
  {
    if k == |eps| then k
    else if eps[k].wantsDhcp && eps[k].own.transaction == transaction && !eps[k].leased then k
    else Waiting(eps, transaction, k + 1)
  }

  /** A known server must not change. */
  predicate SameServer(known: Duid, d: Duid) {
    known.duidType != 0 ==> known.length <= MAX_ID_LENGTH && known == d.(hardwareType := known.hardwareType)
  }

  /** A reply that passes analysis goes to the end-point that waits for it. */
  function Step(capacity: nat, eps: seq<EndPoint>, e: Event): (eps': seq<EndPoint>)
    ensures |eps'| == |eps|
  {
    if e.i >= |eps| then eps
    else match e
      case Set(i, wantsDhcp, leased, own) =>
        eps[i := EndPoint(wantsDhcp, leased, own, eps[i].message)]
      case Datagram(i, bytes, rounds) =>
        var v := Analyse(rounds, capacity, eps[i].own, bytes);
        if v.NoReturn? || !v.pass then eps
        else
          var j := Waiting(eps, v.p.m.transaction, 0);
          if j == |eps| || !SameServer(eps[j].message.serverId, v.p.m.serverId) then eps
          else eps[j := eps[j].(message := v.p.m)]
  }

  function Run(capacity: nat, eps: seq<EndPoint>, es: seq<Event>): (eps': seq<EndPoint>)
    ensures |eps'| == |eps|
  {
    if es == [] then eps else Step(capacity, Run(capacity, eps, es[..|es| - 1]), es[|es| - 1])
  }

  ghost predicate AllUsable(eps: seq<EndPoint>) {
    forall i :: 0 <= i < |eps| ==> UsableServer(eps[i].message.serverId)
  }

  lemma {:induction false} RunKeepsUsable(capacity: nat, eps: seq<EndPoint>, es: seq<Event>)
    requires AllUsable(eps)
    ensures AllUsable(Run(capacity, eps, es))
  {
    hide Analyse, UsableServer;
    if es != [] {
      var n := |es| - 1;
      RunKeepsUsable(capacity, eps, es[..n]);
      var eps1, e := Run(capacity, eps, es[..n]), es[n];
      if e.Datagram? && e.i < |eps1| {
        PassedServerIsUsable(e.rounds, capacity, eps1[e.i].own, e.bytes);
      }
    }
  }

  // Hence, after any run, whatever message an end-point builds fits the buffer.
  lemma EveryMessageFits(capacity: nat, eps: seq<EndPoint>, es: seq<Event>, i: nat, o: Outgoing)
    requires AllUsable(eps) && i < |eps|
    requires |o.transaction| == 3 && |o.mac| == 6 && |o.prefix| == ADDRESS_SIZE
    requires o.server == Run(capacity, eps, es)[i].message.serverId
    ensures ValidOutgoing(o) && |Build(o)| <= SEND_BUFFER_SIZE
  {
    RunKeepsUsable(capacity, eps, es);
    BuiltMessageFits(o);
  }

  // ------------------------------------------------------- what replies may change

  /** The end-point waits for a reply with this transaction. */
  predicate Waits(ep: EndPoint, transaction: Bytes) {
    ep.wantsDhcp && !ep.leased && ep.own.transaction == transaction
  }

  lemma {:induction false} WaitingIsFirst(eps: seq<EndPoint>, transaction: Bytes, k: nat)
    requires k <= |eps|
    ensures var j := Waiting(eps, transaction, k);
      && (j < |eps| ==> Waits(eps[j], transaction))
      && (forall i :: k <= i < j ==> !Waits(eps[i], transaction))
    decreases |eps| - k
  {
    if k < |eps| && !Waits(eps[k], transaction) {
      WaitingIsFirst(eps, transaction, k + 1);
    }
  }

  /** A message is stored only with the first end-point that waits for its transaction, and only if
      it passes the analysis. */
  lemma OnlyWaitingStores(capacity: nat, eps: seq<EndPoint>, e: Event, j: nat)
    requires j < |eps| && Step(capacity, eps, e)[j].message != eps[j].message
    ensures e.Datagram? && e.i < |eps|
    ensures var v := Analyse(e.rounds, capacity, eps[e.i].own, e.bytes);
      && v.Verdict? && v.pass && Step(capacity, eps, e)[j].message == v.p.m
      && Waits(eps[j], v.p.m.transaction) && forall i :: 0 <= i < j ==> !Waits(eps[i], v.p.m.transaction)
  {
    hide Analyse;
    if e.Datagram? && e.i < |eps| {
      var v := Analyse(e.rounds, capacity, eps[e.i].own, e.bytes);
      if v.Verdict? && v.pass {
        WaitingIsFirst(eps, v.p.m.transaction, 0);
      }
    }
  }

  /** Two identifiers name the same server: type, length and contents agree. */
  predicate NamesSame(a: Duid, b: Duid) { a.duidType == b.duidType && a.length == b.length && a.id == b.id }

  /** In every run, a server once known to an end-point stays. */
  lemma {:induction false} KnownServerStays(capacity: nat, eps: seq<EndPoint>, es: seq<Event>, j: nat)
    requires j < |eps| && eps[j].message.serverId.duidType != 0
    ensures NamesSame(Run(capacity, eps, es)[j].message.serverId, eps[j].message.serverId)
  {
    hide Analyse, Waiting;
    if es != [] {
      KnownServerStays(capacity, eps, es[..|es| - 1], j);
    }
  }
}
