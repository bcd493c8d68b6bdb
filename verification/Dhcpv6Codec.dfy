/** DHCPv6 replies as structured values, their wire format, and the round trip through the
    analysis: it passes exactly the acceptable replies, and reads back what was written. */
module Dhcpv6Codec {
  import opened Common
  import opened BitCursor
  import opened Dhcpv6Parser

  datatype SubOpt =
    | AddressSub(address: Bytes, preferred: UInt32, validLife: UInt32)
    | PrefixSub(preferred: UInt32, validLife: UInt32, prefixLength: Byte, prefix: Bytes)
    | StatusSub(status: UInt16, text: Bytes)
    | ShortSub(code: UInt16, body: Bytes)

  datatype Opt =
    | ClientId(duid: Bytes)
    | ServerId(duidType: UInt16, hardwareType: UInt16, id: Bytes)
    | Preference(value: Byte)
    | Status(status: UInt16, text: Bytes)
    | Dns(servers: seq<Bytes>)
    | Ia(code: UInt16, iaid: UInt32, time1: UInt32, time2: UInt32, subs: seq<SubOpt>)
    | Other(code: UInt16, body: Bytes)

  datatype Reply = Reply(messageType: Byte, transaction: Bytes, options: seq<Opt>)

  // --------------------------------------------------------------------- encoding

  /** A type-length-value item. */
  function Tlv(code: UInt16, body: Bytes): (bs: Bytes)
    requires |body| < 0x1_0000
    ensures |bs| == 4 + |body|
  {
    U16(code) + U16(|body|) + body
  }

  function SubCode(o: SubOpt): UInt16 {
    match o
    case AddressSub(_, _, _) => 5
    case PrefixSub(_, _, _, _) => 26
    case StatusSub(_, _) => 13
    case ShortSub(code, _) => code
  }

  function SubBytes(o: SubOpt): Bytes {
    match o
    case AddressSub(address, preferred, validLife) => address + U32(preferred) + U32(validLife)
    case PrefixSub(preferred, validLife, prefixLength, prefix) =>
      U32(preferred) + U32(validLife) + [prefixLength] + prefix
    case StatusSub(status, text) => U16(status) + text
    case ShortSub(_, body) => body
  }

  /** The least length of a body, by code. */
  function Least(code: UInt16): nat {
    match code
    case 3 | 25 => 12
    case 4 => 4
    case 5 => 24
    case 7 => 1
    case 13 => 2
    case 26 => 25
    case _ => 0
  }

  predicate ValidSub(o: SubOpt) {
    && (o.AddressSub? ==> |o.address| == 16)
    && (o.PrefixSub? ==> |o.prefix| == 16)
    && (o.ShortSub? ==> |o.body| < Least(o.code))
    && |SubBytes(o)| < 0x1_0000
  }

  predicate ValidSubs(os: seq<SubOpt>) { forall i :: 0 <= i < |os| ==> ValidSub(os[i]) }

  function EncodeSubs(os: seq<SubOpt>): Bytes
    requires ValidSubs(os)
  {
    if os == [] then [] else Tlv(SubCode(os[0]), SubBytes(os[0])) + EncodeSubs(os[1..])
  }

  function Code(o: Opt): UInt16 {
    match o
    case ClientId(_) => 1
    case ServerId(_, _, _) => 2
    case Preference(_) => 7
    case Status(_, _) => 13
    case Dns(_) => 23
    case Ia(code, _, _, _, _) => code
    case Other(code, _) => code
  }

  function Concat(parts: seq<Bytes>): Bytes {
    if parts == [] then [] else parts[0] + Concat(parts[1..])
  }

  function OptBytes(o: Opt): Bytes
    requires o.Ia? ==> ValidSubs(o.subs)
  {
    match o
    case ClientId(duid) => duid
    case ServerId(duidType, hardwareType, id) => U16(duidType) + U16(hardwareType) + id
    case Preference(value) => [value]
    case Status(status, text) => U16(status) + text
    case Dns(servers) => Concat(servers)
    case Ia(_, iaid, time1, time2, subs) => U32(iaid) + U32(time1) + U32(time2) + EncodeSubs(subs)
    case Other(_, body) => body
  }

  /** An option that can be put on the wire. `Other` stands for all options that the
      client steps over, and for those of any code that are too short. */
  predicate ValidOpt(o: Opt) {
    && (o.Ia? ==> (o.code == 3 || o.code == 25) && ValidSubs(o.subs))
    && (o.Dns? ==> forall i :: 0 <= i < |o.servers| ==> |o.servers[i]| == 16)
    && (o.Other? ==> o.code !in {1, 2, 3, 7, 13, 23, 25} || |o.body| < Least(o.code))
    && |OptBytes(o)| < 0x1_0000
  }

  predicate ValidOpts(os: seq<Opt>) { forall i :: 0 <= i < |os| ==> ValidOpt(os[i]) }

  function EncodeOpts(os: seq<Opt>): Bytes
    requires ValidOpts(os)
  {
    if os == [] then [] else Tlv(Code(os[0]), OptBytes(os[0])) + EncodeOpts(os[1..])
  }

  predicate ValidReply(r: Reply) {
    |r.transaction| == 3 && ValidOpts(r.options)
  }

  function Encode(r: Reply): Bytes
    requires ValidReply(r)
  {
    [r.messageType] + r.transaction + EncodeOpts(r.options)
  }

  // -------------------------------------------- what a reply means to the client

  predicate AcceptSub(o: SubOpt) { !o.ShortSub? && (o.StatusSub? ==> o.status == 0) }

  predicate AcceptSubs(os: seq<SubOpt>) { forall i :: 0 <= i < |os| ==> AcceptSub(os[i]) }

  function ApplySub(m: Message, o: SubOpt): Message {
    match o
    case AddressSub(address, preferred, validLife) =>
      m.(address := address, preferred := preferred, validLife := validLife)
    case PrefixSub(preferred, validLife, prefixLength, prefix) =>
      m.(preferred := preferred, validLife := validLife, prefixLength := prefixLength, prefix := prefix)
    case StatusSub(_, _) => m
    case ShortSub(_, _) => m
  }

  function ApplySubs(m: Message, os: seq<SubOpt>): Message
    decreases os
  {
    if os == [] then m else ApplySubs(ApplySub(m, os[0]), os[1..])
  }

  /** The client's own identifier of 14 bytes, a server identifier of at most 128, success everywhere,
      at least one address in every server list, and nothing too short. */
  predicate AcceptOpt(own: Own, o: Opt) {
    match o
    case ClientId(duid) => duid == own.duid && |duid| == 14
    case ServerId(_, _, id) => |id| <= 128
    case Status(status, _) => status == 0
    case Dns(servers) => servers != []
    case Ia(_, _, _, _, subs) => AcceptSubs(subs)
    case Preference(_) => true
    case Other(code, body) => |body| >= Least(code)
  }

  predicate AcceptOpts(own: Own, os: seq<Opt>) { forall i :: 0 <= i < |os| ==> AcceptOpt(own, os[i]) }

  function DuidOf(bs: Bytes): Duid
    requires |bs| >= 4
  {
    Duid(Value16(bs[..2]), Value16(bs[2..4]), |bs| - 4, bs[4..])
  }

  function Take<T>(xs: seq<T>, n: nat): seq<T> { if |xs| <= n then xs else xs[..n] }

  function ApplyOpt(capacity: nat, m: Message, o: Opt): Message {
    match o
    case ClientId(duid) => if |duid| < 4 then m else m.(clientId := DuidOf(duid))
    case ServerId(duidType, hardwareType, id) => m.(serverId := Duid(duidType, hardwareType, |id|, id))
    case Dns(servers) => m.(dns := Take(m.dns + servers, capacity))
    case Ia(_, _, _, _, subs) => ApplySubs(m, subs)
    case _ => m
  }

  function ApplyOpts(capacity: nat, m: Message, os: seq<Opt>): Message
    decreases os
  {
    if os == [] then m else ApplyOpts(capacity, ApplyOpt(capacity, m, os[0]), os[1..])
  }

  function Codes(os: seq<Opt>): set<UInt16> {
    if os == [] then {} else {Code(os[0])} + Codes(os[1..])
  }

  predicate Acceptable(own: Own, r: Reply) {
    && r.transaction == own.transaction && r.messageType in {2, 4, 7, 9}
    && AcceptOpts(own, r.options)
    && 1 in Codes(r.options) && 2 in Codes(r.options)
  }

  // ----------------------------------------------------------- single options

  lemma ReadTlvHeader(c: Cursor, code: UInt16, body: Bytes)
    requires |body| < 0x1_0000 && Next(c, Tlv(code, body))
    ensures Read16(c) == (Advance(c, 2), code) && Read16(Advance(c, 2)) == (Advance(c, 4), |body|)
    ensures Next(Advance(c, 4), body)
  {
    assert Tlv(code, body) == U16(code) + (U16(|body|) + body);
    NextSplit(c, U16(code), U16(|body|) + body);
    Read16Next(c, code);
    NextSplit(Advance(c, 2), U16(|body|), body);
    Read16Next(Advance(c, 2), |body|);
  }

  lemma StatusRead(c: Cursor, status: UInt16, text: Bytes)
    requires Next(c, U16(status) + text)
    ensures StatusCode(c, 2 + |text|) == (Advance(c, 2 + |text|), status == 0)
  {
    NextSplit(c, U16(status), text);
    Read16Next(c, status);
  }

  lemma AddressRead(p: Parse, o: SubOpt)
    requires o.AddressSub? && ValidSub(o) && Next(p.c, SubBytes(o))
    ensures ReadIaAddress(p) == Parse(Advance(p.c, |SubBytes(o)|), ApplySub(p.m, o))
  {
    assert SubBytes(o) == o.address + (U32(o.preferred) + U32(o.validLife));
    NextSplit(p.c, o.address, U32(o.preferred) + U32(o.validLife));
    ReadNext(p.c, o.address);
    var c1 := Advance(p.c, ADDRESS_SIZE);
    NextSplit(c1, U32(o.preferred), U32(o.validLife));
    Read32Next(c1, o.preferred);
    Read32Next(Advance(c1, 4), o.validLife);
  }

  lemma PrefixRead(p: Parse, o: SubOpt)
    requires o.PrefixSub? && ValidSub(o) && Next(p.c, SubBytes(o))
    ensures ReadIaPrefix(p) == Parse(Advance(p.c, |SubBytes(o)|), ApplySub(p.m, o))
  {
    var rest := [o.prefixLength] + o.prefix;
    assert SubBytes(o) == U32(o.preferred) + (U32(o.validLife) + rest);
    NextSplit(p.c, U32(o.preferred), U32(o.validLife) + rest);
    Read32Next(p.c, o.preferred);
    var c1 := Advance(p.c, 4);
    NextSplit(c1, U32(o.validLife), rest);
    Read32Next(c1, o.validLife);
    var c2 := Advance(c1, 4);
    NextSplit(c2, [o.prefixLength], o.prefix);
    ReadNext(c2, [o.prefixLength]);
    ReadNext(Advance(c2, 1), o.prefix);
  }

  // One sub-option is read back, or its failure status is reported.
  lemma SubRoundReads(p: Parse, start: nat, o: SubOpt)
    requires ValidSub(o) && Next(p.c, Tlv(SubCode(o), SubBytes(o)))
    ensures SubRound(p, start) ==
      if o.ShortSub? then (p.(c := Advance(p.c, 4)), false)
      else (Parse(Advance(p.c, 4 + |SubBytes(o)|), ApplySub(p.m, o)), AcceptSub(o))
  {
    hide ReadIaAddress, ReadIaPrefix, StatusCode;
    ReadTlvHeader(p.c, SubCode(o), SubBytes(o));
    var p1 := p.(c := Advance(p.c, 4));
    hide Read16, Tlv, Next;
    match o
    case AddressSub(_, _, _) => AddressRead(p1, o);
    case PrefixSub(_, _, _, _) => PrefixRead(p1, o);
    case StatusSub(status, text) => StatusRead(p1.c, status, text);
    case ShortSub(_, _) =>
  }

  lemma AcceptSubsCons(os: seq<SubOpt>)
    requires os != []
    ensures AcceptSubs(os) <==> AcceptSub(os[0]) && AcceptSubs(os[1..])
  {
    hide AcceptSub;
    assert os == [os[0]] + os[1..];
  }

  lemma {:induction false} SubLoopReads(rounds: nat, p: Parse, start: nat, length: nat, os: seq<SubOpt>)
    requires rounds >= |os| && ValidSubs(os)
    requires Next(p.c, EncodeSubs(os)) && start <= p.c.index
    requires p.c.index + |EncodeSubs(os)| == start + length
    ensures var r := SubLoop(rounds, p, start, length);
      && r.Done? && (r.ok <==> AcceptSubs(os))
      && (r.ok ==> r.p == Parse(Advance(p.c, |EncodeSubs(os)|), ApplySubs(p.m, os)))
    decreases |os|
  {
    hide SubRound, ApplySub, SubBytes, Tlv, Next;
    if os != [] {
      var item := Tlv(SubCode(os[0]), SubBytes(os[0]));
      NextSplit(p.c, item, EncodeSubs(os[1..]));
      SubRoundReads(p, start, os[0]);
      var p' := Parse(Advance(p.c, |item|), ApplySub(p.m, os[0]));
      AcceptSubsCons(os);
      hide AcceptSubs;
      if AcceptSub(os[0]) {
        SubLoopReads(rounds - 1, p', start, length, os[1..]);
      }
    }
  }

  // --------------------------------------------------------- top-level options

  lemma DuidRead(c: Cursor, bs: Bytes, was: Duid)
    requires |bs| >= 4 && Next(c, bs)
    ensures var (c', d, ok) := ReadDuid(c, |bs|, was);
      && (ok <==> |bs| - 4 <= MAX_ID_LENGTH)
      && (ok ==> c' == Advance(c, |bs|) && d == DuidOf(bs))
  {
    assert bs == bs[..2] + (bs[2..4] + bs[4..]);
    NextSplit(c, bs[..2], bs[2..4] + bs[4..]);
    NextSplit(Advance(c, 2), bs[2..4], bs[4..]);
    ReadNext(c, bs[..2]);
    ReadNext(Advance(c, 2), bs[2..4]);
    ReadNext(Advance(c, 4), bs[4..]);
  }

  lemma ClientIdRead(rounds: nat, capacity: nat, own: Own, p: Parse, o: Opt)
    requires o.ClientId? && ValidOpt(o) && Next(p.c, OptBytes(o))
    ensures var h := HandleOption(rounds, capacity, own, p, CLIENT_ID, |o.duid|);
      if AcceptOpt(own, o) then h == Handled(Parse(Advance(p.c, |o.duid|), ApplyOpt(capacity, p.m, o)), false)
      else h.Handled? && (h.ready || h.p.c.err)
  {
    hide ReadDuid, ReadDns, SubOptions, StatusCode, DuidOf;
    if |o.duid| >= 4 {
      DuidRead(p.c, o.duid, p.m.clientId);
      var c := Advance(p.c, |o.duid|);
      assert PeekLast(c, |o.duid|) == Read(c, Some(o.duid));
    } else {
      assert !ReadDuid(p.c, |o.duid|, p.m.clientId).2 by { ShortDuid(p.c, |o.duid|, p.m.clientId); }
    }
  }

  lemma ShortDuid(c: Cursor, length: nat, was: Duid)
    requires length < 4
    ensures ReadDuid(c, length, was) == (c, was, false)
  {
  }

  lemma ServerIdRead(rounds: nat, capacity: nat, own: Own, p: Parse, o: Opt)
    requires o.ServerId? && ValidOpt(o) && Next(p.c, OptBytes(o))
    ensures var h := HandleOption(rounds, capacity, own, p, SERVER_ID, |OptBytes(o)|);
      if AcceptOpt(own, o) then h == Handled(Parse(Advance(p.c, |OptBytes(o)|), ApplyOpt(capacity, p.m, o)), false)
      else h.Handled? && (h.ready || h.p.c.err)
  {
    hide ReadDuid, ReadDns, SubOptions, StatusCode;
    var bs := OptBytes(o);
    DuidRead(p.c, bs, p.m.serverId);
    assert bs[..2] == U16(o.duidType) && bs[2..4] == U16(o.hardwareType) && bs[4..] == o.id;
    U16RoundTrip(o.duidType, []);
    U16RoundTrip(o.hardwareType, []);
  }

  lemma {:induction false} DnsRead(capacity: nat, p: Parse, servers: seq<Bytes>)
    requires forall i :: 0 <= i < |servers| ==> |servers[i]| == ADDRESS_SIZE
    requires Next(p.c, Concat(servers)) && |p.m.dns| <= capacity
    ensures |Concat(servers)| == ADDRESS_SIZE * |servers|
    ensures ReadDns(capacity, p, |servers|) ==
      Parse(Advance(p.c, |Concat(servers)|), p.m.(dns := Take(p.m.dns + servers, capacity)))
    decreases |servers|
  {
    if servers == [] {
      assert p.m.dns + [] == p.m.dns;
    } else {
      var a, rest := servers[0], servers[1..];
      NextSplit(p.c, a, Concat(rest));
      ReadNext(p.c, a);
      var p' := Parse(Advance(p.c, ADDRESS_SIZE),
                      if |p.m.dns| < capacity then p.m.(dns := p.m.dns + [a]) else p.m);
      DnsRead(capacity, p', rest);
      assert p.m.dns + servers == p.m.dns + [a] + rest;
      assert |p.m.dns| == capacity ==>
        Take(p.m.dns + servers, capacity) == p.m.dns && Take(p.m.dns + rest, capacity) == p.m.dns;
    }
  }

  lemma DnsOptRead(rounds: nat, capacity: nat, own: Own, p: Parse, o: Opt)
    requires o.Dns? && ValidOpt(o) && Next(p.c, OptBytes(o)) && |p.m.dns| <= capacity
    ensures var h := HandleOption(rounds, capacity, own, p, DNS_SERVERS, |OptBytes(o)|);
      if AcceptOpt(own, o) then h == Handled(Parse(Advance(p.c, |OptBytes(o)|), ApplyOpt(capacity, p.m, o)), false)
      else h.Handled? && (h.ready || h.p.c.err)
  {
    hide ReadDuid, ReadDns, SubOptions, StatusCode, Take, Concat;
    DnsRead(capacity, p, o.servers);
    var n := |o.servers|;
    assert ADDRESS_SIZE * n % ADDRESS_SIZE == 0 && ADDRESS_SIZE * n / ADDRESS_SIZE == n;
  }

  lemma IaRead(rounds: nat, capacity: nat, own: Own, p: Parse, o: Opt)
    requires o.Ia? && ValidOpt(o) && Next(p.c, OptBytes(o)) && rounds >= |o.subs|
    ensures var h := HandleOption(rounds, capacity, own, p, o.code, |OptBytes(o)|);
      if AcceptOpt(own, o) then h == Handled(Parse(Advance(p.c, |OptBytes(o)|), ApplyOpt(capacity, p.m, o)), false)
      else h.Handled? && (h.ready || h.p.c.err)
  {
    hide ReadDuid, ReadDns, SubLoop, SubOptions, StatusCode, AcceptSubs, ApplySubs, EncodeSubs, U32, Take, Concat;
    var subs := EncodeSubs(o.subs);
    assert OptBytes(o) == U32(o.iaid) + (U32(o.time1) + (U32(o.time2) + subs));
    TimesRead(rounds, p, o.iaid, o.time1, o.time2, subs, |OptBytes(o)|);
    SubLoopReads(rounds, p.(c := Advance(p.c, 12)), p.c.index, |OptBytes(o)|, o.subs);
  }

  // The three numbers in front of the sub-options are read over.
  lemma TimesRead(
    rounds: nat, p: Parse, iaid: UInt32, time1: UInt32, time2: UInt32, subs: Bytes, length: nat)
    requires Next(p.c, U32(iaid) + (U32(time1) + (U32(time2) + subs))) && length >= 12
    ensures Next(Advance(p.c, 12), subs)
    ensures SubOptions(rounds, p, length) == SubLoop(rounds, p.(c := Advance(p.c, 12)), p.c.index, length)
  {
    hide SubLoop, Next;
    NextSplit(p.c, U32(iaid), U32(time1) + (U32(time2) + subs));
    Read32Next(p.c, iaid);
    NextSplit(Advance(p.c, 4), U32(time1), U32(time2) + subs);
    Read32Next(Advance(p.c, 4), time1);
    NextSplit(Advance(p.c, 8), U32(time2), subs);
    Read32Next(Advance(p.c, 8), time2);
  }

  /** Enough rounds for the sub-options of every option. */
  predicate EnoughRounds(rounds: nat, os: seq<Opt>) {
    forall i :: 0 <= i < |os| && os[i].Ia? ==> rounds >= |os[i].subs|
  }

  // Any option: an acceptable one is read back, any other is an error.
  lemma OptionRead(rounds: nat, capacity: nat, own: Own, p: Parse, o: Opt)
    requires ValidOpt(o) && Next(p.c, OptBytes(o)) && |p.m.dns| <= capacity
    requires o.Ia? ==> rounds >= |o.subs|
    ensures var h := HandleOption(rounds, capacity, own, p, Code(o), |OptBytes(o)|);
      if AcceptOpt(own, o) then h == Handled(Parse(Advance(p.c, |OptBytes(o)|), ApplyOpt(capacity, p.m, o)), false)
      else h.Handled? && (h.ready || h.p.c.err)
  {
    match o
    case ClientId(_) => ClientIdRead(rounds, capacity, own, p, o);
    case ServerId(_, _, _) => ServerIdRead(rounds, capacity, own, p, o);
    case Dns(_) => DnsOptRead(rounds, capacity, own, p, o);
    case Ia(_, _, _, _, _) => IaRead(rounds, capacity, own, p, o);
    case Status(status, text) => StatusRead(p.c, status, text);
    case Preference(value) => ReadNext(p.c, [value]);
    case Other(_, body) => ReadNext(p.c, body);
  }

  lemma ApplyKeepsCapacity(capacity: nat, m: Message, o: Opt)
    requires |m.dns| <= capacity
    ensures |ApplyOpt(capacity, m, o).dns| <= capacity
  {
    if o.Ia? {
      SubsKeepDns(m, o.subs);
    }
  }

  lemma {:induction false} SubsKeepDns(m: Message, os: seq<SubOpt>)
    ensures ApplySubs(m, os).dns == m.dns
    decreases os
  {
    if os != [] {
      SubsKeepDns(ApplySub(m, os[0]), os[1..]);
    }
  }

  lemma AcceptOptsCons(own: Own, os: seq<Opt>)
    requires os != []
    ensures AcceptOpts(own, os) <==> AcceptOpt(own, os[0]) && AcceptOpts(own, os[1..])
    ensures AcceptOpts(own, [])
  {
    hide AcceptOpt;
    assert os == [os[0]] + os[1..];
  }

  // One option and whatever follows it.
  lemma LoopReadsOne(
    rounds: nat, capacity: nat, own: Own, p: Parse, seen: set<UInt16>, o: Opt, more: Bytes)
    requires ValidOpt(o) && (o.Ia? ==> rounds >= |o.subs|) && |p.m.dns| <= capacity
    requires Next(p.c, Tlv(Code(o), OptBytes(o)) + more)
    requires p.c.index + 4 + |OptBytes(o)| + |more| == |p.c.data|
    ensures var p' := Parse(Advance(p.c, 4 + |OptBytes(o)|), ApplyOpt(capacity, p.m, o));
      var v := OptionLoop(rounds, capacity, own, p, seen);
      && Next(p'.c, more) && |p'.m.dns| <= capacity
      && (AcceptOpt(own, o) ==>
            v == if more == [] then Verdict(true, p', seen + {Code(o)})
                 else OptionLoop(rounds, capacity, own, p', seen + {Code(o)}))
      && (!AcceptOpt(own, o) ==> v.Verdict? && !v.pass)
  {
    hide HandleOption, AcceptOpt, ApplyOpt, OptBytes, Tlv, OptionLoop, Code, Read16;
    NextSplit(p.c, Tlv(Code(o), OptBytes(o)), more);
    ReadTlvHeader(p.c, Code(o), OptBytes(o));
    BodyIsNext(p.c, Code(o), OptBytes(o));
    OptionRead(rounds, capacity, own, p.(c := Advance(p.c, 4)), o);
    ApplyKeepsCapacity(capacity, p.m, o);
    LoopUnfolds(rounds, capacity, own, p, seen, Code(o), |OptBytes(o)|);
    hide Next;
  }

  lemma BodyIsNext(c: Cursor, code: UInt16, body: Bytes)
    requires |body| < 0x1_0000 && Next(c, Tlv(code, body))
    ensures Next(Advance(c, 4), body)
  {
    assert Tlv(code, body) == U16(code) + U16(|body|) + body;
    NextSplit(c, U16(code) + U16(|body|), body);
  }

  lemma LoopUnfolds(
    rounds: nat, capacity: nat, own: Own, p: Parse, seen: set<UInt16>, option: UInt16, length: UInt16)
    requires !p.c.err
    requires Read16(p.c) == (Advance(p.c, 2), option) && Read16(Advance(p.c, 2)) == (Advance(p.c, 4), length)
    ensures var h := HandleOption(rounds, capacity, own, p.(c := Advance(p.c, 4)), option, length);
      OptionLoop(rounds, capacity, own, p, seen) ==
        if h.Stuck? then NoReturn
        else if h.p.c.err || h.ready then Verdict(false, h.p, seen + {option})
        else if h.p.c.index == |h.p.c.data| then Verdict(true, h.p, seen + {option})
        else OptionLoop(rounds, capacity, own, h.p, seen + {option})
  {
    hide HandleOption, Read16;
  }

  lemma FirstOfOpts(rounds: nat, os: seq<Opt>, tail: Bytes)
    requires os != [] && ValidOpts(os) && EnoughRounds(rounds, os)
    ensures ValidOpt(os[0]) && (os[0].Ia? ==> ValidSubs(os[0].subs) && rounds >= |os[0].subs|)
    ensures ValidOpts(os[1..]) && EnoughRounds(rounds, os[1..])
    ensures EncodeOpts(os) + tail == Tlv(Code(os[0]), OptBytes(os[0])) + (EncodeOpts(os[1..]) + tail)
    ensures |Tlv(Code(os[0]), OptBytes(os[0]))| == 4 + |OptBytes(os[0])|
  {
    hide OptBytes, Tlv, ValidSubs;
  }

  lemma AdvanceIs(c: Cursor, n: nat)
    ensures Advance(c, n) == c.(index := c.index + n)
  {
  }

  // The option loop over a list of encoded options that fills the message to its end.
  lemma {:induction false} OptionLoopReads(
    rounds: nat, capacity: nat, own: Own, p: Parse, seen: set<UInt16>, os: seq<Opt>)
    requires os != [] && ValidOpts(os) && EnoughRounds(rounds, os) && |p.m.dns| <= capacity
    requires Next(p.c, EncodeOpts(os)) && p.c.index + |EncodeOpts(os)| == |p.c.data|
    ensures var v := OptionLoop(rounds, capacity, own, p, seen);
      && v.Verdict? && (v.pass <==> AcceptOpts(own, os))
      && (v.pass ==> v.p == Parse(p.c.(index := |p.c.data|), ApplyOpts(capacity, p.m, os))
                     && v.seen == seen + Codes(os))
    decreases |os|
  {
    hide *;
    FirstOfOpts(rounds, os, []);
    var o, rest := os[0], os[1..];
    var more := EncodeOpts(rest);
    var p' := Parse(p.c.(index := p.c.index + 4 + |OptBytes(o)|), ApplyOpt(capacity, p.m, o));
    assert EncodeOpts(os) + [] == EncodeOpts(os) && more + [] == more;
    AdvanceIs(p.c, 4 + |OptBytes(o)|);
    NextIsOpen(p.c, EncodeOpts(os));
    LoopReadsOne(rounds, capacity, own, p, seen, o, more);
    AcceptOptsCons(own, os);
    AppliedFirst(capacity, p.m, os);
    if AcceptOpt(own, o) {
      if rest == [] {
        NothingEncoded();
        AppliedNone(capacity, p'.m);
        assert rest == [] && seen + {Code(o)} == seen + ({Code(o)} + {});
      } else {
        SomeEncoded(rest);
        OptionLoopReads(rounds, capacity, own, p', seen + {Code(o)}, rest);
        assert seen + {Code(o)} + Codes(rest) == seen + ({Code(o)} + Codes(rest));
      }
    }
  }

  lemma NextIsOpen(c: Cursor, bs: Bytes)
    requires Next(c, bs)
    ensures !c.err
  {
  }

  lemma NothingEncoded()
    ensures ValidOpts([]) && EncodeOpts([]) == []
  {
  }

  lemma SomeEncoded(os: seq<Opt>)
    requires os != [] && ValidOpts(os)
    ensures EncodeOpts(os) != []
  {
  }

  lemma AppliedNone(capacity: nat, m: Message)
    ensures ApplyOpts(capacity, m, []) == m && Codes([]) == {}
  {
  }

  lemma AppliedFirst(capacity: nat, m: Message, os: seq<Opt>)
    requires os != []
    ensures ApplyOpts(capacity, m, os) == ApplyOpts(capacity, ApplyOpt(capacity, m, os[0]), os[1..])
    ensures Codes(os) == {Code(os[0])} + Codes(os[1..])
  {
  }

  // The round trip: for every reply that can be encoded, the analysis returns; it passes
  // exactly the acceptable replies; and then it stands at the end of the message, without
  // error, with the fields of the reply.
  lemma AnalyseEncoded(rounds: nat, capacity: nat, own: Own, r: Reply)
    requires ValidReply(r) && EnoughRounds(rounds, r.options)
    ensures var v := Analyse(rounds, capacity, own, Encode(r));
      && v.Verdict? && (v.pass <==> Acceptable(own, r))
      && (v.pass ==>
            && v.p.c == Cursor(Encode(r), |Encode(r)|, false)
            && v.p.m == ApplyOpts(capacity, ZERO_MESSAGE.(messageType := r.messageType, transaction := r.transaction),
                                  r.options))
  {
    hide OptionLoop, ApplyOpts, AcceptOpts, Codes, ValidOpts;
    var options := EncodeOpts(r.options);
    var c := Cursor(Encode(r), 0, false);
    assert Encode(r) == [r.messageType] + (r.transaction + options);
    assert Next(c, Encode(r));
    NextSplit(c, [r.messageType], r.transaction + options);
    ReadNext(c, [r.messageType]);
    NextSplit(Advance(c, 1), r.transaction, options);
    ReadNext(Advance(c, 1), r.transaction);
    var p := Parse(Advance(c, 4), ZERO_MESSAGE.(messageType := r.messageType, transaction := r.transaction));
    if r.options == [] {
      NoOptions(rounds, capacity, own, p);
    } else {
      OptionLoopReads(rounds, capacity, own, p, {}, r.options);
    }
  }

  lemma NoOptions(rounds: nat, capacity: nat, own: Own, p: Parse)
    requires !p.c.err && p.c.index == |p.c.data|
    ensures OptionLoop(rounds, capacity, own, p, {}).Verdict?
    ensures !OptionLoop(rounds, capacity, own, p, {}).pass
    ensures 1 !in Codes([]) && EncodeOpts([]) == []
  {
  }

  // --------------------------------------------------------- a message cut short

  /** The start of an option that is not all there. */
  predicate CutShort(tail: Bytes) {
    0 < |tail| && (|tail| < 4 || |tail| < 4 + Value16(tail[2..4]))
  }

  lemma CutShortEnds(rounds: nat, capacity: nat, own: Own, p: Parse, seen: set<UInt16>, tail: Bytes)
    requires CutShort(tail) && Next(p.c, tail) && p.c.index + |tail| == |p.c.data|
    ensures var v := OptionLoop(rounds, capacity, own, p, seen); v.Verdict? && !v.pass
  {
    hide Value16, SubOptions, ReadDns, ReadDuid, StatusCode;
    if |tail| >= 4 {
      assert tail == tail[..2] + (tail[2..4] + tail[4..]);
      NextSplit(p.c, tail[..2], tail[2..4] + tail[4..]);
      ReadNext(p.c, tail[..2]);
      NextSplit(Advance(p.c, 2), tail[2..4], tail[4..]);
      ReadNext(Advance(p.c, 2), tail[2..4]);
    }
  }

  lemma {:induction false} LoopCutShort(
    rounds: nat, capacity: nat, own: Own, p: Parse, seen: set<UInt16>, os: seq<Opt>, tail: Bytes)
    requires ValidOpts(os) && EnoughRounds(rounds, os) && |p.m.dns| <= capacity && CutShort(tail)
    requires Next(p.c, EncodeOpts(os) + tail) && p.c.index + |EncodeOpts(os) + tail| == |p.c.data|
    ensures var v := OptionLoop(rounds, capacity, own, p, seen); v.Verdict? && !v.pass
    decreases |os|
  {
    assert |tail| > 0;
    if os == [] {
      assert EncodeOpts(os) + tail == tail;
    }
    hide *;
    if os == [] {
      CutShortEnds(rounds, capacity, own, p, seen, tail);
    } else {
      var o, more := os[0], EncodeOpts(os[1..]) + tail;
      FirstOfOpts(rounds, os, tail);
      LoopReadsOne(rounds, capacity, own, p, seen, o, more);
      if AcceptOpt(own, o) {
        var p' := Parse(p.c.(index := p.c.index + 4 + |OptBytes(o)|), ApplyOpt(capacity, p.m, o));
        assert p'.c == Advance(p.c, 4 + |OptBytes(o)|) by { AdvanceIs(p.c, 4 + |OptBytes(o)|); }
        LoopCutShort(rounds, capacity, own, p', seen + {Code(o)}, os[1..], tail);
      }
    }
  }

  // A reply whose last option is cut short never passes, whatever comes before it.
  lemma CutShortNeverPasses(rounds: nat, capacity: nat, own: Own, r: Reply, tail: Bytes)
    requires ValidReply(r) && EnoughRounds(rounds, r.options) && CutShort(tail)
    ensures var v := Analyse(rounds, capacity, own, Encode(r) + tail); v.Verdict? && !v.pass
  {
    hide OptionLoop, ValidOpts, CutShort;
    var options := EncodeOpts(r.options) + tail;
    var bytes := Encode(r) + tail;
    var c := Cursor(bytes, 0, false);
    assert bytes == [r.messageType] + (r.transaction + options);
    NextSplit(c, [r.messageType], r.transaction + options);
    ReadNext(c, [r.messageType]);
    NextSplit(Advance(c, 1), r.transaction, options);
    ReadNext(Advance(c, 1), r.transaction);
    var p := Parse(Advance(c, 4), ZERO_MESSAGE.(messageType := r.messageType, transaction := r.transaction));
    LoopCutShort(rounds, capacity, own, p, {}, r.options, tail);
  }

  // ------------------------------------------------------------ enough rounds

  lemma {:induction false} SubsFit(os: seq<SubOpt>)
    requires ValidSubs(os)
    ensures |os| <= |EncodeSubs(os)|
  {
    if os != [] {
      SubsFit(os[1..]);
    }
  }

  lemma {:induction false} OptsFit(os: seq<Opt>, i: nat)
    requires ValidOpts(os) && i < |os| && os[i].Ia?
    ensures |os[i].subs| <= |EncodeOpts(os)|
  {
    hide *;
    FirstOptFits(os);
    if i > 0 {
      OptsFit(os[1..], i - 1);
    }
  }

  lemma FirstOptFits(os: seq<Opt>)
    requires os != [] && ValidOpts(os)
    ensures ValidOpts(os[1..]) && |EncodeOpts(os)| >= |EncodeOpts(os[1..])|
    ensures os[0].Ia? ==> |os[0].subs| <= |EncodeOpts(os)|
  {
    hide EncodeSubs;
    if os[0].Ia? {
      SubsFit(os[0].subs);
    }
  }

  // A round for every byte of the reply is always enough.
  lemma LengthIsEnough(rounds: nat, r: Reply)
    requires ValidReply(r) && rounds >= |Encode(r)|
    ensures EnoughRounds(rounds, r.options)
  {
    hide ValidOpts, EncodeOpts;
    forall i | 0 <= i < |r.options| && r.options[i].Ia?
      ensures rounds >= |r.options[i].subs|
    {
      OptsFit(r.options, i);
    }
  }
}
