/** The options of a DHCPv4 message: how the client walks through them and what they set. */
module Dhcpv4Options {
  import opened Common
  import opened BitCursor

  const PAD: Byte := 0
  const SUBNET_MASK: Byte := 1
  const GATEWAY: Byte := 3
  const DNS_SERVER: Byte := 6
  const LEASE_TIME: Byte := 51
  const MESSAGE_TYPE: Byte := 53
  const SERVER_ID: Byte := 54
  const END: Byte := 0xFF

  const OFFER: Byte := 2
  const ACK: Byte := 5
  const NACK: Byte := 6

  datatype Config = Config(
    dnsCapacity: nat, tickRate: UInt32, initialPeriod: UInt32, maximumPeriod: UInt32,
    defaultLease: UInt32, minimumLease: UInt32)

  /** What the options of a server can set. `refused` records a negative acknowledgement. */
  datatype Terms = Terms(
    server: UInt32, netMask: UInt32, gateway: UInt32, dns: seq<UInt32>, leaseTime: UInt32, refused: bool)

  // -------------------------------------------------- a declarative reading

  /** An option. `first` is the byte at the place of its value, also when the value is empty. */
  datatype Item = Item(code: Byte, first: Byte, value: Bytes)

  /** The options in a byte string, up to the point where reading must stop: the end marker,
      a missing length, a value that is cut off, or an option without a value. */
  function Items(s: Bytes): seq<Item> {
    if s == [] || s[0] == END then []
    else if s[0] == PAD then Items(s[1..])
    else if |s| <= 2 || 2 + s[1] > |s| then []
    else [Item(s[0], s[2], s[2..2 + s[1]])] + if s[1] == 0 then [] else Items(s[2 + s[1]..])
  }

  function ItemAt(bytes: Bytes, at: nat, code: Byte, length: nat): Item
    requires at < |bytes| && at + length <= |bytes|
  {
    Item(code, bytes[at], bytes[at..at + length])
  }

  predicate Malformed(bytes: Bytes, i: nat)
    requires i < |bytes|
  {
    i + 2 >= |bytes| || i + 2 + bytes[i + 1] > |bytes|
  }

  /** The options from index `i` on. */
  function From(bytes: Bytes, i: nat): seq<Item>
    requires i <= |bytes|
  {
    Items(bytes[i..])
  }

  /** The same reading, by index. */
  lemma ItemsAt(bytes: Bytes, i: nat)
    requires i < |bytes|
    ensures bytes[i] == END ==> From(bytes, i) == []
    ensures bytes[i] == PAD ==> From(bytes, i) == From(bytes, i + 1)
    ensures bytes[i] != END && bytes[i] != PAD && Malformed(bytes, i) ==> From(bytes, i) == []
    ensures bytes[i] != END && bytes[i] != PAD && !Malformed(bytes, i) ==>
      From(bytes, i) == [ItemAt(bytes, i + 2, bytes[i], bytes[i + 1])] +
        if bytes[i + 1] == 0 then [] else From(bytes, i + 2 + bytes[i + 1])
  {
    var s := bytes[i..];
    assert s[1..] == bytes[i + 1..];
    if bytes[i] != END && bytes[i] != PAD && !Malformed(bytes, i) {
      SliceOfSuffix(bytes, i, bytes[i + 1]);
    }
  }

  lemma MalformedIs(bytes: Bytes, i: nat)
    requires i < |bytes|
    ensures Malformed(bytes, i) <==> i + 2 >= |bytes| || i + 2 + bytes[i + 1] > |bytes|
  {
  }

  lemma SliceOfSuffix(bytes: Bytes, i: nat, n: nat)
    requires i + 2 + n <= |bytes|
    ensures bytes[i..][2..2 + n] == bytes[i + 2..i + 2 + n]
    ensures bytes[i..][2 + n..] == bytes[i + 2 + n..]
  {
  }

  lemma SliceOfSlice(bytes: Bytes, i: nat, n: nat, k: nat)
    requires i + n <= |bytes| && k + 4 <= n
    ensures bytes[i + k..i + k + 4] == bytes[i..i + n][k..k + 4]
  {
    var left, right := bytes[i + k..i + k + 4], bytes[i..i + n][k..k + 4];
    assert forall j :: 0 <= j < 4 ==> left[j] == bytes[i + k + j] == right[j];
  }

  // ------------------------------------------------------ what options mean

  function Parameter(value: Bytes): UInt32 {
    if |value| >= 4 then Value32(value[..4]) else 0
  }

  lemma ParameterAt(bytes: Bytes, i: nat, n: nat)
    requires i + n <= |bytes|
    ensures Parameter(bytes[i..i + n]) == if n >= 4 then Value32(bytes[i..i + 4]) else 0
  {
    hide Value32;
    if n >= 4 {
      assert bytes[i..i + n][..4] == bytes[i..i + 4];
    }
  }

  /** The first `n` addresses of a list that name a host. */
  function Hosts(value: Bytes, n: nat): (hs: seq<UInt32>)
    requires 4 * n <= |value|
    ensures |hs| <= n
  {
    if n == 0 then []
    else
      var a := Value32(value[4 * n - 4..4 * n]);
      Hosts(value, n - 1) + if a != 0 && a != 0xFFFF_FFFF then [a] else []
  }

  lemma NoHost(value: Bytes)
    ensures Hosts(value, 0) == []
  {
  }

  lemma NextHost(value: Bytes, n: nat)
    requires 4 * n + 4 <= |value|
    ensures var a := Value32(value[4 * n..4 * n + 4]);
      Hosts(value, n + 1) == if a != 0 && a != 0xFFFF_FFFF then Hosts(value, n) + [a] else Hosts(value, n)
  {
    hide Value32;
    assert Hosts(value, n) + [] == Hosts(value, n);
  }

  function DnsList(value: Bytes, capacity: nat): (r: seq<UInt32>)
    ensures |r| == capacity
  {
    var hs := Hosts(value, Min(|value| / 4, capacity));
    hs + seq(capacity - |hs|, i => 0)
  }

  /** Half the lease time in seconds, in clock ticks of 32 bits. */
  function RenewalTime(seconds: UInt32, tickRate: UInt32): UInt32 {
    (tickRate * (seconds / 2)) % TWO_32
  }

  datatype Progress = Progress(terms: Terms, processed: nat)

  predicate GoodType(it: Item, expected: Byte) {
    it.code == MESSAGE_TYPE && it.first == expected
  }

  predicate StopsAt(it: Item, expected: Byte) {
    it.code == MESSAGE_TYPE && it.first != expected
  }

  predicate GoodServer(it: Item, expected: Byte, server: UInt32) {
    it.code == SERVER_ID && |it.value| == 4 && (expected == OFFER || Parameter(it.value) == server)
  }

  function Apply(cfg: Config, expected: Byte, t: Terms, it: Item): Terms {
    var length := |it.value|;
    var p := Parameter(it.value);
    if it.code == MESSAGE_TYPE then
      if it.first == NACK && expected == ACK then t.(refused := true) else t
    else if it.code == SUBNET_MASK then
      if length == 4 then t.(netMask := p) else t
    else if it.code == GATEWAY then
      if length >= 4 then t.(gateway := p) else t
    else if it.code == DNS_SERVER then
      if length >= 4 then t.(dns := DnsList(it.value, cfg.dnsCapacity)) else t
    else if it.code == SERVER_ID then
      if length == 4 && expected == OFFER then t.(server := p) else t
    else if it.code == LEASE_TIME then
      if length == 4 then t.(leaseTime := RenewalTime(p, cfg.tickRate)) else t
    else t
  }

  function Handled(cfg: Config, expected: Byte, p: Progress, it: Item): Progress {
    Progress(
      Apply(cfg, expected, p.terms, it),
      p.processed + if GoodType(it, expected) || GoodServer(it, expected, p.terms.server) then 1 else 0)
  }

  function Process(cfg: Config, expected: Byte, p: Progress, items: seq<Item>): Progress
    decreases items
  {
    if items == [] then p
    else
      var p1 := Handled(cfg, expected, p, items[0]);
      if StopsAt(items[0], expected) then p1 else Process(cfg, expected, p1, items[1..])
  }

  lemma ProcessFirst(cfg: Config, expected: Byte, p: Progress, it: Item, rest: seq<Item>)
    ensures Process(cfg, expected, p, [it] + rest) ==
      var p1 := Handled(cfg, expected, p, it);
      if StopsAt(it, expected) then p1 else Process(cfg, expected, p1, rest)
    ensures Process(cfg, expected, p, []) == p
  {
    assert ([it] + rest)[1..] == rest;
  }

  predicate Passes(p: Progress) { p.processed >= 2 }

  // ------------------------------------------------ when do the options pass

  ghost predicate AtMostOnce(items: seq<Item>, code: Byte) {
    forall i, j :: 0 <= i < j < |items| && items[i].code == code ==> items[j].code != code
  }

  ghost predicate HasType(items: seq<Item>, expected: Byte) {
    exists i :: 0 <= i < |items| && GoodType(items[i], expected)
  }

  ghost predicate HasServer(items: seq<Item>, expected: Byte, server: UInt32) {
    exists i :: 0 <= i < |items| && GoodServer(items[i], expected, server)
  }

  lemma TypeCons(items: seq<Item>, expected: Byte)
    requires items != []
    ensures HasType(items, expected) <==> GoodType(items[0], expected) || HasType(items[1..], expected)
  {
    hide GoodType;
    if HasType(items, expected) && !GoodType(items[0], expected) {
      var i :| 0 <= i < |items| && GoodType(items[i], expected);
      assert items[i] == items[1..][i - 1];
    }
  }

  lemma ServerCons(items: seq<Item>, expected: Byte, server: UInt32)
    requires items != []
    ensures HasServer(items, expected, server) <==>
      GoodServer(items[0], expected, server) || HasServer(items[1..], expected, server)
  {
    hide GoodServer;
    if HasServer(items, expected, server) && !GoodServer(items[0], expected, server) {
      var i :| 0 <= i < |items| && GoodServer(items[i], expected, server);
      assert items[i] == items[1..][i - 1];
    }
  }

  lemma OnceCons(items: seq<Item>, code: Byte)
    requires items != [] && AtMostOnce(items, code)
    ensures AtMostOnce(items[1..], code)
    ensures items[0].code == code ==> Without(items[1..], code)
  {
    assert forall i :: 0 <= i < |items| - 1 ==> items[1..][i] == items[i + 1];
  }

  ghost predicate Without(items: seq<Item>, code: Byte) {
    forall i :: 0 <= i < |items| ==> items[i].code != code
  }

  lemma WithoutCons(items: seq<Item>, code: Byte)
    requires items != [] && Without(items, code)
    ensures items[0].code != code && Without(items[1..], code)
  {
    assert forall i :: 0 <= i < |items| - 1 ==> items[1..][i] == items[i + 1];
  }

  lemma NoServer(items: seq<Item>, expected: Byte, server: UInt32)
    requires Without(items, SERVER_ID)
    ensures !HasServer(items, expected, server)
  {
  }

  /** The options that are processed: those before the first message type that is not expected. */
  function Before(items: seq<Item>, expected: Byte): (b: seq<Item>)
    ensures b <= items
  {
    if items == [] || StopsAt(items[0], expected) then [] else [items[0]] + Before(items[1..], expected)
  }

  function Types(items: seq<Item>, expected: Byte): nat {
    if items == [] then 0 else (if GoodType(items[0], expected) then 1 else 0) + Types(items[1..], expected)
  }

  function Servers(items: seq<Item>, expected: Byte, server: UInt32): nat {
    if items == [] then 0
    else (if GoodServer(items[0], expected, server) then 1 else 0) + Servers(items[1..], expected, server)
  }

  /** Enough of the options processed are good ones, of whichever kind. */
  predicate EnoughGood(items: seq<Item>, expected: Byte, server: UInt32) {
    var b := Before(items, expected);
    Types(b, expected) + Servers(b, expected, server) >= 2
  }

  lemma {:induction false} ServersOfOffer(items: seq<Item>, s1: UInt32, s2: UInt32)
    ensures Servers(items, OFFER, s1) == Servers(items, OFFER, s2)
  {
    if items != [] {
      ServersOfOffer(items[1..], s1, s2);
    }
  }

  /** The count of processed options: the good ones of both kinds before the stop. */
  lemma {:induction false} ProcessedCount(cfg: Config, expected: Byte, p: Progress, items: seq<Item>)
    ensures var b := Before(items, expected);
      Process(cfg, expected, p, items).processed ==
        p.processed + Types(b, expected) + Servers(b, expected, p.terms.server)
    decreases items
  {
    if items != [] && !StopsAt(items[0], expected) {
      var p1 := Handled(cfg, expected, p, items[0]);
      var rest := Before(items[1..], expected);
      ProcessedCount(cfg, expected, p1, items[1..]);
      assert ([items[0]] + rest)[1..] == rest;
      if expected == OFFER {
        ServersOfOffer(rest, p.terms.server, p1.terms.server);
      }
    }
  }

  /** The main result on options, for every list: they pass exactly if enough of them are good. */
  lemma PassesExactly(cfg: Config, expected: Byte, p: Progress, items: seq<Item>)
    requires p.processed == 0
    ensures Passes(Process(cfg, expected, p, items)) <==> EnoughGood(items, expected, p.terms.server)
  {
    ProcessedCount(cfg, expected, p, items);
  }

  lemma {:induction false} CountsArePresence(items: seq<Item>, expected: Byte, server: UInt32)
    ensures Types(items, expected) > 0 <==> HasType(items, expected)
    ensures Servers(items, expected, server) > 0 <==> HasServer(items, expected, server)
  {
    if items != [] {
      TypeCons(items, expected);
      ServerCons(items, expected, server);
      CountsArePresence(items[1..], expected, server);
    }
  }

  /** That is what it should be, a right type and a right server, except exactly when there is no
      right type but two right servers, or no right server but two right types. */
  lemma PassesWronglyIff(cfg: Config, expected: Byte, p: Progress, items: seq<Item>)
    requires p.processed == 0
    ensures var b := Before(items, expected);
      var both := HasType(b, expected) && HasServer(b, expected, p.terms.server);
      var types, servers := Types(b, expected), Servers(b, expected, p.terms.server);
      var passes := Passes(Process(cfg, expected, p, items));
      && (both ==> passes)
      && (passes && !both <==> (types == 0 && servers >= 2) || (servers == 0 && types >= 2))
  {
    PassesExactly(cfg, expected, p, items);
    CountsArePresence(Before(items, expected), expected, p.terms.server);
  }

  lemma {:induction false} WithoutCounts(items: seq<Item>, expected: Byte, server: UInt32)
    ensures Without(items, MESSAGE_TYPE) ==> Types(items, expected) == 0 && Before(items, expected) == items
    ensures Without(items, SERVER_ID) ==> Servers(items, expected, server) == 0
  {
    if items != [] {
      if Without(items, MESSAGE_TYPE) {
        WithoutCons(items, MESSAGE_TYPE);
      }
      if Without(items, SERVER_ID) {
        WithoutCons(items, SERVER_ID);
      }
      WithoutCounts(items[1..], expected, server);
    }
  }

  lemma {:induction false} OnceCounts(items: seq<Item>, expected: Byte, server: UInt32)
    ensures AtMostOnce(items, MESSAGE_TYPE) ==> Types(items, expected) <= 1
    ensures AtMostOnce(items, SERVER_ID) ==> Servers(items, expected, server) <= 1
  {
    if items != [] {
      if AtMostOnce(items, MESSAGE_TYPE) {
        OnceCons(items, MESSAGE_TYPE);
      }
      if AtMostOnce(items, SERVER_ID) {
        OnceCons(items, SERVER_ID);
      }
      hide AtMostOnce;
      WithoutCounts(items[1..], expected, server);
      OnceCounts(items[1..], expected, server);
    }
  }

  /** A right type that is the only one stops nothing. */
  lemma {:induction false} BeforeIsAll(items: seq<Item>, expected: Byte)
    requires AtMostOnce(items, MESSAGE_TYPE) && HasType(items, expected)
    ensures Before(items, expected) == items
  {
    TypeCons(items, expected);
    OnceCons(items, MESSAGE_TYPE);
    if items[0].code == MESSAGE_TYPE {
      assert !HasType(items[1..], expected);
      WithoutCounts(items[1..], expected, 0);
    } else {
      BeforeIsAll(items[1..], expected);
    }
  }

  /** For options that occur at most once it is what it should be: passing takes exactly the
      expected message type and an acceptable server identifier. */
  lemma PassesIff(cfg: Config, expected: Byte, p: Progress, items: seq<Item>)
    requires p.processed == 0
    requires AtMostOnce(items, MESSAGE_TYPE) && AtMostOnce(items, SERVER_ID)
    ensures Passes(Process(cfg, expected, p, items)) <==>
      HasType(items, expected) && HasServer(items, expected, p.terms.server)
  {
    var b := Before(items, expected);
    PassesExactly(cfg, expected, p, items);
    CountsArePresence(b, expected, p.terms.server);
    OnceCounts(b, expected, p.terms.server);
    if HasType(items, expected) {
      BeforeIsAll(items, expected);
    }
    assert AtMostOnce(b, MESSAGE_TYPE) && AtMostOnce(b, SERVER_ID);
    assert HasType(b, expected) ==> HasType(items, expected) by {
      assert forall i :: 0 <= i < |b| ==> b[i] == items[i];
    }
    hide Process, Types, Servers, HasServer, HasType, Before;
  }

  /** Two server identifiers pass as an offer although the message has no type. */
  lemma RepeatedServerPasses(cfg: Config, t: Terms, id: Bytes)
    requires |id| == 4
    ensures
      var items := [Item(SERVER_ID, id[0], id), Item(SERVER_ID, id[0], id)];
      && Passes(Process(cfg, OFFER, Progress(t, 0), items))
      && !HasType(items, OFFER)
  {
    var it := Item(SERVER_ID, id[0], id);
    PassesExactly(cfg, OFFER, Progress(t, 0), [it, it]);
    TwoBefore(it, OFFER, t.server);
    hide Process;
  }

  /** Two message types pass as an acknowledgement although it names no server. */
  lemma RepeatedTypePasses(cfg: Config, t: Terms)
    ensures
      var items := [Item(MESSAGE_TYPE, ACK, [ACK]), Item(MESSAGE_TYPE, ACK, [ACK])];
      && Passes(Process(cfg, ACK, Progress(t, 0), items))
      && !HasServer(items, ACK, t.server)
  {
    var it := Item(MESSAGE_TYPE, ACK, [ACK]);
    PassesExactly(cfg, ACK, Progress(t, 0), [it, it]);
    TwoBefore(it, ACK, t.server);
    hide Process;
  }

  lemma TwoBefore(it: Item, expected: Byte, server: UInt32)
    requires GoodType(it, expected) || GoodServer(it, expected, server)
    ensures EnoughGood([it, it], expected, server)
  {
    assert [it, it][1..] == [it] && [it][1..] == [];
    assert Before([], expected) == [];
    assert Before([it], expected) == [it];
    assert Before([it, it], expected) == [it, it];
    assert Types([it], expected) + Servers([it], expected, server) >= 1;
  }

  /** The server that a list of options names. */
  function NamedServer(items: seq<Item>): Option<UInt32> {
    if items == [] then None
    else if items[0].code == SERVER_ID && |items[0].value| == 4 then Some(Parameter(items[0].value))
    else NamedServer(items[1..])
  }

  lemma {:induction false} NamesNoServer(items: seq<Item>)
    requires Without(items, SERVER_ID)
    ensures NamedServer(items).None?
  {
    if items != [] {
      WithoutCons(items, SERVER_ID);
      NamesNoServer(items[1..]);
    }
  }

  lemma {:induction false} NamedIff(items: seq<Item>, expected: Byte, server: UInt32)
    requires AtMostOnce(items, SERVER_ID)
    ensures HasServer(items, expected, server) <==>
      NamedServer(items).Some? && (expected == OFFER || NamedServer(items).value == server)
  {
    if items != [] {
      ServerCons(items, expected, server);
      OnceCons(items, SERVER_ID);
      if items[0].code == SERVER_ID {
        NoServer(items[1..], expected, server);
        NamesNoServer(items[1..]);
      } else {
        NamedIff(items[1..], expected, server);
      }
    }
  }

  /** An offer leaves the server it names in the terms. */
  lemma {:induction false} OfferNamesServer(cfg: Config, p: Progress, items: seq<Item>)
    requires AtMostOnce(items, MESSAGE_TYPE) && AtMostOnce(items, SERVER_ID)
    requires HasType(items, OFFER) || Without(items, MESSAGE_TYPE)
    ensures Process(cfg, OFFER, p, items).terms.server ==
      match NamedServer(items) case Some(s) => s case None => p.terms.server
    decreases items
  {
    if items != [] {
      TypeCons(items, OFFER);
      OnceCons(items, SERVER_ID);
      OnceCons(items, MESSAGE_TYPE);
      if Without(items, MESSAGE_TYPE) {
        WithoutCons(items, MESSAGE_TYPE);
      }
      if items[0].code == SERVER_ID {
        NamesNoServer(items[1..]);
      }
      OfferNamesServer(cfg, Handled(cfg, OFFER, p, items[0]), items[1..]);
    }
  }

  /** An acknowledgement never changes the server. */
  lemma {:induction false} AckKeepsServer(cfg: Config, p: Progress, items: seq<Item>)
    ensures Process(cfg, ACK, p, items).terms.server == p.terms.server
    decreases items
  {
    if items != [] && !StopsAt(items[0], ACK) {
      AckKeepsServer(cfg, Handled(cfg, ACK, p, items[0]), items[1..]);
    }
  }

  // ------------------------------------------------------------- round trip

  predicate Encodable(it: Item) {
    && it.code != 0 && it.code != 255
    && 0 < |it.value| < 0x100 && it.first == it.value[0]
  }

  function EncodeItem(it: Item): Bytes
    requires Encodable(it)
  {
    [it.code, |it.value|] + it.value
  }

  function Encode(items: seq<Item>): Bytes
    requires forall i :: 0 <= i < |items| ==> Encodable(items[i])
  {
    if items == [] then [] else EncodeItem(items[0]) + Encode(items[1..])
  }

  // A zero byte between options is stepped over, and 255 ends them.
  lemma PadAndEnd(s: Bytes)
    ensures Items([0] + s) == Items(s) && Items([255] + s) == []
  {
    assert ([0] + s)[1..] == s;
  }

  lemma FirstItem(it: Item, rest: Bytes)
    requires Encodable(it)
    ensures Items([it.code, |it.value|] + it.value + rest) == [it] + Items(rest)
  {
    var s := [it.code, |it.value|] + it.value + rest;
    assert s[2..2 + |it.value|] == it.value;
    assert s[2 + |it.value|..] == rest;
  }

  /** Reading gives back every list of options with a value, whatever follows the end marker. */
  lemma {:induction false} ItemsOfEncoded(items: seq<Item>, junk: Bytes)
    requires forall i :: 0 <= i < |items| ==> Encodable(items[i])
    ensures Items(Encode(items) + [END] + junk) == items
  {
    hide *;
    if items == [] {
      NothingEncoded(junk);
    } else {
      var it, tail := items[0], Encode(items[1..]);
      ItemsOfEncoded(items[1..], junk);
      FirstEncoded(items, junk);
      FirstItem(it, tail + [END] + junk);
      assert items == [it] + items[1..];
    }
  }

  lemma NothingEncoded(junk: Bytes)
    ensures Encode([]) == [] && Items(Encode([]) + [END] + junk) == []
  {
    PadAndEnd(junk);
    assert Encode([]) + [END] + junk == [END] + junk;
  }

  lemma FirstEncoded(items: seq<Item>, junk: Bytes)
    requires items != [] && forall i :: 0 <= i < |items| ==> Encodable(items[i])
    ensures var it, rest := items[0], Encode(items[1..]) + [END] + junk;
      Encode(items) + [END] + junk == [it.code, |it.value|] + it.value + rest
  {
    hide Encodable;
    var it, tail := items[0], Encode(items[1..]);
    assert Encode(items) == EncodeItem(it) + tail;
    hide Encode;
    assert EncodeItem(it) + tail + [END] + junk == EncodeItem(it) + (tail + [END] + junk);
  }

  // --------------------------------------------------------- the walk itself

  /** The rest of the server array is cleared. */
  method ZeroFill(hosts: seq<UInt32>, capacity: nat) returns (dns: seq<UInt32>)
    requires |hosts| <= capacity
    ensures dns == hosts + seq(capacity - |hosts|, i => 0)
  {
    dns := hosts;
    while |dns| < capacity
      invariant |hosts| <= |dns| <= capacity
      invariant dns == hosts + seq(|dns| - |hosts|, i => 0)
    {
      dns := dns + [0];
    }
  }

  /** The cursor over the options, and the terms they are stored into. */
  class Walker {
    const cfg: Config
    const bytes: Bytes
    var index: nat
    var length: nat
    var code: Byte
    var parameter: UInt32
    var processed: nat
    var terms: Terms

    ghost function State(): Progress
      reads this
    {
      Progress(terms, processed)
    }

    constructor (cfg: Config, bytes: Bytes, terms: Terms)
      ensures this.cfg == cfg && this.bytes == bytes
      ensures index == 0 && State() == Progress(terms, 0)
    {
      this.cfg, this.bytes, this.terms := cfg, bytes, terms;
      index, length, code, parameter, processed := 0, 0, 0, 0, 0;
    }

    /** Looks at the option under the cursor: 1 says handle it, 0 skip it, -1 stop. */
    method CheckOption() returns (result: int)
      requires index < |bytes| && code == bytes[index]
      modifies `index, `length, `parameter
      ensures result == -1 || result == 0 || result == 1
      ensures result == -1 ==> From(bytes, old(index)) == []
      ensures result == 0 ==>
        index == old(index) + 1 && From(bytes, old(index)) == From(bytes, index)
      ensures result == 1 ==>
        && index == old(index) + 2 && index < |bytes| && index + length <= |bytes|
        && parameter == Parameter(bytes[index..index + length])
        && From(bytes, old(index)) == [ItemAt(bytes, index, code, length)] +
             if length == 0 then [] else From(bytes, index + length)
    {
      hide *;
      ItemsAt(bytes, index);
      MalformedIs(bytes, index);
      result := -1;
      if code == END {
        return;
      }
      if code == PAD {
        index := index + 1;
        return 0;
      }
      if index + 1 >= |bytes| {
        return;
      }
      length := bytes[index + 1];
      index := index + 2;
      if index + length - 1 >= |bytes| {
        return;
      }
      ParameterAt(bytes, index, length);
      if length >= 4 {
        parameter := Value32(bytes[index..index + 4]);
      } else {
        parameter := 0;
      }
      if index >= |bytes| {
        return;
      }
      result := 1;
    }

    /** The first `count` usable addresses of the option under the cursor. */
    method ReadHosts(count: nat) returns (hosts: seq<UInt32>)
      requires index + length <= |bytes| && 4 * count <= length
      ensures hosts == Hosts(bytes[index..index + length], count)
    {
      hide *;
      ghost var value := bytes[index..index + length];
      NoHost(value);
      hosts := [];
      for i := 0 to count
        invariant hosts == Hosts(value, i)
      {
        var at := index + 4 * i;
        SliceOfSlice(bytes, index, length, 4 * i);
        NextHost(value, i);
        var a := Value32(bytes[at..at + 4]);
        if a != 0 && a != 0xFFFF_FFFF {
          hosts := hosts + [a];
        }
      }
    }

    /** Stores the list of DNS servers of the option under the cursor. */
    method ReadDns() returns (dns: seq<UInt32>)
      requires index + length <= |bytes|
      ensures dns == DnsList(bytes[index..index + length], cfg.dnsCapacity)
    {
      hide Hosts;
      var hosts := ReadHosts(Min(length / 4, cfg.dnsCapacity));
      dns := ZeroFill(hosts, cfg.dnsCapacity);
    }

    method HandleOption(expected: Byte)
      requires index < |bytes| && index + length <= |bytes|
      requires parameter == Parameter(bytes[index..index + length])
      modifies `length, `processed, `terms
      ensures
        var it := ItemAt(bytes, index, code, old(length));
        && State() == Handled(cfg, expected, old(State()), it)
        && length == if StopsAt(it, expected) then 0 else old(length)
    {
      hide Parameter, DnsList, RenewalTime;
      if code == MESSAGE_TYPE {
        if bytes[index] == expected {
          processed := processed + 1;
        } else {
          if bytes[index] == NACK {
            if expected == ACK {
              terms := terms.(refused := true);
            }
          }
          length := 0;
        }
      } else if code == SUBNET_MASK {
        if length == 4 {
          terms := terms.(netMask := parameter);
        }
      } else if code == GATEWAY {
        if length >= 4 {
          terms := terms.(gateway := parameter);
        }
      } else if code == DNS_SERVER {
        if length >= 4 {
          var dns := ReadDns();
          terms := terms.(dns := dns);
        }
      } else if code == SERVER_ID {
        if length == 4 {
          if expected == OFFER {
            processed := processed + 1;
            terms := terms.(server := parameter);
          } else if terms.server == parameter {
            processed := processed + 1;
          }
        }
      } else if code == LEASE_TIME {
        if length == 4 {
          terms := terms.(leaseTime := RenewalTime(parameter, cfg.tickRate));
        }
      }
    }

    /** One turn of the walk: it is over, or goes on behind an option or a padding byte. */
    method WalkOn(expected: Byte) returns (over: bool)
      requires index < |bytes|
      modifies this
      ensures over ==> State() == Process(cfg, expected, old(State()), From(bytes, old(index)))
      ensures !over ==> old(index) < index <= |bytes|
      ensures !over ==>
        Process(cfg, expected, State(), From(bytes, index)) ==
          Process(cfg, expected, old(State()), From(bytes, old(index)))
    {
      hide Process, Handled, StopsAt, Parameter, Items, From, ItemAt;
      code := bytes[index];
      ghost var before, items := State(), From(bytes, index);
      ProcessFirst(cfg, expected, before, Item(0, 0, []), []);
      var result := CheckOption();
      if result > 0 {
        ghost var rest := if length == 0 then [] else From(bytes, index + length);
        ProcessFirst(cfg, expected, before, ItemAt(bytes, index, code, length), rest);
        HandleOption(expected);
        ProcessFirst(cfg, expected, State(), Item(0, 0, []), []);
      }
      over := result < 0 || (result > 0 && length == 0);
      if result > 0 && length > 0 {
        index := index + length;
      }
    }

    /** The walk ends on every byte string, and does what the declarative reading says. */
    method Walk(expected: Byte)
      requires index == 0 && processed == 0
      modifies this
      ensures State() == Process(cfg, expected, old(State()), Items(bytes))
    {
      assert From(bytes, 0) == Items(bytes) && From(bytes, |bytes|) == [] by {
        assert bytes[0..] == bytes;
      }
      hide Process, Items, From;
      ghost var goal := Process(cfg, expected, State(), Items(bytes));
      while index < |bytes|
        invariant index <= |bytes|
        invariant Process(cfg, expected, State(), From(bytes, index)) == goal
        decreases |bytes| - index
      {
        var over := WalkOn(expected);
        if over {
          return;
        }
      }
      ProcessFirst(cfg, expected, State(), Item(0, 0, []), []);
    }
  }
}
