/** What the options of a DHCPv4 message set, read from the message itself: the last usable
    option of each code wins, and what no option names stays as it was. */
module Dhcpv4Terms {
  import opened Common
  import opened BitCursor
  import opened Dhcpv4Options

  // ------------------------------------------------------------ usable options

  /** The lengths with which the options are used: exactly one number, or at least one address. */
  predicate Fits(code: Byte, length: nat) {
    if code == 1 || code == 51 then length == 4 else length >= 4
  }

  predicate Gives(it: Item, code: Byte) { it.code == code && Fits(code, |it.value|) }

  /** The value of the last usable option with a code. */
  function Carried(items: seq<Item>, code: Byte): (v: Option<Bytes>)
    ensures v.Some? ==> |v.value| >= 4
  {
    if items == [] then None
    else
      var v := Carried(items[1..], code);
      if v.Some? then v else if Gives(items[0], code) then Some(items[0].value) else None
  }

  ghost predicate LastGives(items: seq<Item>, code: Byte, i: int) {
    0 <= i < |items| && Gives(items[i], code) && forall j :: i < j < |items| ==> !Gives(items[j], code)
  }

  lemma {:induction false} CarriedIsLast(items: seq<Item>, code: Byte, i: int)
    requires LastGives(items, code, i)
    ensures Carried(items, code) == Some(items[i].value)
  {
    hide Gives;
    if i > 0 {
      assert LastGives(items[1..], code, i - 1);
      CarriedIsLast(items[1..], code, i - 1);
    } else {
      NoneCarried(items[1..], code);
    }
  }

  lemma {:induction false} NoneCarried(items: seq<Item>, code: Byte)
    requires forall j :: 0 <= j < |items| ==> !Gives(items[j], code)
    ensures Carried(items, code) == None
  {
    hide Gives;
    if items != [] {
      NoneCarried(items[1..], code);
    }
  }

  // ---------------------------------------------------------------- the numbers

  /** The `k`-th address in a value, in network byte order. */
  function Address(v: Bytes, k: nat): UInt32
    requires 4 * k + 4 <= |v|
  {
    var b0: int, b1: int, b2: int, b3: int := v[4 * k], v[4 * k + 1], v[4 * k + 2], v[4 * k + 3];
    b0 * 0x100_0000 + b1 * 0x1_0000 + b2 * 0x100 + b3
  }

  lemma AddressIsRead(v: Bytes, k: nat)
    requires 4 * k + 4 <= |v|
    ensures Value32(v[4 * k..4 * k + 4]) == Address(v, k)
  {
  }

  /** The terms have the value, or what they had before. */
  predicate Has(now: UInt32, was: UInt32, v: Option<Bytes>)
    requires v.Some? ==> |v.value| >= 4
  {
    now == match v case None => was case Some(bs) => Address(bs, 0)
  }

  /** `ticks` is half of `seconds` in clock ticks, to within half a second, and cut to 32 bits. */
  ghost predicate IsHalfLease(ticks: UInt32, seconds: UInt32, tickRate: UInt32) {
    exists wraps: nat :: HalvesWith(ticks, seconds, tickRate, wraps)
  }

  predicate HalvesWith(ticks: UInt32, seconds: UInt32, tickRate: UInt32, wraps: nat) {
    var t: int := ticks;
    var total: int := tickRate * seconds;
    && 2 * (t + wraps * 0x1_0000_0000) <= total <= 2 * (t + wraps * 0x1_0000_0000) + tickRate
    && (total < 0x2_0000_0000 ==> wraps == 0)
  }

  lemma RenewalIsHalf(seconds: UInt32, tickRate: UInt32)
    ensures IsHalfLease(RenewalTime(seconds, tickRate), seconds, tickRate)
  {
    var half: int := seconds / 2;
    var product: int := tickRate * half;
    var wraps: nat := product / 0x1_0000_0000;
    HalfOf(seconds, tickRate, half);
    assert product == wraps * 0x1_0000_0000 + product % 0x1_0000_0000;
    assert HalvesWith(RenewalTime(seconds, tickRate), seconds, tickRate, wraps);
  }

  lemma HalfOf(seconds: int, tickRate: int, half: int)
    requires seconds >= 0 && tickRate >= 0 && half == seconds / 2
    ensures 2 * (tickRate * half) <= tickRate * seconds <= 2 * (tickRate * half) + tickRate
  {
    var r := seconds - 2 * half;
    assert tickRate * seconds == 2 * (tickRate * half) + tickRate * r;
    assert r == 0 || r == 1;
  }

  // -------------------------------------------------------------- the DNS servers

  predicate NamesHost(a: UInt32) { a != 0 && a != 0xFFFF_FFFF }

  /** The picks are, in order, the addresses among the first `n` that name a host. */
  ghost predicate PicksHosts(v: Bytes, n: nat, picks: seq<nat>)
    requires 4 * n <= |v|
  {
    && (forall i :: 0 <= i < |picks| ==> picks[i] < n && NamesHost(Address(v, picks[i])))
    && (forall i, j :: 0 <= i < j < |picks| ==> picks[i] < picks[j])
    && (forall k :: 0 <= k < n && NamesHost(Address(v, k)) ==> k in picks)
  }

  /** As many servers as fit: the hosts among the first addresses, then zeros. */
  ghost predicate IsDnsList(dns: seq<UInt32>, v: Bytes, capacity: nat) {
    var n := Min(|v| / 4, capacity);
    exists picks :: PicksHosts(v, n, picks) && ListsPicks(dns, v, n, capacity, picks)
  }

  predicate ListsPicks(dns: seq<UInt32>, v: Bytes, n: nat, capacity: nat, picks: seq<nat>)
    requires 4 * n <= |v| && forall i :: 0 <= i < |picks| ==> picks[i] < n
  {
    && |dns| == capacity && |picks| <= capacity
    && forall i :: 0 <= i < capacity ==> dns[i] == if i < |picks| then Address(v, picks[i]) else 0
  }

  lemma {:induction false} HostsArePicked(v: Bytes, n: nat) returns (picks: seq<nat>)
    requires 4 * n <= |v|
    ensures PicksHosts(v, n, picks) && |picks| == |Hosts(v, n)|
    ensures forall i :: 0 <= i < |picks| ==> Hosts(v, n)[i] == Address(v, picks[i])
    decreases n
  {
    hide *;
    if n == 0 {
      picks := [];
      NothingPicked(v);
    } else {
      var most := HostsArePicked(v, n - 1);
      var a := Address(v, n - 1);
      AddressIsRead(v, n - 1);
      HostIsAdded(v, n, a);
      picks := if NamesHost(a) then most + [n - 1] else most;
      PickedNext(v, n - 1, most);
    }
  }

  lemma NothingPicked(v: Bytes)
    ensures PicksHosts(v, 0, []) && Hosts(v, 0) == []
  {
  }

  lemma PickedNext(v: Bytes, n: nat, picks: seq<nat>)
    requires 4 * n + 4 <= |v| && PicksHosts(v, n, picks)
    ensures PicksHosts(v, n + 1, if NamesHost(Address(v, n)) then picks + [n] else picks)
  {
    hide Address, NamesHost;
    var picks' := if NamesHost(Address(v, n)) then picks + [n] else picks;
    assert NamesHost(Address(v, n)) ==> picks'[|picks|] == n;
    assert forall k :: k in picks ==> k in picks';
  }

  lemma HostIsAdded(v: Bytes, n: nat, a: UInt32)
    requires 0 < n && 4 * n <= |v| && a == Value32(v[4 * n - 4..4 * n])
    ensures Hosts(v, n) == if NamesHost(a) then Hosts(v, n - 1) + [a] else Hosts(v, n - 1)
  {
    hide Value32;
    assert Hosts(v, n - 1) + [] == Hosts(v, n - 1);
  }

  lemma DnsListIs(v: Bytes, capacity: nat)
    ensures IsDnsList(DnsList(v, capacity), v, capacity)
  {
    var n := Min(|v| / 4, capacity);
    var picks := HostsArePicked(v, n);
    hide Address, NamesHost, Hosts, PicksHosts;
    assert ListsPicks(DnsList(v, capacity), v, n, capacity, picks);
  }

  // ------------------------------------------------------------------- the terms

  /** The terms after a list of options, against the terms before it. */
  ghost predicate Follows(cfg: Config, now: Terms, was: Terms, items: seq<Item>) {
    && Has(now.netMask, was.netMask, Carried(items, 1))
    && Has(now.gateway, was.gateway, Carried(items, 3))
    && (match Carried(items, 6)
        case None => now.dns == was.dns
        case Some(v) => IsDnsList(now.dns, v, cfg.dnsCapacity))
    && (match Carried(items, 51)
        case None => now.leaseTime == was.leaseTime
        case Some(v) => IsHalfLease(now.leaseTime, Address(v, 0), cfg.tickRate))
  }

  // One option sets what its code says and nothing else.
  lemma ApplyIs(cfg: Config, expected: Byte, t: Terms, it: Item)
    ensures var t' := Apply(cfg, expected, t, it);
      && t'.netMask == (if Gives(it, 1) then Address(it.value, 0) else t.netMask)
      && t'.gateway == (if Gives(it, 3) then Address(it.value, 0) else t.gateway)
      && (if Gives(it, 6) then IsDnsList(t'.dns, it.value, cfg.dnsCapacity) else t'.dns == t.dns)
      && (if Gives(it, 51) then IsHalfLease(t'.leaseTime, Address(it.value, 0), cfg.tickRate)
          else t'.leaseTime == t.leaseTime)
  {
    hide Value32, Address, IsDnsList, IsHalfLease, DnsList, RenewalTime;
    if |it.value| >= 4 {
      AddressIsRead(it.value, 0);
      DnsListIs(it.value, cfg.dnsCapacity);
      RenewalIsHalf(Address(it.value, 0), cfg.tickRate);
    }
  }

  /** Processing leaves in the terms what the options before the stop carry. */
  lemma {:induction false} TermsFollow(cfg: Config, expected: Byte, p: Progress, items: seq<Item>)
    ensures Follows(cfg, Process(cfg, expected, p, items).terms, p.terms, Before(items, expected))
    decreases items
  {
    hide Apply, IsDnsList, IsHalfLease, Gives, Address;
    if items != [] {
      var it := items[0];
      ApplyIs(cfg, expected, p.terms, it);
      var p1 := Handled(cfg, expected, p, it);
      if StopsAt(it, expected) {
        StopGivesNothing(it, expected);
      } else {
        TermsFollow(cfg, expected, p1, items[1..]);
        var b := Before(items, expected);
        assert b[0] == it && b[1..] == Before(items[1..], expected);
      }
    }
  }

  lemma StopGivesNothing(it: Item, expected: Byte)
    requires StopsAt(it, expected)
    ensures !Gives(it, 1) && !Gives(it, 3) && !Gives(it, 6) && !Gives(it, 51)
  {
  }

  lemma {:induction false} NothingStops(items: seq<Item>, expected: Byte)
    requires forall i :: 0 <= i < |items| ==> !StopsAt(items[i], expected)
    ensures Before(items, expected) == items
  {
    hide StopsAt;
    if items != [] {
      NothingStops(items[1..], expected);
      assert items == [items[0]] + items[1..];
    }
  }

  /** From the bytes: what an encoded list of options without a wrong message type sets. */
  lemma EncodedTermsFollow(cfg: Config, expected: Byte, p: Progress, items: seq<Item>, junk: Bytes)
    requires forall i :: 0 <= i < |items| ==> Encodable(items[i]) && !StopsAt(items[i], expected)
    ensures Follows(cfg, Process(cfg, expected, p, Items(Encode(items) + [255] + junk)).terms, p.terms, items)
  {
    ItemsOfEncoded(items, junk);
    NothingStops(items, expected);
    TermsFollow(cfg, expected, p, items);
  }
}
