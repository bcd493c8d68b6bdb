/** The ARP cache as a value: a fixed-length sequence of rows and one function
    per cache operation. `ArpCache.dfy` holds the in-place version. */
module ArpTable {
  import opened Common

  type Ip = UInt32
  type Mac = x: int | 0 <= x < 0x1_0000_0000_0000
  type EndPointId = nat

  /** `ip == 0` marks a free row. An expired row keeps its old MAC address. */
  datatype Row = Row(ip: Ip, mac: Mac, age: Byte, valid: bool, endPoint: Option<EndPointId>)

  const EMPTY_ROW := Row(0, 0, 0, false, None)

  /** An entry asks for a new ARP request once its age is at most this. */
  const MAX_AGE_BEFORE_NEW_REQUEST := 3

  datatype Config = Config(maxAge: Byte, maxRetransmissions: Byte)

  ghost predicate ValidConfig(c: Config) {
    c.maxAge > 0 && c.maxRetransmissions > 0
  }

  type Table = seq<Row>

  datatype Key = ByIp(ip: Ip) | ByMac(mac: Mac) | ByBoth(ip: Ip, mac: Mac)

  predicate Matches(r: Row, k: Key) {
    match k
    case ByIp(ip) => r.ip == ip
    case ByMac(mac) => r.mac == mac
    case ByBoth(ip, mac) => r.ip == ip && r.mac == mac
  }

  /** The first matching row, or -1. */
  function First(t: Table, k: Key): (x: int)
    ensures -1 <= x < |t|
    ensures x >= 0 ==> Matches(t[x], k) && forall j :: 0 <= j < x ==> !Matches(t[j], k)
    ensures x < 0 ==> forall j :: 0 <= j < |t| ==> !Matches(t[j], k)
  {
    if t == [] then -1
    else
      var x := First(t[..|t| - 1], k);
      if x >= 0 then x else if Matches(t[|t| - 1], k) then |t| - 1 else -1
  }

  /** The last matching row, or -1. */
  function Last(t: Table, k: Key): (x: int)
    ensures -1 <= x < |t|
    ensures x >= 0 ==> Matches(t[x], k) && forall j :: x < j < |t| ==> !Matches(t[j], k)
    ensures x < 0 ==> forall j :: 0 <= j < |t| ==> !Matches(t[j], k)
  {
    if t == [] then -1
    else if Matches(t[|t| - 1], k) then |t| - 1
    else Last(t[..|t| - 1], k)
  }

  /** The first row of minimum age. */
  function Oldest(t: Table): (x: nat)
    requires t != []
    ensures x < |t|
    ensures forall j :: 0 <= j < |t| ==> t[x].age <= t[j].age
    ensures forall j :: 0 <= j < x ==> t[x].age < t[j].age
  {
    if |t| == 1 then 0
    else
      var x := Oldest(t[..|t| - 1]);
      if t[|t| - 1].age < t[x].age then |t| - 1 else x
  }

  /** Adding or updating the mapping of a local address. Without a MAC address a
      row is reserved for an outstanding ARP request. */
  function Refreshed(c: Config, t: Table, mac: Option<Mac>, ip: Ip, ep: Option<EndPointId>): (t': Table)
    requires t != []
    ensures |t'| == |t|
  {
    match mac
    case None =>
      if First(t, ByIp(ip)) >= 0 then t
      else t[Oldest(t) := t[Oldest(t)].(ip := ip, age := c.maxRetransmissions, valid := false)]
    case Some(m) =>
      var entry := Row(ip, m, c.maxAge, true, ep);
      var both := First(t, ByBoth(ip, m));
      if both >= 0 then t[both := entry]
      else
        var i, k := Last(t, ByIp(ip)), Last(t, ByMac(m));
        if k >= 0 then (if i >= 0 then t[i := EMPTY_ROW] else t)[k := entry]
        else if i >= 0 then t[i := entry]
        else t[Oldest(t) := entry]
  }

  /** The row that a refresh with MAC address `m` overwrites. */
  function Slot(t: Table, m: Mac, ip: Ip): (x: nat)
    requires t != []
    ensures x < |t|
  {
    if First(t, ByBoth(ip, m)) >= 0 then First(t, ByBoth(ip, m))
    else if Last(t, ByMac(m)) >= 0 then Last(t, ByMac(m))
    else if Last(t, ByIp(ip)) >= 0 then Last(t, ByIp(ip))
    else Oldest(t)
  }

  function AgedRow(r: Row): Row {
    if r.age == 0 then r
    else r.(age := r.age - 1, ip := if r.age == 1 then 0 else r.ip)
  }

  /** Does this row ask for an ARP request when it is aged? */
  predicate AsksWhenAged(r: Row) {
    r.age > 0 && (!r.valid || r.age - 1 <= MAX_AGE_BEFORE_NEW_REQUEST)
  }

  function Aged(t: Table): (t': Table)
    ensures |t'| == |t| && forall i :: 0 <= i < |t| ==> t'[i] == AgedRow(t[i])
  {
    if t == [] then [] else Aged(t[..|t| - 1]) + [AgedRow(t[|t| - 1])]
  }

  /** The addresses asked for by one ageing pass, in row order. */
  function AgeRequests(t: Table): seq<Ip> {
    if t == [] then []
    else AgeRequests(t[..|t| - 1]) + if AsksWhenAged(t[|t| - 1]) then [t[|t| - 1].ip] else []
  }

  function Cleared(t: Table, ep: Option<EndPointId>): (t': Table)
    ensures |t'| == |t|
    ensures forall i :: 0 <= i < |t| ==>
      t'[i] == if ep.None? || t[i].endPoint == ep then EMPTY_ROW else t[i]
  {
    if t == [] then []
    else
      var r := t[|t| - 1];
      Cleared(t[..|t| - 1], ep) + [if ep.None? || r.endPoint == ep then EMPTY_ROW else r]
  }

  function Removed(t: Table, mac: Mac): (t': Table)
    ensures |t'| == |t|
  {
    var x := First(t, ByMac(mac));
    if x >= 0 then t[x := EMPTY_ROW] else t
  }

  function AgeRefreshed(c: Config, t: Table, mac: Mac, ip: Ip): (t': Table)
    ensures |t'| == |t|
  {
    var x := First(t, ByBoth(ip, mac));
    if x >= 0 then t[x := t[x].(age := c.maxAge)] else t
  }

  // ---------------------------------------------------------------- lookups

  /** `Unresolved`: the address is being asked for, or cannot be reached. */
  datatype Resolution = Hit(mac: Mac, endPoint: Option<EndPointId>) | Unresolved | Miss

  function EntryOf(r: Row): Resolution {
    if r.valid then Hit(r.mac, r.endPoint) else Unresolved
  }

  function Lookup(t: Table, ip: Ip): Resolution {
    var x := First(t, ByIp(ip));
    if x < 0 then Miss else EntryOf(t[x])
  }

  ghost function Addresses(t: Table): set<Ip> {
    set i | 0 <= i < |t| && t[i].ip != 0 :: t[i].ip
  }

  /** The table read as a finite map from addresses to what a lookup reports. */
  ghost function View(t: Table): map<Ip, Resolution> {
    map ip | ip in Addresses(t) :: Lookup(t, ip)
  }

  // -------------------------------------------------------------- invariants

  /** No nonzero address and no nonzero MAC is in two rows. */
  ghost predicate Injective(t: Table) {
    forall i, j :: 0 <= i < j < |t| ==>
      (t[i].ip != 0 ==> t[i].ip != t[j].ip) && (t[i].mac != 0 ==> t[i].mac != t[j].mac)
  }

  /** A row has age zero exactly when it is free. */
  ghost predicate AgesAgree(t: Table) {
    forall i :: 0 <= i < |t| ==> (t[i].age == 0 <==> t[i].ip == 0)
  }

  // --------------------------------------------------------------------- runs

  datatype Event =
    | Refresh(mac: Option<Mac>, ip: Ip, ep: Option<EndPointId>, local: bool)
    | Age
    | Clear(endPoint: Option<EndPointId>)
    | Remove(removed: Mac)
    | RefreshAge(keptMac: Mac, keptIp: Ip)

  function Step(c: Config, t: Table, e: Event): (t': Table)
    requires t != []
    ensures |t'| == |t|
  {
    match e
    case Refresh(mac, ip, ep, local) => if local then Refreshed(c, t, mac, ip, ep) else t
    case Age => Aged(t)
    case Clear(ep) => Cleared(t, ep)
    case Remove(mac) => Removed(t, mac)
    case RefreshAge(mac, ip) => AgeRefreshed(c, t, mac, ip)
  }

  function Run(c: Config, t: Table, es: seq<Event>): (t': Table)
    requires t != []
    ensures |t'| == |t|
  {
    if es == [] then t else Step(c, Run(c, t, es[..|es| - 1]), es[|es| - 1])
  }

  /** The event gives an age to a free row: it names address zero. */
  predicate AgesFreeRow(t: Table, e: Event) {
    match e
    case Refresh(mac, ip, _, local) => local && ip == 0 && (mac.Some? || First(t, ByIp(0)) < 0)
    case RefreshAge(mac, ip) => ip == 0 && First(t, ByBoth(0, mac)) >= 0
    case _ => false
  }

  lemma RefreshKeepsInjective(c: Config, t: Table, mac: Option<Mac>, ip: Ip, ep: Option<EndPointId>)
    requires t != [] && Injective(t)
    ensures Injective(Refreshed(c, t, mac, ip, ep))
  {
  }

  // Every step, whatever its arguments, keeps the table injective.
  lemma StepKeepsInjective(c: Config, t: Table, e: Event)
    requires t != [] && Injective(t)
    ensures Injective(Step(c, t, e))
  {
    match e
    case Refresh(mac, ip, ep, _) => RefreshKeepsInjective(c, t, mac, ip, ep);
    case Age =>
    case Clear(_) =>
    case Remove(_) =>
    case RefreshAge(_, _) =>
  }

  lemma RefreshKeepsAgesIff(c: Config, t: Table, mac: Option<Mac>, ip: Ip, ep: Option<EndPointId>)
    requires ValidConfig(c) && t != [] && Injective(t) && AgesAgree(t)
    ensures AgesAgree(Refreshed(c, t, mac, ip, ep)) <==> !AgesFreeRow(t, Refresh(mac, ip, ep, true))
  {
    var t' := Refreshed(c, t, mac, ip, ep);
    if AgesFreeRow(t, Refresh(mac, ip, ep, true)) {
      var x := if mac.None? then Oldest(t) else Slot(t, mac.value, 0);
      assert t'[x].ip == 0 && t'[x].age != 0;
    }
  }

  // The age rule survives a step exactly when the step does not age a free row.
  lemma StepKeepsAgesIff(c: Config, t: Table, e: Event)
    requires ValidConfig(c) && t != [] && Injective(t) && AgesAgree(t)
    ensures AgesAgree(Step(c, t, e)) <==> !AgesFreeRow(t, e)
  {
    match e
    case Refresh(mac, ip, ep, _) => RefreshKeepsAgesIff(c, t, mac, ip, ep);
    case Age =>
    case Clear(_) =>
    case Remove(_) =>
    case RefreshAge(mac, ip) =>
      if AgesFreeRow(t, e) {
        assert Step(c, t, e)[First(t, ByBoth(0, mac))].age != 0;
      }
  }

  /** A run in which no event ages a free row. */
  ghost predicate NamesLiveAddresses(c: Config, t: Table, es: seq<Event>)
    requires t != []
  {
    forall n :: 0 <= n < |es| ==> !AgesFreeRow(Run(c, t, es[..n]), es[n])
  }

  // Whole runs: the table stays a partial injection, and its ages stay right
  // when no event ages a free row.
  lemma {:induction false} RunKeepsInjective(c: Config, t: Table, es: seq<Event>)
    requires t != [] && Injective(t)
    ensures Injective(Run(c, t, es))
  {
    if es != [] {
      var n := |es| - 1;
      RunKeepsInjective(c, t, es[..n]);
      StepKeepsInjective(c, Run(c, t, es[..n]), es[n]);
    }
  }

  lemma {:induction false} RunKeepsAges(c: Config, t: Table, es: seq<Event>)
    requires ValidConfig(c) && t != [] && Injective(t) && AgesAgree(t)
    requires NamesLiveAddresses(c, t, es)
    ensures AgesAgree(Run(c, t, es))
  {
    if es != [] {
      var n := |es| - 1;
      assert forall m :: 0 <= m < n ==> es[..n][..m] == es[..m];
      RunKeepsAges(c, t, es[..n]);
      RunKeepsInjective(c, t, es[..n]);
      StepKeepsAgesIff(c, Run(c, t, es[..n]), es[n]);
    }
  }

  // ----------------------------------------------- refresh as a map update

  // What a refresh does to the rows: one slot is written, and a second row that
  // held the same address is emptied.
  lemma RefreshRows(c: Config, t: Table, m: Mac, ip: Ip, ep: Option<EndPointId>)
    requires t != [] && Injective(t) && ip != 0
    ensures var t', x := Refreshed(c, t, Some(m), ip, ep), Slot(t, m, ip);
      && t'[x] == Row(ip, m, c.maxAge, true, ep)
      && forall i :: 0 <= i < |t| && i != x ==> t'[i] == if t[i].ip == ip then EMPTY_ROW else t[i]
  {
  }

  // Refreshing with a MAC address is a bounded map update: the address is bound to
  // the given MAC and end-point, and at most one other address, the one in the slot
  // written, loses its entry.
  lemma RefreshUpdatesMap(c: Config, t: Table, m: Mac, ip: Ip, ep: Option<EndPointId>)
    requires t != [] && Injective(t) && ip != 0
    ensures View(Refreshed(c, t, Some(m), ip, ep))
         == (View(t) - {t[Slot(t, m, ip)].ip})[ip := Hit(m, ep)]
  {
    var t', x := Refreshed(c, t, Some(m), ip, ep), Slot(t, m, ip);
    RefreshRows(c, t, m, ip, ep);
    StepKeepsInjective(c, t, Refresh(Some(m), ip, ep, true));
    SlotUpdate(t, t', x, Row(ip, m, c.maxAge, true, ep));
  }

  // A table that differs from `t` in one slot, and in emptied rows of the same address.
  ghost predicate DiffersInSlot(t: Table, t': Table, x: nat, entry: Row) {
    && |t'| == |t| && x < |t| && entry.ip != 0 && t'[x] == entry
    && forall i :: 0 <= i < |t| && i != x ==>
         t'[i] == if t[i].ip == entry.ip then EMPTY_ROW else t[i]
  }

  lemma SlotLookup(t: Table, t': Table, x: nat, entry: Row, a: Ip)
    requires Injective(t) && Injective(t') && DiffersInSlot(t, t', x, entry) && a != 0
    ensures Lookup(t', a) ==
      if a == entry.ip then EntryOf(entry) else if a == t[x].ip then Miss else Lookup(t, a)
  {
    var i := First(t, ByIp(a));
    if a != entry.ip && a != t[x].ip && i >= 0 {
      assert t'[i] == t[i];
      assert First(t', ByIp(a)) == i;
    }
  }

  lemma ViewIsLookup(t: Table, a: Ip)
    ensures a in View(t) <==> a != 0 && Lookup(t, a) != Miss
    ensures a in View(t) ==> View(t)[a] == Lookup(t, a)
  {
  }

  lemma SlotUpdate(t: Table, t': Table, x: nat, entry: Row)
    requires Injective(t) && Injective(t') && DiffersInSlot(t, t', x, entry)
    ensures View(t') == (View(t) - {t[x].ip})[entry.ip := EntryOf(entry)]
  {
    assert x < |t|;
    hide *;
    var v, v' := (View(t) - {t[x].ip})[entry.ip := EntryOf(entry)], View(t');
    forall a: Ip
      ensures a in v' <==> a in v
      ensures a in v' ==> v'[a] == v[a]
    {
      KeyUpdate(t, t', x, entry, a);
    }
  }

  lemma KeyUpdate(t: Table, t': Table, x: nat, entry: Row, a: Ip)
    requires Injective(t) && Injective(t') && DiffersInSlot(t, t', x, entry)
    ensures a in View(t') <==> a == entry.ip || (a in View(t) && a != t[x].ip)
    ensures a == entry.ip ==> View(t')[a] == EntryOf(entry)
    ensures a in View(t') && a != entry.ip ==> View(t')[a] == View(t)[a]
  {
    assert EntryOf(entry) != Miss;
    ViewIsLookup(t, a);
    ViewIsLookup(t', a);
    if a != 0 {
      SlotLookup(t, t', x, entry, a);
    }
    hide Injective, Lookup, View, EntryOf;
  }

  // Which address a refresh displaces: the one that held the same MAC address before,
  // or, when neither the MAC nor the address was in the table, one of minimum age; and
  // then no row was free.
  lemma DisplacedOnlyWhenMovedOrFull(t: Table, m: Mac, ip: Ip)
    requires t != [] && Injective(t) && AgesAgree(t) && ip != 0
    ensures var was := t[Slot(t, m, ip)];
      was.ip == 0 || was.ip == ip || was.mac == m ||
      (forall i :: 0 <= i < |t| ==>
        t[i].ip != ip && t[i].mac != m && t[i].ip != 0 && was.age <= t[i].age)
  {
  }

  // Reserving a row for an unanswered address: a known address keeps its entry, a new
  // one becomes pending in a row of minimum age.
  lemma ReserveUpdatesMap(c: Config, t: Table, ip: Ip, ep: Option<EndPointId>)
    requires t != [] && Injective(t) && AgesAgree(t) && ip != 0
    ensures var t', was := Refreshed(c, t, None, ip, ep), t[Oldest(t)];
      && (ip in View(t) ==> View(t') == View(t))
      && (ip !in View(t) ==> View(t') == (View(t) - {was.ip})[ip := Unresolved])
      && (was.ip != 0 ==> forall i :: 0 <= i < |t| ==> t[i].ip != 0 && was.age <= t[i].age)
  {
    var t', x := Refreshed(c, t, None, ip, ep), Oldest(t);
    if First(t, ByIp(ip)) >= 0 {
    } else {
      StepKeepsInjective(c, t, Refresh(None, ip, ep, true));
      SlotUpdate(t, t', x, t'[x]);
    }
  }

  // ---------------------------------------------- when address zero is named

  predicate NamesAddress(e: Event) {
    (e.Refresh? ==> e.ip != 0) && (e.RefreshAge? ==> e.keptIp != 0)
  }

  // Naming nonzero addresses only is enough for the age rule, whatever the table.
  lemma NonzeroAddressesKeepAges(c: Config, t: Table, es: seq<Event>)
    requires ValidConfig(c) && t != [] && Injective(t) && AgesAgree(t)
    requires forall n :: 0 <= n < |es| ==> NamesAddress(es[n])
    ensures AgesAgree(Run(c, t, es))
  {
    hide Run, AgesAgree, Injective;
    forall n | 0 <= n < |es|
      ensures !AgesFreeRow(Run(c, t, es[..n]), es[n])
    {
      assert NamesAddress(es[n]);
    }
    RunKeepsAges(c, t, es);
  }

  // Address zero is not refused: on the empty table of any size one refresh with it breaks the rule.
  lemma ZeroAddressExample(c: Config, size: nat, mac: Mac, ep: Option<EndPointId>)
    requires ValidConfig(c) && size > 0
    ensures var t := seq(size, i => EMPTY_ROW);
      && Injective(t) && AgesAgree(t)
      && !AgesAgree(Step(c, t, Refresh(Some(mac), 0, ep, true)))
  {
    var t := seq(size, i => EMPTY_ROW);
    StepKeepsAgesIff(c, t, Refresh(Some(mac), 0, ep, true));
  }

  // ------------------------------------------------------ life of a row

  function AgeCount(es: seq<Event>): nat {
    if es == [] then 0 else AgeCount(es[..|es| - 1]) + if es[|es| - 1].Age? then 1 else 0
  }

  /** All the ARP requests a run asks for through ageing. */
  function RunRequests(c: Config, t: Table, es: seq<Event>): seq<Ip>
    requires t != []
  {
    if es == [] then []
    else
      var n := |es| - 1;
      RunRequests(c, t, es[..n]) + if es[n].Age? then AgeRequests(Run(c, t, es[..n])) else []
  }

  /** No event other than ageing changes row `i`. */
  ghost predicate LeftAlone(c: Config, t: Table, es: seq<Event>, i: nat)
    requires t != [] && i < |t|
  {
    forall n :: 0 <= n < |es| && !es[n].Age? ==>
      Step(c, Run(c, t, es[..n]), es[n])[i] == Run(c, t, es[..n])[i]
  }

  /** How often a row of the given age asks during its next `n` ageing steps. */
  function AsksWithin(r: Row, n: nat): nat
    requires n <= r.age
  {
    if !r.valid then n
    else if r.age - n >= MAX_AGE_BEFORE_NEW_REQUEST + 1 then 0
    else Min(n, n - (r.age - (MAX_AGE_BEFORE_NEW_REQUEST + 1)))
  }

  // One ageing pass asks for the address of a live row at most once.
  lemma {:induction false} AgeAsksOnce(t: Table, i: nat)
    requires Injective(t) && i < |t| && t[i].ip != 0
    ensures multiset(AgeRequests(t))[t[i].ip] == if AsksWhenAged(t[i]) then 1 else 0
  {
    var n := |t| - 1;
    if i == n {
      NeverAsked(t[..n], t[i].ip);
    } else {
      AgeAsksOnce(t[..n], i);
    }
  }

  lemma {:induction false} NeverAsked(t: Table, ip: Ip)
    requires First(t, ByIp(ip)) < 0
    ensures ip !in multiset(AgeRequests(t))
  {
    if t != [] {
      NeverAsked(t[..|t| - 1], ip);
    }
  }

  // A row that only ageing touches keeps its address until exactly its age-th ageing
  // step, and then is free.
  lemma {:induction false} RowLifetime(c: Config, t: Table, es: seq<Event>, i: nat)
    requires t != [] && i < |t| && t[i].ip != 0 && t[i].age > 0 && LeftAlone(c, t, es, i)
    ensures var r, n := t[i], AgeCount(es);
      Run(c, t, es)[i] == if n < r.age then r.(age := r.age - n) else r.(age := 0, ip := 0)
  {
    if es != [] {
      var n := |es| - 1;
      assert forall m :: 0 <= m < n ==> es[..n][..m] == es[..m];
      RowLifetime(c, t, es[..n], i);
      assert es[n].Age? ==> Run(c, t, es)[i] == AgedRow(Run(c, t, es[..n])[i]);
    }
  }

  // Until then a valid row asks for an ARP request on each of its last four steps (or on
  // all of them if it has fewer), and an unanswered one on every step.
  lemma {:induction false} RowRequests(c: Config, t: Table, es: seq<Event>, i: nat)
    requires t != [] && Injective(t) && i < |t| && t[i].ip != 0 && t[i].age > 0
    requires LeftAlone(c, t, es, i) && AgeCount(es) <= t[i].age
    ensures multiset(RunRequests(c, t, es))[t[i].ip] == AsksWithin(t[i], AgeCount(es))
  {
    if es != [] {
      var n := |es| - 1;
      LeftAloneBefore(c, t, es, i);
      hide LeftAlone, Run, Injective, AgeRequests, AsksWithin;
      RowRequests(c, t, es[..n], i);
      var count := AgeCount(es[..n]);
      if es[n].Age? {
        RowLifetime(c, t, es[..n], i);
        RunKeepsInjective(c, t, es[..n]);
        AgeAsksOnce(Run(c, t, es[..n]), i);
        AsksOnceMore(t[i], count);
      }
    }
  }

  lemma LeftAloneBefore(c: Config, t: Table, es: seq<Event>, i: nat)
    requires t != [] && i < |t| && es != [] && LeftAlone(c, t, es, i)
    ensures LeftAlone(c, t, es[..|es| - 1], i)
  {
    hide Run, Step;
    var n := |es| - 1;
    assert forall m :: 0 <= m < n ==> es[..n][..m] == es[..m];
  }

  lemma AsksOnceMore(r: Row, n: nat)
    requires n < r.age
    ensures AsksWithin(r, n + 1) == AsksWithin(r, n) + if AsksWhenAged(r.(age := r.age - n)) then 1 else 0
  {
  }

  // ------------------------------------------------- the ages that operations set

  // A refresh leaves the address in one row: that MAC address, full age, valid, that end-point.
  lemma RefreshSetsRow(c: Config, t: Table, m: Mac, ip: Ip, ep: Option<EndPointId>)
    requires t != [] && Injective(t) && ip != 0
    ensures var t' := Refreshed(c, t, Some(m), ip, ep);
      var x := First(t', ByIp(ip));
      x >= 0 && t'[x] == Row(ip, m, c.maxAge, true, ep)
  {
    var t' := Refreshed(c, t, Some(m), ip, ep);
    RefreshKeepsInjective(c, t, Some(m), ip, ep);
    assert t'[Slot(t, m, ip)] == Row(ip, m, c.maxAge, true, ep);
  }

  // Reserving a row for a new address gives it the age of the retransmissions.
  lemma ReserveSetsRow(c: Config, t: Table, ip: Ip, ep: Option<EndPointId>)
    requires t != [] && Injective(t) && First(t, ByIp(ip)) < 0
    ensures var t' := Refreshed(c, t, None, ip, ep);
      var x := First(t', ByIp(ip));
      x >= 0 && t'[x].ip == ip && t'[x].age == c.maxRetransmissions && !t'[x].valid
  {
    var t' := Refreshed(c, t, None, ip, ep);
    assert t'[Oldest(t)].ip == ip;
  }

  /** Nothing but ageing touches the row of the address. */
  ghost predicate Undisturbed(c: Config, t: Table, es: seq<Event>, ip: Ip)
    requires t != []
  {
    First(t, ByIp(ip)) >= 0 && LeftAlone(c, t, es, First(t, ByIp(ip)))
  }

  // So an address that nobody answers for is asked for as often as retransmissions are allowed,
  // once on each ageing pass, and then its row is free.
  lemma UnansweredLifetime(c: Config, t: Table, ip: Ip, ep: Option<EndPointId>, es: seq<Event>)
    requires ValidConfig(c) && t != [] && Injective(t) && ip != 0 && First(t, ByIp(ip)) < 0
    requires Undisturbed(c, Refreshed(c, t, None, ip, ep), es, ip)
    ensures var t', n := Refreshed(c, t, None, ip, ep), AgeCount(es);
      && (n <= c.maxRetransmissions ==> multiset(RunRequests(c, t', es))[ip] == n)
      && (Run(c, t', es)[First(t', ByIp(ip))].ip == if n < c.maxRetransmissions then ip else 0)
  {
    var t' := Refreshed(c, t, None, ip, ep);
    ReserveSetsRow(c, t, ip, ep);
    RefreshKeepsInjective(c, t, None, ip, ep);
    hide Refreshed, Run, RunRequests, LeftAlone, Injective, AgeCount;
    RowLifetime(c, t', es, First(t', ByIp(ip)));
    if AgeCount(es) <= c.maxRetransmissions {
      RowRequests(c, t', es, First(t', ByIp(ip)));
    }
  }

  // And a resolved address lives for the maximum age, and asks on its last four passes.
  lemma ResolvedLifetime(c: Config, t: Table, m: Mac, ip: Ip, ep: Option<EndPointId>, es: seq<Event>)
    requires ValidConfig(c) && t != [] && Injective(t) && ip != 0
    requires Undisturbed(c, Refreshed(c, t, Some(m), ip, ep), es, ip)
    ensures var t', n := Refreshed(c, t, Some(m), ip, ep), AgeCount(es);
      && (Run(c, t', es)[First(t', ByIp(ip))].ip == if n < c.maxAge then ip else 0)
      && (n <= c.maxAge ==>
            multiset(RunRequests(c, t', es))[ip] ==
              if n + 4 <= c.maxAge then 0 else if c.maxAge < 4 then n else n + 4 - c.maxAge)
  {
    var t' := Refreshed(c, t, Some(m), ip, ep);
    RefreshSetsRow(c, t, m, ip, ep);
    RefreshKeepsInjective(c, t, Some(m), ip, ep);
    hide Refreshed, Run, RunRequests, LeftAlone, Injective, AgeCount;
    RowLifetime(c, t', es, First(t', ByIp(ip)));
    if AgeCount(es) <= c.maxAge {
      RowRequests(c, t', es, First(t', ByIp(ip)));
    }
  }

  // ----------------------------------------------------- removal and age refresh

  // Removing a MAC address removes exactly the address that it held.
  lemma RemoveUpdatesMap(t: Table, mac: Mac)
    requires Injective(t)
    ensures var x := First(t, ByMac(mac));
      View(Removed(t, mac)) == if x >= 0 then View(t) - {t[x].ip} else View(t)
  {
    if First(t, ByMac(mac)) >= 0 {
      EmptiedMap(t, First(t, ByMac(mac)));
    }
  }

  lemma EmptiedMap(t: Table, x: nat)
    requires Injective(t) && x < |t|
    ensures View(t[x := EMPTY_ROW]) == View(t) - {t[x].ip}
  {
    hide *;
    var v, v' := View(t) - {t[x].ip}, View(t[x := EMPTY_ROW]);
    forall a: Ip
      ensures a in v' <==> a in v
      ensures a in v' ==> v'[a] == v[a]
    {
      ViewIsLookup(t, a);
      ViewIsLookup(t[x := EMPTY_ROW], a);
      EmptiedLookup(t, x, a);
    }
  }

  lemma EmptiedLookup(t: Table, x: nat, a: Ip)
    requires Injective(t) && x < |t|
    ensures a != 0 ==> Lookup(t[x := EMPTY_ROW], a) == if a == t[x].ip then Miss else Lookup(t, a)
  {
    var t' := t[x := EMPTY_ROW];
    if a != 0 && First(t, ByIp(a)) >= 0 && a != t[x].ip {
      assert t'[First(t, ByIp(a))].ip == a;
    }
  }

  // Refreshing an age gives the row with both addresses the full age; no look-up changes.
  lemma AgeRefreshIs(c: Config, t: Table, mac: Mac, ip: Ip)
    ensures var t', x := AgeRefreshed(c, t, mac, ip), First(t, ByBoth(ip, mac));
      && (forall a: Ip :: Lookup(t', a) == Lookup(t, a))
      && (forall i :: 0 <= i < |t| ==> t'[i] == if i == x then t[i].(age := c.maxAge) else t[i])
  {
    var t' := AgeRefreshed(c, t, mac, ip);
    forall a: Ip
      ensures Lookup(t', a) == Lookup(t, a)
    {
      SameAddresses(t, t', ByIp(a));
    }
  }

  lemma SameAddresses(t: Table, t': Table, k: Key)
    requires |t'| == |t| && forall i :: 0 <= i < |t| ==> t'[i] == t[i].(age := t'[i].age)
    ensures First(t', k) == First(t, k)
  {
    assert forall i :: 0 <= i < |t| ==> (Matches(t'[i], k) <==> Matches(t[i], k));
  }
}
