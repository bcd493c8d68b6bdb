/** The ARP cache as FreeRTOS_ARP.c keeps it: a fixed array searched and
    overwritten in place. Every method is tied to the function on tables that
    specifies it. */
module ArpCache {
  import opened Common
  import opened ArpTable

  /** Result of the search for a row to use; -1 stands for "no such row". */
  datatype CacheLocation = CacheLocation(ipEntry: int, macEntry: int, useEntry: nat)

  /** The search found no row with both keys, and `loc` holds its findings. */
  ghost predicate Located(t: Table, mac: Option<Mac>, ip: Ip, loc: CacheLocation)
    requires t != []
  {
    && (mac.Some? ==> First(t, ByBoth(ip, mac.value)) < 0)
    && loc.ipEntry == (if mac.None? then First(t, ByIp(ip)) else Last(t, ByIp(ip)))
    && loc.macEntry == (if mac.None? then -1 else Last(t, ByMac(mac.value)))
    && loc.useEntry < |t|
    && (loc.ipEntry < 0 && loc.macEntry < 0 ==> loc.useEntry == Oldest(t))
  }

  /** The state of the search after the rows of `t`, when it has not stopped yet. */
  ghost predicate Scanned(t: Table, mac: Option<Mac>, ip: Ip, loc: CacheLocation, minAge: int) {
    && (mac.None? ==> First(t, ByIp(ip)) < 0)
    && if t == [] then loc == CacheLocation(-1, -1, 0) && minAge == 255
       else Located(t, mac, ip, loc) &&
            (loc.ipEntry < 0 && loc.macEntry < 0 ==> minAge == t[loc.useEntry].age)
  }

  lemma ScanStep(t: Table, r: Row, mac: Option<Mac>, ip: Ip, loc: CacheLocation, minAge: int)
    requires Scanned(t, mac, ip, loc, minAge)
    ensures First(t + [r], ByIp(ip)) >= 0 && mac.None? ==>
      r.ip == ip && First(t + [r], ByIp(ip)) == |t| && loc.macEntry < 0
    ensures mac.Some? && r.ip == ip && r.mac == mac.value ==> First(t + [r], ByBoth(ip, mac.value)) == |t|
    ensures mac.Some? && r.ip == ip && r.mac != mac.value ==>
      Scanned(t + [r], mac, ip, loc.(ipEntry := |t|), minAge)
    ensures mac.Some? && r.ip != ip && r.mac == mac.value ==>
      Scanned(t + [r], mac, ip, loc.(macEntry := |t|), minAge)
    ensures r.ip != ip && (mac.None? || r.mac != mac.value) ==>
      if r.age < minAge then Scanned(t + [r], mac, ip, loc.(useEntry := |t|), r.age)
      else Scanned(t + [r], mac, ip, loc, minAge)
  {
    assert (t + [r])[..|t|] == t;
  }

  class Cache {
    const rows: array<Row>
    const config: Config

    ghost predicate Valid()
      reads this, rows
    {
      rows.Length > 0 && ValidConfig(config) && Injective(rows[..])
    }

    constructor (entries: nat, config: Config)
      requires entries > 0 && ValidConfig(config)
      ensures Valid() && fresh(rows) && this.config == config
      ensures rows[..] == seq(entries, i => EMPTY_ROW) && AgesAgree(rows[..])
    {
      this.config := config;
      rows := new Row[entries](i => EMPTY_ROW);
    }

    /** Locates the rows for an address and a MAC; when one row holds both, it is
        refreshed on the spot. */
    method FindCacheEntry(mac: Option<Mac>, ip: Ip, ep: Option<EndPointId>)
      returns (ready: bool, loc: CacheLocation)
      requires rows.Length > 0
      modifies rows
      ensures ready <==> mac.Some? && First(old(rows[..]), ByBoth(ip, mac.value)) >= 0
      ensures ready ==> rows[..] == Refreshed(config, old(rows[..]), mac, ip, ep)
      ensures !ready ==> rows[..] == old(rows[..]) && Located(rows[..], mac, ip, loc)
    {
      hide First, Last, Oldest;
      ghost var t := rows[..];
      var minAge := 255;
      var ipEntry, macEntry, useEntry := -1, -1, 0;
      for x := 0 to rows.Length
        invariant rows[..] == t
        invariant Scanned(t[..x], mac, ip, CacheLocation(ipEntry, macEntry, useEntry), minAge)
      {
        assert t[..x + 1] == t[..x] + [t[x]];
        ScanStep(t[..x], t[x], mac, ip, CacheLocation(ipEntry, macEntry, useEntry), minAge);
        var matchingMac := mac.Some? && rows[x].mac == mac.value;
        if rows[x].ip == ip {
          if mac.None? {
            FirstExtends(t, x + 1, ByIp(ip));
            return false, CacheLocation(x, macEntry, useEntry);
          }
          if matchingMac {
            FirstExtends(t, x + 1, ByBoth(ip, mac.value));
            rows[x] := rows[x].(age := config.maxAge, valid := true, endPoint := ep);
            assert rows[..] == t[x := Row(ip, mac.value, config.maxAge, true, ep)];
            return true, CacheLocation(ipEntry, macEntry, useEntry);
          }
          ipEntry := x;
        } else if matchingMac {
          macEntry := x;
        } else if rows[x].age < minAge {
          minAge, useEntry := rows[x].age, x;
        }
      }
      assert t[..rows.Length] == t;
      return false, CacheLocation(ipEntry, macEntry, useEntry);
    }

    /** The part of a refresh after the search failed to find the pair. */
    method StoreEntry(mac: Option<Mac>, ip: Ip, ep: Option<EndPointId>, loc: CacheLocation)
      requires rows.Length > 0 && Located(rows[..], mac, ip, loc)
      modifies rows
      ensures rows[..] == Refreshed(config, old(rows[..]), mac, ip, ep)
    {
      var useEntry := loc.useEntry;
      if loc.macEntry >= 0 {
        useEntry := loc.macEntry;
        if loc.ipEntry >= 0 {
          rows[loc.ipEntry] := EMPTY_ROW;
        }
      } else if loc.ipEntry >= 0 {
        useEntry := loc.ipEntry;
      }
      rows[useEntry] := rows[useEntry].(ip := ip);
      if mac.Some? {
        rows[useEntry] := rows[useEntry].(mac := mac.value);
        rows[useEntry] := rows[useEntry].(age := config.maxAge, valid := true, endPoint := ep);
      } else if loc.ipEntry < 0 {
        rows[useEntry] := rows[useEntry].(age := config.maxRetransmissions, valid := false);
      }
    }

    method RefreshCacheEntry(mac: Option<Mac>, ip: Ip, ep: Option<EndPointId>, addressIsLocal: bool)
      requires Valid()
      modifies rows
      ensures Valid()
      ensures rows[..] == Step(config, old(rows[..]), Refresh(mac, ip, ep, addressIsLocal))
    {
      StepKeepsInjective(config, rows[..], Refresh(mac, ip, ep, addressIsLocal));
      if addressIsLocal {
        var ready, loc := FindCacheEntry(mac, ip, ep);
        if !ready {
          StoreEntry(mac, ip, ep, loc);
        }
      }
    }

    /** Ages one row; says whether it asks for an ARP request. */
    method AgeRow(x: nat) returns (ask: bool)
      requires x < rows.Length
      modifies rows
      ensures rows[x] == AgedRow(old(rows[x]))
      ensures forall j :: 0 <= j < rows.Length && j != x ==> rows[j] == old(rows[j])
      ensures ask <==> AsksWhenAged(old(rows[x]))
    {
      ask := false;
      if rows[x].age > 0 {
        rows[x] := rows[x].(age := rows[x].age - 1);
        if !rows[x].valid {
          ask := true;
        } else if rows[x].age <= MAX_AGE_BEFORE_NEW_REQUEST {
          ask := true;
        }
        if rows[x].age == 0 {
          rows[x] := rows[x].(ip := 0);
        }
      }
    }

    method AgeCache() returns (requests: seq<Ip>)
      requires Valid()
      modifies rows
      ensures Valid()
      ensures rows[..] == Step(config, old(rows[..]), Age)
      ensures requests == AgeRequests(old(rows[..]))
    {
      ghost var t := rows[..];
      StepKeepsInjective(config, t, Age);
      requests := [];
      for x := 0 to rows.Length
        invariant forall j :: 0 <= j < x ==> rows[j] == AgedRow(t[j])
        invariant forall j :: x <= j < rows.Length ==> rows[j] == t[j]
        invariant requests == AgeRequests(t[..x])
      {
        assert t[..x + 1][..x] == t[..x];
        var ip := rows[x].ip;
        var ask := AgeRow(x);
        if ask {
          requests := requests + [ip];
        }
      }
      assert t[..rows.Length] == t;
    }

    method ClearArp(ep: Option<EndPointId>)
      requires Valid()
      modifies rows
      ensures Valid()
      ensures rows[..] == Step(config, old(rows[..]), Clear(ep))
    {
      ghost var t := rows[..];
      StepKeepsInjective(config, t, Clear(ep));
      if ep.Some? {
        for x := 0 to rows.Length
          invariant forall j :: 0 <= j < x ==>
            rows[j] == if t[j].endPoint == ep then EMPTY_ROW else t[j]
          invariant forall j :: x <= j < rows.Length ==> rows[j] == t[j]
        {
          if rows[x].endPoint == ep {
            rows[x] := EMPTY_ROW;
          }
        }
      } else {
        forall x | 0 <= x < rows.Length {
          rows[x] := EMPTY_ROW;
        }
      }
    }

    /** Returns the address of the removed row, or zero. */
    method RemoveCacheEntryByMac(mac: Mac) returns (ip: Ip)
      requires Valid()
      modifies rows
      ensures Valid()
      ensures rows[..] == Step(config, old(rows[..]), Remove(mac))
      ensures var x := First(old(rows[..]), ByMac(mac)); ip == if x >= 0 then old(rows[..])[x].ip else 0
    {
      StepKeepsInjective(config, rows[..], Remove(mac));
      var x := FindFirst(ByMac(mac));
      ip := 0;
      if x >= 0 {
        ip := rows[x].ip;
        rows[x] := EMPTY_ROW;
      }
    }

    method RefreshCacheEntryAge(mac: Mac, ip: Ip)
      requires Valid()
      modifies rows
      ensures Valid()
      ensures rows[..] == Step(config, old(rows[..]), RefreshAge(mac, ip))
    {
      StepKeepsInjective(config, rows[..], RefreshAge(mac, ip));
      var x := FindFirst(ByBoth(ip, mac));
      if x >= 0 {
        rows[x] := rows[x].(age := config.maxAge);
      }
    }

    method CacheLookup(ip: Ip) returns (r: Resolution)
      requires Valid()
      ensures r == Lookup(rows[..], ip)
      ensures ip != 0 ==> r == if ip in View(rows[..]) then View(rows[..])[ip] else Miss
    {
      ViewIsLookup(rows[..], ip);
      var x := FindFirst(ByIp(ip));
      r := if x < 0 then Miss else if rows[x].valid then Hit(rows[x].mac, rows[x].endPoint) else Unresolved;
    }

    /** True only for an address whose MAC is known, not for one still awaited. */
    method IsIpInCache(ip: Ip) returns (found: bool)
      requires Valid()
      ensures found <==> Lookup(rows[..], ip).Hit?
    {
      var x := FindFirst(ByIp(ip));
      found := x >= 0 && rows[x].valid;
    }

    method FindFirst(k: Key) returns (x: int)
      ensures x == First(rows[..], k)
    {
      x := 0;
      while x < rows.Length && !Matches(rows[x], k)
        invariant 0 <= x <= rows.Length
        invariant First(rows[..x], k) < 0
      {
        assert rows[..x + 1][..x] == rows[..x];
        x := x + 1;
      }
      if x == rows.Length {
        assert rows[..x] == rows[..];
        x := -1;
      } else {
        assert rows[..x + 1][..x] == rows[..x];
        FirstExtends(rows[..], x + 1, k);
      }
    }
  }

  // A match inside a prefix is the first match of the whole table.
  lemma FirstExtends(t: Table, n: nat, k: Key)
    requires n <= |t| && First(t[..n], k) >= 0
    ensures First(t, k) == First(t[..n], k)
  {
    var x := First(t[..n], k);
    assert Matches(t[x], k) && forall j :: 0 <= j < x ==> t[j] == t[..n][j];
  }
}
