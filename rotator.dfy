/**
 * The proxy pool (modules/rotator.py): every pooled result, the same results filed by
 * country, one round-robin cursor per (region, quality) view, and the proxy currently
 * handed to the local server.
 *
 * Python lists hold references to shared dictionaries. An `Entry` pairs a result with
 * an `id` that stands for the identity of its dictionary: the pooled copy, its copy in
 * a country list and the current proxy are one object when their ids agree. Python's
 * `==` and `list.remove` compare dictionaries by value, so the model compares `rec`.
 */
module Rotator {
  import opened Wrappers
  import opened Records

  datatype Entry = Entry(id: nat, rec: Record)

  /** The country list a result is filed under. Results always carry a location. */
  function RegionOf(e: Entry): string { e.rec.location }

  /** Position of the first entry with the given address. */
  function FirstWithAddress(xs: seq<Entry>, a: string): (r: Option<nat>)
    ensures r.Some? ==> r.value < |xs| && xs[r.value].rec.address == a
    ensures r.Some? ==> forall j :: 0 <= j < r.value ==> xs[j].rec.address != a
    ensures r.None? ==> forall j :: 0 <= j < |xs| ==> xs[j].rec.address != a
  {
    if xs == [] then None
    else if xs[0].rec.address == a then Some(0)
    else
      match FirstWithAddress(xs[1..], a)
      case None => None
      case Some(i) => Some(i + 1)
  }

  /** list.remove(x): drops the first entry equal in value to `r`; a list without one is left as it is. */
  function RemoveFirst(xs: seq<Entry>, r: Record): seq<Entry> {
    if xs == [] then []
    else if xs[0].rec == r then xs[1..]
    else [xs[0]] + RemoveFirst(xs[1..], r)
  }

  /** The entries filed under country `k`, in pool order. */
  function InRegion(xs: seq<Entry>, k: string): (r: seq<Entry>)
    ensures |r| <= |xs|
  {
    if xs == [] then []
    else (if RegionOf(xs[0]) == k then [xs[0]] else []) + InRegion(xs[1..], k)
  }

  /** The entries whose latency passes the premium test. */
  function Premium(xs: seq<Entry>): (r: seq<Entry>)
    ensures |r| <= |xs|
  {
    if xs == [] then []
    else (if IsPremium(xs[0].rec) then [xs[0]] else []) + Premium(xs[1..])
  }

  /** The list a rotation draws from: all of `xs`, or only its premium entries. */
  function View(xs: seq<Entry>, premiumOnly: bool): seq<Entry> {
    if premiumOnly then Premium(xs) else xs
  }

  /** The in-place merge of a fresh result into the dictionary with identity `d`, wherever it is referenced. */
  function Replace(xs: seq<Entry>, d: nat, latest: Record): (r: seq<Entry>)
    ensures |r| == |xs|
  {
    if xs == [] then []
    else [if xs[0].id == d then Entry(d, latest) else xs[0]] + Replace(xs[1..], d, latest)
  }

  function ReplaceOne(x: Option<Entry>, d: nat, latest: Record): Option<Entry> {
    if x.Some? && x.value.id == d then Some(Entry(d, latest)) else x
  }

  /** The key under which a view keeps its cursor: region, "_", then "premium" or "all". */
  function CursorKey(region: string, premiumOnly: bool): string {
    region + "_" + (if premiumOnly then "premium" else "all")
  }

  /** The position after the stored one (-1 when none is stored), wrapped to the view's length. */
  function NextIndex(stored: Option<nat>, len: nat): (i: nat)
    requires len > 0
    ensures i < len
  {
    var prev: int := if stored.Some? then stored.value else -1;
    (prev + 1) % len
  }

  function Lookup(m: map<string, nat>, k: string): Option<nat> {
    if k in m then Some(m[k]) else None
  }

  function ListOf(m: map<string, seq<Entry>>, k: string): seq<Entry> {
    if k in m then m[k] else []
  }

  /** proxies_by_country after add_proxy files `e` under its country, opening the list if there is none. */
  function Filed(m: map<string, seq<Entry>>, e: Entry): map<string, seq<Entry>> {
    m[RegionOf(e) := ListOf(m, RegionOf(e)) + [e]]
  }

  /** The dictionary's key order after filing under `k`: a new key goes last. */
  function FiledOrder(m: map<string, seq<Entry>>, o: seq<string>, k: string): seq<string> {
    if k in m then o else o + [k]
  }

  /**
   * proxies_by_country after remove_proxy: the list of the country the removed result names
   * loses its first equal entry, and is deleted once empty; without such a list nothing changes.
   */
  function Unfiled(m: map<string, seq<Entry>>, r: Record): map<string, seq<Entry>> {
    var k := r.location;
    if k !in m then m
    else
      var rest := RemoveFirst(m[k], r);
      if rest == [] then m - {k} else m[k := rest]
  }

  function UnfiledOrder(m: map<string, seq<Entry>>, o: seq<string>, r: Record): seq<string> {
    var k := r.location;
    if k in m && RemoveFirst(m[k], r) == [] then Without(o, k) else o
  }

  /** current_proxy after remove_proxy: cleared when it equals the removed result. */
  function ClearIfEqual(c: Option<Entry>, r: Record): Option<Entry> {
    if c.Some? && c.value.rec == r then None else c
  }

  function ReplaceAll(m: map<string, seq<Entry>>, d: nat, latest: Record): map<string, seq<Entry>> {
    map k | k in m :: Replace(m[k], d, latest)
  }

  /** The region whose cursor get_next_proxy moves: the requested one if it has a list, otherwise "All". */
  function SourceRegion(m: map<string, seq<Entry>>, region: string): string {
    if region != "All" && region in m then region else "All"
  }

  /** The list get_next_proxy draws from before the premium filter. */
  function SourceList(p: seq<Entry>, m: map<string, seq<Entry>>, region: string): seq<Entry> {
    if region != "All" && region in m then m[region] else p
  }

  /** The countries in iteration order with their counts, skipping empty lists and, for premium counts, zero counts. */
  function RegionCounts(order: seq<string>, m: map<string, seq<Entry>>, premiumOnly: bool): seq<(string, nat)> {
    if order == [] then []
    else RegionCounts(order[..|order| - 1], m, premiumOnly) + CountOf(m, order[|order| - 1], premiumOnly)
  }

  /** What one country contributes to the counts: nothing, or its name and count. */
  function CountOf(m: map<string, seq<Entry>>, k: string, premiumOnly: bool): seq<(string, nat)> {
    if ListOf(m, k) == [] then []
    else
      var c := |View(m[k], premiumOnly)|;
      if premiumOnly && c == 0 then [] else [(k, c)]
  }

  predicate NoDup<T(==)>(s: seq<T>) {
    forall i, j :: 0 <= i < j < |s| ==> s[i] != s[j]
  }

  function Without(s: seq<string>, k: string): (r: seq<string>)
    ensures forall x :: x in r <==> x in s && x != k
  {
    if s == [] then [] else (if s[0] == k then [] else [s[0]]) + Without(s[1..], k)
  }

  predicate IdsBelow(xs: seq<Entry>, n: nat) {
    forall e :: e in xs ==> e.id < n
  }

  predicate DistinctAddresses(xs: seq<Entry>) {
    forall i, j :: 0 <= i < j < |xs| ==> xs[i].rec.address != xs[j].rec.address
  }

  predicate DistinctIds(xs: seq<Entry>) {
    forall i, j :: 0 <= i < j < |xs| ==> xs[i].id != xs[j].id
  }

  predicate ListsBelow(m: map<string, seq<Entry>>, n: nat) {
    forall k :: k in m ==> m[k] != [] && IdsBelow(m[k], n)
  }

  ghost predicate KeysInOrder(m: map<string, seq<Entry>>, o: seq<string>) {
    NoDup(o) && forall k :: k in m <==> k in o
  }

  /**
   * What every reachable state of the pool satisfies: one pooled result per address, one
   * pooled reference per dictionary, every identity already issued, no empty country list,
   * and the key order listing each country once.
   */
  ghost predicate WellFormed(p: seq<Entry>, m: map<string, seq<Entry>>, o: seq<string>, c: Option<Entry>, n: nat) {
    && DistinctAddresses(p) && DistinctIds(p) && IdsBelow(p, n)
    && ListsBelow(m, n)
    && (c.Some? ==> c.value.id < n)
    && KeysInOrder(m, o)
  }

  /** The country lists are the pool split by location, and no pooled result lacks its list. */
  ghost predicate Partitioned(p: seq<Entry>, m: map<string, seq<Entry>>) {
    && (forall k :: k in m ==> m[k] == InRegion(p, k))
    && (forall e :: e in p ==> RegionOf(e) in m)
  }

  ghost predicate CurrentPooled(p: seq<Entry>, c: Option<Entry>) {
    c.Some? ==> c.value in p
  }

  class ProxyRotator {
    /** all_proxies */
    var proxies: seq<Entry>
    /** proxies_by_country */
    var byCountry: map<string, seq<Entry>>
    /** The keys of proxies_by_country in insertion order. */
    var countryOrder: seq<string>
    /** indices: the position each view last handed out. */
    var indices: map<string, nat>
    /** current_proxy */
    var current: Option<Entry>
    /** The next unused dictionary identity. */
    var nextId: nat

    ghost predicate Valid()
      reads this
    {
      WellFormed(proxies, byCountry, countryOrder, current, nextId)
    }

    /** The country lists index the pool exactly and the current proxy is pooled. */
    ghost predicate Indexed()
      reads this
    {
      Valid() && Partitioned(proxies, byCountry) && CurrentPooled(proxies, current)
    }

    constructor()
      ensures proxies == [] && byCountry == map[] && countryOrder == [] && indices == map[] && current == None
      ensures Indexed()
    {
      proxies, byCountry, countryOrder, indices, current, nextId := [], map[], [], map[], None, 0;
    }

    /** clear(): empties the pool, the country lists and the cursors, and forgets the current proxy. */
    method Clear()
      modifies this
      ensures proxies == [] && byCountry == map[] && countryOrder == [] && indices == map[] && current == None
      ensures nextId == old(nextId)
      ensures Indexed()
    {
      proxies, byCountry, countryOrder, indices, current := [], map[], [], map[], None;
    }

    /** The search over all_proxies shared by add_proxy, remove_proxy and set_current_proxy_by_address. */
    method FindAddress(a: string) returns (i: Option<nat>)
      ensures i == FirstWithAddress(proxies, a)
    {
      var j := 0;
      while j < |proxies|
        invariant 0 <= j <= |proxies|
        invariant forall t :: 0 <= t < j ==> proxies[t].rec.address != a
      {
        if proxies[j].rec.address == a {
          return Some(j);
        }
        j := j + 1;
      }
      return None;
    }

    /** add_proxy: an address already pooled is ignored; otherwise the result joins the pool and its country's list. */
    method AddProxy(r: Record)
      requires Valid()
      modifies this
      ensures Valid()
      ensures FirstWithAddress(old(proxies), r.address).Some? ==>
        proxies == old(proxies) && byCountry == old(byCountry) && countryOrder == old(countryOrder) && nextId == old(nextId)
      ensures FirstWithAddress(old(proxies), r.address).None? ==>
        && proxies == old(proxies) + [Entry(old(nextId), r)]
        && byCountry == Filed(old(byCountry), Entry(old(nextId), r))
        && countryOrder == FiledOrder(old(byCountry), old(countryOrder), r.location)
        && nextId == old(nextId) + 1
      ensures indices == old(indices) && current == old(current)
      ensures old(Indexed()) ==> Indexed()
    {
      var found := FindAddress(r.address);
      if found.Some? {
        return;
      }
      var e := Entry(nextId, r);
      AddKeeps(proxies, byCountry, countryOrder, current, nextId, r);
      var lists, order := File(byCountry, countryOrder, e);
      proxies, byCountry, countryOrder, nextId := proxies + [e], lists, order, nextId + 1;
      assert Valid();
    }

    /** The defaultdict append of add_proxy: `e` joins its country's list, which is opened (as the last key) when missing. */
    static method File(m: map<string, seq<Entry>>, o: seq<string>, e: Entry) returns (m': map<string, seq<Entry>>, o': seq<string>)
      ensures m' == Filed(m, e) && o' == FiledOrder(m, o, RegionOf(e))
    {
      var k := e.rec.location;
      if k !in m {
        o' := o + [k];
        m' := m[k := []];
      } else {
        o' := o;
        m' := m;
      }
      m' := m'[k := m'[k] + [e]];
    }

    /**
     * remove_proxy: the first pooled result with the address leaves the pool and, when the country
     * it names has a list holding an equal result, that list (deleted once empty); the current
     * proxy is forgotten when it equals the removed result.
     */
    method RemoveProxy(a: string) returns (removed: bool)
      requires Valid()
      modifies this
      ensures Valid()
      ensures removed <==> FirstWithAddress(old(proxies), a).Some?
      ensures !removed ==>
        proxies == old(proxies) && byCountry == old(byCountry) && countryOrder == old(countryOrder) && current == old(current)
      ensures removed ==>
        var i := FirstWithAddress(old(proxies), a).value;
        var gone := old(proxies)[i].rec;
        && proxies == old(proxies)[..i] + old(proxies)[i + 1..]
        && byCountry == Unfiled(old(byCountry), gone)
        && countryOrder == UnfiledOrder(old(byCountry), old(countryOrder), gone)
        && current == ClearIfEqual(old(current), gone)
      ensures FirstWithAddress(proxies, a).None?
      ensures indices == old(indices) && nextId == old(nextId)
      ensures old(Indexed()) ==> Indexed()
    {
      var found := FindAddress(a);
      if found.None? {
        return false;
      }
      var gone := proxies[found.value].rec;
      RemoveKeeps(proxies, byCountry, countryOrder, current, nextId, found.value);
      var lists, order := Unfile(byCountry, countryOrder, gone);
      var cur := if current.Some? && current.value.rec == gone then None else current;
      proxies, byCountry, countryOrder, current := RemoveFirst(proxies, gone), lists, order, cur;
      assert FirstWithAddress(proxies, a).None?;
      assert Valid();
      return true;
    }

    /** The country-list half of remove_proxy: the list of the country `r` names loses its first entry equal to `r` and is deleted once empty. */
    static method Unfile(m: map<string, seq<Entry>>, o: seq<string>, r: Record) returns (m': map<string, seq<Entry>>, o': seq<string>)
      ensures m' == Unfiled(m, r) && o' == UnfiledOrder(m, o, r)
    {
      m', o' := m, o;
      var k := r.location;
      if k in m {
        var rest := RemoveFirst(m[k], r);
        if rest == [] {
          m' := m - {k};
          o' := Without(o, k);
        } else {
          m' := m[k := rest];
        }
      }
    }

    /** get_working_proxies_count */
    method GetWorkingProxiesCount() returns (n: nat)
      ensures n == |proxies|
    {
      return |proxies|;
    }

    /** get_current_proxy */
    method GetCurrentProxy() returns (r: Option<Record>)
      ensures r.Some? <==> current.Some?
      ensures r.Some? ==> r.value == current.value.rec
    {
      if current.Some? {
        return Some(current.value.rec);
      }
      return None;
    }

    /** get_available_regions_with_counts: one pass over the country lists in insertion order. */
    method GetAvailableRegionsWithCounts(premiumOnly: bool) returns (counts: seq<(string, nat)>)
      requires Valid()
      ensures counts == RegionCounts(countryOrder, byCountry, premiumOnly)
    {
      counts := [];
      var i := 0;
      while i < |countryOrder|
        invariant 0 <= i <= |countryOrder|
        invariant counts == RegionCounts(countryOrder[..i], byCountry, premiumOnly)
      {
        var k := countryOrder[i];
        assert countryOrder[..i + 1][..i] == countryOrder[..i];
        var list := byCountry[k];
        if list == [] {
          i := i + 1;
          continue;
        }
        var piece: seq<(string, nat)>;
        if premiumOnly {
          var c := CountPremium(list);
          piece := if c > 0 then [(k, c)] else [];
        } else {
          piece := [(k, |list|)];
        }
        assert piece == CountOf(byCountry, k, premiumOnly);
        counts := counts + piece;
        i := i + 1;
      }
      assert countryOrder[..i] == countryOrder;
    }

    /** sum(1 for p in proxies if premium) over one list. */
    static method CountPremium(xs: seq<Entry>) returns (c: nat)
      ensures c == |Premium(xs)|
    {
      c := 0;
      var i := |xs|;
      while i > 0
        invariant 0 <= i <= |xs|
        invariant c == |Premium(xs[i..])|
      {
        i := i - 1;
        assert xs[i..][1..] == xs[i + 1..];
        if IsPremium(xs[i].rec) {
          c := c + 1;
        }
      }
    }

    /** The premium list comprehension of get_next_proxy. */
    static method PremiumOf(xs: seq<Entry>) returns (r: seq<Entry>)
      ensures r == Premium(xs)
    {
      r := [];
      var i := |xs|;
      while i > 0
        invariant 0 <= i <= |xs|
        invariant r == Premium(xs[i..])
      {
        i := i - 1;
        assert xs[i..][1..] == xs[i + 1..];
        if IsPremium(xs[i].rec) {
          r := [xs[i]] + r;
        }
      }
    }

    /**
     * get_next_proxy: the entry of the view after the one its cursor last handed out, wrapping
     * around, becomes current; an empty view forgets the current proxy and hands out nothing.
     */
    method GetNextProxy(region: string, premiumOnly: bool) returns (r: Option<Record>)
      requires Valid()
      modifies this
      ensures Valid()
      ensures proxies == old(proxies) && byCountry == old(byCountry) && countryOrder == old(countryOrder) && nextId == old(nextId)
      ensures
        var view := View(SourceList(proxies, byCountry, region), premiumOnly);
        var key := CursorKey(SourceRegion(byCountry, region), premiumOnly);
        if view == [] then
          r == None && current == None && indices == old(indices)
        else
          var i := NextIndex(Lookup(old(indices), key), |view|);
          indices == old(indices)[key := i] && current == Some(view[i]) && r == Some(view[i].rec)
      ensures old(Indexed()) ==> Indexed()
    {
      var key, list := "All", proxies;
      if region == "All" {
      } else if region in byCountry {
        key, list := region, byCountry[region];
      }
      var view := list;
      if premiumOnly {
        view := PremiumOf(list);
      }
      if view == [] {
        current := None;
        return None;
      }
      var ck := CursorKey(key, premiumOnly);
      var i := NextIndex(Lookup(indices, ck), |view|);
      DrawnKeeps(proxies, byCountry, countryOrder, current, nextId, region, premiumOnly, i);
      indices := indices[ck := i];
      current := Some(view[i]);
      return Some(view[i].rec);
    }

    /** set_current_proxy_by_address: the first pooled result with the address becomes current; otherwise nothing changes. */
    method SetCurrentProxyByAddress(a: string) returns (r: Option<Record>)
      requires Valid()
      modifies this
      ensures Valid()
      ensures proxies == old(proxies) && byCountry == old(byCountry) && countryOrder == old(countryOrder)
      ensures indices == old(indices) && nextId == old(nextId)
      ensures FirstWithAddress(proxies, a).None? ==> r == None && current == old(current)
      ensures FirstWithAddress(proxies, a).Some? ==>
        var e := proxies[FirstWithAddress(proxies, a).value];
        current == Some(e) && r == Some(e.rec) && e.rec.address == a
      ensures old(Indexed()) ==> Indexed()
    {
      var found := FindAddress(a);
      if found.None? {
        return None;
      }
      var e := proxies[found.value];
      assert e in proxies;
      current := Some(e);
      return Some(e.rec);
    }

    /**
     * The window's revalidation merge, original.update(result): the pooled result with the fresh
     * result's address is overwritten in place, so every reference to that dictionary (in the pool,
     * in a country list, as the current proxy) sees the fresh values. Nothing is refiled.
     */
    method UpdateInPlace(latest: Record) returns (found: bool)
      requires Valid()
      modifies this
      ensures Valid()
      ensures found <==> FirstWithAddress(old(proxies), latest.address).Some?
      ensures !found ==> proxies == old(proxies) && byCountry == old(byCountry) && current == old(current)
      ensures found ==>
        var d := old(proxies)[FirstWithAddress(old(proxies), latest.address).value].id;
        && proxies == Replace(old(proxies), d, latest)
        && byCountry == ReplaceAll(old(byCountry), d, latest)
        && current == ReplaceOne(old(current), d, latest)
      ensures countryOrder == old(countryOrder) && indices == old(indices) && nextId == old(nextId)
      ensures found && old(Indexed()) ==>
        (latest.location == old(proxies)[FirstWithAddress(old(proxies), latest.address).value].rec.location ==> Indexed())
    {
      var i := FindAddress(latest.address);
      if i.None? {
        return false;
      }
      var d := proxies[i.value].id;
      ReplaceKeepsAll(proxies, byCountry, countryOrder, current, nextId, i.value, latest);
      proxies := Replace(proxies, d, latest);
      byCountry := ReplaceAll(byCountry, d, latest);
      current := ReplaceOne(current, d, latest);
      return true;
    }
  }

  // ---------------------------------------------------------------- what each operation keeps

  lemma AddKeeps(p: seq<Entry>, m: map<string, seq<Entry>>, o: seq<string>, c: Option<Entry>, n: nat, r: Record)
    requires WellFormed(p, m, o, c, n) && FirstWithAddress(p, r.address).None?
    ensures var e := Entry(n, r);
      && WellFormed(p + [e], Filed(m, e), FiledOrder(m, o, r.location), c, n + 1)
      && (Partitioned(p, m) ==> Partitioned(p + [e], Filed(m, e)))
      && (CurrentPooled(p, c) ==> CurrentPooled(p + [e], c))
  {
    var e := Entry(n, r);
    forall j | 0 <= j < |p|
      ensures p[j].rec.address != r.address && p[j].id != n
    {
      assert p[j] in p;
    }
    AppendKeepsDistinct(p, e);
    AppendKeepsBelow(p, e, n);
    FiledBelow(m, e, n);
    FiledOrderKeeps(m, o, e);
    if Partitioned(p, m) {
      FiledPartitioned(p, m, e);
    }
  }

  lemma FiledBelow(m: map<string, seq<Entry>>, e: Entry, n: nat)
    requires ListsBelow(m, n) && e.id == n
    ensures ListsBelow(Filed(m, e), n + 1)
  {
    var m' := Filed(m, e);
    forall k | k in m'
      ensures m'[k] != [] && IdsBelow(m'[k], n + 1)
    {
      if k == RegionOf(e) {
        AppendKeepsBelow(ListOf(m, k), e, n);
      } else {
        BelowGrows(m[k], n, n + 1);
      }
    }
  }

  lemma FiledOrderKeeps(m: map<string, seq<Entry>>, o: seq<string>, e: Entry)
    requires KeysInOrder(m, o)
    ensures KeysInOrder(Filed(m, e), FiledOrder(m, o, RegionOf(e)))
  {
  }

  lemma FiledPartitioned(p: seq<Entry>, m: map<string, seq<Entry>>, e: Entry)
    requires Partitioned(p, m)
    ensures Partitioned(p + [e], Filed(m, e))
  {
    var m' := Filed(m, e);
    forall k | k in m'
      ensures m'[k] == InRegion(p + [e], k)
    {
      InRegionAppend(p, e, k);
      if k !in m {
        InRegionNone(p, k);
      }
    }
  }

  lemma {:induction false} InRegionNone(xs: seq<Entry>, k: string)
    requires forall e :: e in xs ==> RegionOf(e) != k
    ensures InRegion(xs, k) == []
  {
    if xs != [] {
      assert xs[0] in xs;
      assert forall e :: e in xs[1..] ==> e in xs;
      InRegionNone(xs[1..], k);
    }
  }

  lemma RemoveKeeps(p: seq<Entry>, m: map<string, seq<Entry>>, o: seq<string>, c: Option<Entry>, n: nat, i: nat)
    requires WellFormed(p, m, o, c, n) && i < |p|
    ensures var gone := p[i].rec;
      && RemoveFirst(p, gone) == p[..i] + p[i + 1..]
      && FirstWithAddress(p[..i] + p[i + 1..], gone.address).None?
      && WellFormed(p[..i] + p[i + 1..], Unfiled(m, gone), UnfiledOrder(m, o, gone), ClearIfEqual(c, gone), n)
      && (Partitioned(p, m) ==> Partitioned(p[..i] + p[i + 1..], Unfiled(m, gone)))
      && (CurrentPooled(p, c) ==> CurrentPooled(p[..i] + p[i + 1..], ClearIfEqual(c, gone)))
  {
    var gone := p[i].rec;
    RemoveFirstAt(p, i);
    RemoveAtKeeps(p, i, n);
    RemoveAtGone(p, i);
    UnfiledBelow(m, gone, n);
    UnfiledOrderKeeps(m, o, gone);
    if Partitioned(p, m) {
      RemovePartitioned(p, i, m);
    }
    if CurrentPooled(p, c) {
      ClearKeepsPooled(p, i, c);
    }
  }

  lemma RemoveAtGone(p: seq<Entry>, i: nat)
    requires i < |p| && DistinctAddresses(p)
    ensures FirstWithAddress(p[..i] + p[i + 1..], p[i].rec.address).None?
  {
    var ys := p[..i] + p[i + 1..];
    forall j | 0 <= j < |ys|
      ensures ys[j].rec.address != p[i].rec.address
    {
      assert ys[j] == p[if j < i then j else j + 1];
    }
  }

  lemma UnfiledBelow(m: map<string, seq<Entry>>, r: Record, n: nat)
    requires ListsBelow(m, n)
    ensures ListsBelow(Unfiled(m, r), n)
  {
    if r.location in m {
      RemoveFirstKeeps(m[r.location], r, n);
    }
  }

  lemma UnfiledOrderKeeps(m: map<string, seq<Entry>>, o: seq<string>, r: Record)
    requires KeysInOrder(m, o)
    ensures KeysInOrder(Unfiled(m, r), UnfiledOrder(m, o, r))
  {
    var k := r.location;
    if k in m && RemoveFirst(m[k], r) == [] {
      WithoutKeepsNoDup(o, k);
    }
  }

  lemma ClearKeepsPooled(p: seq<Entry>, i: nat, c: Option<Entry>)
    requires i < |p| && CurrentPooled(p, c)
    ensures CurrentPooled(p[..i] + p[i + 1..], ClearIfEqual(c, p[i].rec))
  {
    var c' := ClearIfEqual(c, p[i].rec);
    if c'.Some? {
      var j :| 0 <= j < |p| && p[j] == c'.value;
      assert j != i;
      assert c'.value == (p[..i] + p[i + 1..])[if j < i then j else j - 1];
    }
  }

  lemma RemovePartitioned(p: seq<Entry>, i: nat, m: map<string, seq<Entry>>)
    requires i < |p| && DistinctAddresses(p) && Partitioned(p, m)
    ensures Partitioned(p[..i] + p[i + 1..], Unfiled(m, p[i].rec))
  {
    var ys := p[..i] + p[i + 1..];
    var gone := p[i].rec;
    var m' := Unfiled(m, gone);
    RemoveFirstAt(p, i);
    assert p[i] in p;
    forall k | k in m'
      ensures m'[k] == InRegion(ys, k)
    {
      InRegionRemoveFirst(p, gone, k);
    }
    forall e | e in ys
      ensures RegionOf(e) in m'
    {
      InRegionHas(ys, e);
      InRegionRemoveFirst(p, gone, RegionOf(e));
    }
  }

  lemma ReplaceKeepsAll(p: seq<Entry>, m: map<string, seq<Entry>>, o: seq<string>, c: Option<Entry>, n: nat, i: nat, latest: Record)
    requires WellFormed(p, m, o, c, n) && i < |p| && latest.address == p[i].rec.address
    ensures var d := p[i].id;
      && WellFormed(Replace(p, d, latest), ReplaceAll(m, d, latest), o, ReplaceOne(c, d, latest), n)
      && (CurrentPooled(p, c) ==> CurrentPooled(Replace(p, d, latest), ReplaceOne(c, d, latest)))
      && (Partitioned(p, m) && latest.location == p[i].rec.location ==>
            Partitioned(Replace(p, d, latest), ReplaceAll(m, d, latest)))
  {
    var d := p[i].id;
    ReplaceKeeps(p, i, d, latest, n);
    forall k | k in m
      ensures IdsBelow(Replace(m[k], d, latest), n)
    {
      ReplaceBelow(m[k], d, latest, n);
    }
    if c.Some? && c.value in p {
      var j :| 0 <= j < |p| && p[j] == c.value;
      ReplaceAt(p, d, latest, j);
      assert Replace(p, d, latest)[j] in Replace(p, d, latest);
    }
    if Partitioned(p, m) && latest.location == p[i].rec.location {
      ReplacePartitioned(p, i, latest, m);
    }
  }

  lemma DrawnKeeps(p: seq<Entry>, m: map<string, seq<Entry>>, o: seq<string>, c: Option<Entry>, n: nat,
                   region: string, premiumOnly: bool, i: nat)
    requires WellFormed(p, m, o, c, n)
    requires i < |View(SourceList(p, m, region), premiumOnly)|
    ensures var e := View(SourceList(p, m, region), premiumOnly)[i];
      e.id < n && (Partitioned(p, m) ==> e in p)
  {
    var list := SourceList(p, m, region);
    ViewMembers(list, premiumOnly, i);
    if region != "All" && region in m {
      InRegionMembers(p, region);
    }
  }

  // ---------------------------------------------------------------- facts about the lists

  lemma AppendKeepsDistinct(xs: seq<Entry>, e: Entry)
    requires DistinctAddresses(xs) && DistinctIds(xs)
    requires forall j :: 0 <= j < |xs| ==> xs[j].rec.address != e.rec.address && xs[j].id != e.id
    ensures DistinctAddresses(xs + [e]) && DistinctIds(xs + [e])
  {
  }

  lemma AppendKeepsBelow(xs: seq<Entry>, e: Entry, n: nat)
    requires IdsBelow(xs, n) && e.id <= n
    ensures IdsBelow(xs + [e], n + 1)
  {
  }

  lemma BelowGrows(xs: seq<Entry>, n: nat, m: nat)
    requires IdsBelow(xs, n) && n <= m
    ensures IdsBelow(xs, m)
  {
  }

  lemma {:induction false} InRegionAppend(xs: seq<Entry>, e: Entry, k: string)
    ensures InRegion(xs + [e], k) == InRegion(xs, k) + (if RegionOf(e) == k then [e] else [])
  {
    if xs != [] {
      assert (xs + [e])[1..] == xs[1..] + [e];
      InRegionAppend(xs[1..], e, k);
    }
  }

  lemma {:induction false} InRegionMembers(xs: seq<Entry>, k: string)
    ensures forall e :: e in InRegion(xs, k) ==> e in xs && RegionOf(e) == k
  {
    if xs != [] {
      InRegionMembers(xs[1..], k);
    }
  }

  lemma {:induction false} InRegionHas(xs: seq<Entry>, e: Entry)
    requires e in xs
    ensures e in InRegion(xs, RegionOf(e))
  {
    if xs[0] != e {
      InRegionHas(xs[1..], e);
    }
  }

  lemma {:induction false} PremiumMembers(xs: seq<Entry>)
    ensures forall e :: e in Premium(xs) ==> e in xs && IsPremium(e.rec)
  {
    if xs != [] {
      PremiumMembers(xs[1..]);
    }
  }

  lemma ViewMembers(xs: seq<Entry>, premiumOnly: bool, i: nat)
    requires i < |View(xs, premiumOnly)|
    ensures View(xs, premiumOnly)[i] in xs
  {
    PremiumMembers(xs);
  }

  /** Under unique addresses, removing by value removes exactly the found position. */
  lemma {:induction false} RemoveFirstAt(xs: seq<Entry>, i: nat)
    requires i < |xs| && DistinctAddresses(xs)
    ensures RemoveFirst(xs, xs[i].rec) == xs[..i] + xs[i + 1..]
  {
    if i > 0 {
      assert xs[0].rec.address != xs[i].rec.address;
      assert xs[1..][i - 1] == xs[i];
      RemoveFirstAt(xs[1..], i - 1);
      assert xs[1..][..i - 1] + xs[1..][i..] == xs[1..i] + xs[i + 1..];
      assert [xs[0]] + xs[1..i] == xs[..i];
    }
  }

  lemma RemoveAtKeeps(xs: seq<Entry>, i: nat, n: nat)
    requires i < |xs| && DistinctAddresses(xs) && DistinctIds(xs) && IdsBelow(xs, n)
    ensures var ys := xs[..i] + xs[i + 1..];
      DistinctAddresses(ys) && DistinctIds(ys) && IdsBelow(ys, n)
  {
    var ys := xs[..i] + xs[i + 1..];
    assert forall j :: 0 <= j < |ys| ==> ys[j] == xs[if j < i then j else j + 1];
  }

  lemma {:induction false} RemoveFirstMembers(xs: seq<Entry>, r: Record)
    ensures forall e :: e in RemoveFirst(xs, r) ==> e in xs
  {
    if xs != [] && xs[0].rec != r {
      RemoveFirstMembers(xs[1..], r);
    }
  }

  lemma RemoveFirstKeeps(xs: seq<Entry>, r: Record, n: nat)
    requires IdsBelow(xs, n)
    ensures IdsBelow(RemoveFirst(xs, r), n)
  {
    RemoveFirstMembers(xs, r);
  }

  lemma {:induction false} WithoutKeepsNoDup(s: seq<string>, k: string)
    requires NoDup(s)
    ensures NoDup(Without(s, k))
  {
    if s != [] {
      assert NoDup(s[1..]) by {
        assert forall i :: 0 <= i < |s[1..]| ==> s[1..][i] == s[i + 1];
      }
      WithoutKeepsNoDup(s[1..], k);
      assert s[0] !in s[1..];
    }
  }

  lemma InRegionCons(x: Entry, t: seq<Entry>, k: string)
    ensures InRegion([x] + t, k) == (if RegionOf(x) == k then [x] else []) + InRegion(t, k)
  {
    assert ([x] + t)[1..] == t;
  }

  lemma RemoveFirstCons(x: Entry, t: seq<Entry>, r: Record)
    ensures RemoveFirst([x] + t, r) == if x.rec == r then t else [x] + RemoveFirst(t, r)
  {
    assert ([x] + t)[1..] == t;
  }

  lemma ReplaceCons(x: Entry, t: seq<Entry>, d: nat, latest: Record)
    ensures Replace([x] + t, d, latest) == [if x.id == d then Entry(d, latest) else x] + Replace(t, d, latest)
  {
    assert ([x] + t)[1..] == t;
  }

  /** Removing by value commutes with splitting by country. */
  lemma {:induction false} InRegionRemoveFirst(xs: seq<Entry>, r: Record, k: string)
    ensures InRegion(RemoveFirst(xs, r), k) ==
      if r.location == k then RemoveFirst(InRegion(xs, k), r) else InRegion(xs, k)
  {
    if xs != [] {
      var x, t := xs[0], xs[1..];
      assert xs == [x] + t;
      var tail := InRegion(t, k);
      InRegionCons(x, t, k);
      if RegionOf(x) == k {
        RemoveFirstCons(x, tail, r);
      }
      if x.rec != r {
        InRegionRemoveFirst(t, r, k);
        RemoveFirstCons(x, t, r);
        InRegionCons(x, RemoveFirst(t, r), k);
        if RegionOf(x) != k {
          assert [] + tail == tail;
          assert [] + InRegion(RemoveFirst(t, r), k) == InRegion(RemoveFirst(t, r), k);
        }
      }
    }
  }

  lemma ReplaceAt(xs: seq<Entry>, d: nat, latest: Record, j: nat)
    requires j < |xs|
    ensures Replace(xs, d, latest)[j] == if xs[j].id == d then Entry(d, latest) else xs[j]
  {
    if j > 0 {
      ReplaceAt(xs[1..], d, latest, j - 1);
    }
  }

  lemma ReplaceKeeps(xs: seq<Entry>, i: nat, d: nat, latest: Record, n: nat)
    requires i < |xs| && xs[i].id == d && latest.address == xs[i].rec.address
    requires DistinctAddresses(xs) && DistinctIds(xs) && IdsBelow(xs, n)
    ensures var ys := Replace(xs, d, latest);
      DistinctAddresses(ys) && DistinctIds(ys) && IdsBelow(ys, n)
  {
    var ys := Replace(xs, d, latest);
    forall j | 0 <= j < |xs|
      ensures ys[j].id == xs[j].id && ys[j].rec.address == xs[j].rec.address
    {
      ReplaceAt(xs, d, latest, j);
      if xs[j].id == d {
        assert j == i;
      }
    }
  }

  lemma {:induction false} ReplaceBelow(xs: seq<Entry>, d: nat, latest: Record, n: nat)
    requires IdsBelow(xs, n)
    ensures IdsBelow(Replace(xs, d, latest), n)
  {
    if xs != [] {
      ReplaceBelow(xs[1..], d, latest, n);
    }
  }

  /** An in-place update that keeps the location commutes with splitting by country. */
  lemma {:induction false} InRegionReplace(xs: seq<Entry>, d: nat, latest: Record, k: string)
    requires forall e :: e in xs && e.id == d ==> RegionOf(e) == latest.location
    ensures InRegion(Replace(xs, d, latest), k) == Replace(InRegion(xs, k), d, latest)
  {
    if xs != [] {
      var x, t := xs[0], xs[1..];
      assert xs == [x] + t;
      InRegionReplace(t, d, latest, k);
      var y := if x.id == d then Entry(d, latest) else x;
      ReplaceCons(x, t, d, latest);
      InRegionCons(y, Replace(t, d, latest), k);
      InRegionCons(x, t, k);
      assert x in xs;
      assert RegionOf(y) == RegionOf(x);
      if RegionOf(x) == k {
        ReplaceCons(x, InRegion(t, k), d, latest);
      } else {
        assert [] + InRegion(t, k) == InRegion(t, k);
        assert [] + InRegion(Replace(t, d, latest), k) == InRegion(Replace(t, d, latest), k);
      }
    }
  }

  lemma ReplacePartitioned(xs: seq<Entry>, i: nat, latest: Record, m: map<string, seq<Entry>>)
    requires i < |xs| && DistinctIds(xs) && RegionOf(xs[i]) == latest.location && Partitioned(xs, m)
    ensures Partitioned(Replace(xs, xs[i].id, latest), ReplaceAll(m, xs[i].id, latest))
  {
    var d := xs[i].id;
    var ys := Replace(xs, d, latest);
    forall e | e in xs && e.id == d
      ensures RegionOf(e) == latest.location
    {
      var j :| 0 <= j < |xs| && xs[j] == e;
      assert j == i;
    }
    forall k | k in m
      ensures Replace(m[k], d, latest) == InRegion(ys, k)
    {
      InRegionReplace(xs, d, latest, k);
    }
    forall e | e in ys
      ensures RegionOf(e) in m
    {
      var j :| 0 <= j < |ys| && ys[j] == e;
      ReplaceAt(xs, d, latest, j);
      assert xs[j] in xs;
    }
  }


  // ---------------------------------------------------------------- what the pool promises

  /** Cursors of different views never share a key: the suffix tells the quality apart, the rest the region. */
  lemma CursorKeysDistinct(r1: string, p1: bool, r2: string, p2: bool)
    requires CursorKey(r1, p1) == CursorKey(r2, p2)
    ensures r1 == r2 && p1 == p2
  {
    var k := CursorKey(r1, p1);
    assert k[|k| - 1] == (if p1 then 'm' else 'l');
    assert k[|k| - 1] == (if p2 then 'm' else 'l');
    var tail := if p1 then "premium" else "all";
    assert k[..|r1|] == r1 && k[..|r2|] == r2;
  }

  /** The entries handed out by `m` consecutive draws on an unchanged view, starting from a stored cursor. */
  function Picks(view: seq<Entry>, stored: Option<nat>, m: nat): (r: seq<Entry>)
    requires view != []
    ensures |r| == m
    decreases m
  {
    if m == 0 then []
    else
      var i := NextIndex(stored, |view|);
      [view[i]] + Picks(view, Some(i), m - 1)
  }

  /** Position `x` of the view read circularly, for `x` less than twice its length. */
  function Wrap(x: nat, n: nat): nat {
    if x < n then x else x - n
  }

  lemma NextAfter(s: nat, n: nat)
    requires s < n
    ensures NextIndex(Some(s), n) == Wrap(s + 1, n)
  {
    if s + 1 == n {
      assert (s + 1) % n == 0;
    } else {
      assert (s + 1) % n == s + 1;
    }
  }

  lemma {:induction false} PicksAt(view: seq<Entry>, stored: Option<nat>, m: nat, j: nat)
    requires view != [] && j < m <= |view|
    ensures Picks(view, stored, m)[j] == view[Wrap(NextIndex(stored, |view|) + j, |view|)]
    decreases m
  {
    var n := |view|;
    var s := NextIndex(stored, n);
    if j > 0 {
      PicksAt(view, Some(s), m - 1, j - 1);
      NextAfter(s, n);
    }
  }

  /**
   * Round robin: |view| consecutive draws hand out the view rotated to start after the
   * stored cursor, so every proxy of an unchanged view is served exactly once per round.
   */
  lemma RotationServesEachOnce(view: seq<Entry>, stored: Option<nat>)
    requires view != []
    ensures var s := NextIndex(stored, |view|);
      Picks(view, stored, |view|) == view[s..] + view[..s]
    ensures multiset(Picks(view, stored, |view|)) == multiset(view)
  {
    var s := NextIndex(stored, |view|);
    PicksAreRotation(view, stored, s);
    RotationSameMembers(view, s);
  }

  lemma RotationSameMembers(view: seq<Entry>, s: nat)
    requires s <= |view|
    ensures multiset(view[s..] + view[..s]) == multiset(view)
  {
    assert view == view[..s] + view[s..];
  }

  lemma PicksAreRotation(view: seq<Entry>, stored: Option<nat>, s: nat)
    requires view != [] && s == NextIndex(stored, |view|)
    ensures Picks(view, stored, |view|) == view[s..] + view[..s]
  {
    var n := |view|;
    var picks := Picks(view, stored, n);
    forall j | 0 <= j < n
      ensures picks[j] == (view[s..] + view[..s])[j]
    {
      PicksAt(view, stored, n, j);
      RotationAt(view, s, j);
    }
  }

  lemma RotationAt(view: seq<Entry>, s: nat, j: nat)
    requires s < |view| && j < |view|
    ensures (view[s..] + view[..s])[j] == view[Wrap(s + j, |view|)]
  {
  }

  /** The sum of the counts. */
  function Total(counts: seq<(string, nat)>): nat {
    if counts == [] then 0 else Total(counts[..|counts| - 1]) + counts[|counts| - 1].1
  }

  /** Number of entries of `ys` whose country is among `order`, counted country by country. */
  function SumRegions(order: seq<string>, ys: seq<Entry>): nat {
    if order == [] then 0 else SumRegions(order[..|order| - 1], ys) + |InRegion(ys, order[|order| - 1])|
  }

  lemma {:induction false} SumAppend(a: seq<(string, nat)>, b: seq<(string, nat)>)
    ensures Total(a + b) == Total(a) + Total(b)
    decreases |b|
  {
    if b == [] {
      assert a + b == a;
    } else {
      var b' := b[..|b| - 1];
      assert (a + b)[..|a + b| - 1] == a + b';
      assert (a + b)[|a + b| - 1] == b[|b| - 1];
      SumAppend(a, b');
    }
  }

  lemma {:induction false} PremiumInRegion(xs: seq<Entry>, k: string)
    ensures Premium(InRegion(xs, k)) == InRegion(Premium(xs), k)
  {
    if xs != [] {
      var x, t := xs[0], xs[1..];
      PremiumInRegion(t, k);
      var h := if RegionOf(x) == k then [x] else [];
      var g := if IsPremium(x.rec) then [x] else [];
      assert InRegion(xs, k) == h + InRegion(t, k);
      assert Premium(xs) == g + Premium(t);
      PremiumCons(h, InRegion(t, k));
      InRegionConcat(g, Premium(t), k);
    }
  }

  lemma PremiumCons(h: seq<Entry>, t: seq<Entry>)
    requires |h| <= 1
    ensures Premium(h + t) == Premium(h) + Premium(t)
  {
    if h == [] {
      assert h + t == t;
    } else {
      assert (h + t)[0] == h[0] && (h + t)[1..] == t;
      var g := if IsPremium(h[0].rec) then [h[0]] else [];
      assert Premium(h) == g + Premium([]);
      assert g + [] == g;
    }
  }

  lemma InRegionConcat(g: seq<Entry>, t: seq<Entry>, k: string)
    requires |g| <= 1
    ensures InRegion(g + t, k) == InRegion(g, k) + InRegion(t, k)
  {
    if g == [] {
      assert g + t == t;
    } else {
      assert (g + t)[0] == g[0] && (g + t)[1..] == t;
      var h := if RegionOf(g[0]) == k then [g[0]] else [];
      assert InRegion(g, k) == h + InRegion([], k);
      assert h + [] == h;
    }
  }

  /** The counts reported for the countries of `order` add up to the country-by-country count of the view. */
  lemma {:induction false} CountsAreViewSizes(order: seq<string>, p: seq<Entry>, m: map<string, seq<Entry>>, premiumOnly: bool)
    requires forall k :: k in order ==> k in m
    requires forall k :: k in m ==> m[k] == InRegion(p, k)
    ensures Total(RegionCounts(order, m, premiumOnly)) == SumRegions(order, View(p, premiumOnly))
    decreases |order|
  {
    if order != [] {
      var o', k := order[..|order| - 1], order[|order| - 1];
      assert forall x :: x in o' ==> x in order;
      CountsAreViewSizes(o', p, m, premiumOnly);
      SumAppend(RegionCounts(o', m, premiumOnly), CountOf(m, k, premiumOnly));
      CountOfIsViewSize(p, m, k, premiumOnly);
    }
  }

  lemma CountOfIsViewSize(p: seq<Entry>, m: map<string, seq<Entry>>, k: string, premiumOnly: bool)
    requires k in m && m[k] == InRegion(p, k)
    ensures Total(CountOf(m, k, premiumOnly)) == |InRegion(View(p, premiumOnly), k)|
  {
    PremiumInRegion(p, k);
    var piece := CountOf(m, k, premiumOnly);
    if piece != [] {
      assert Total(piece) == Total([]) + piece[0].1;
    }
  }

  /** Each entry adds one to the country-by-country count exactly when its country is listed once. */
  lemma {:induction false} SumRegionsCons(order: seq<string>, e: Entry, ys: seq<Entry>)
    requires NoDup(order)
    ensures SumRegions(order, [e] + ys) == SumRegions(order, ys) + (if RegionOf(e) in order then 1 else 0)
    decreases |order|
  {
    if order != [] {
      var o', k := order[..|order| - 1], order[|order| - 1];
      assert NoDup(o');
      assert k !in o';
      assert forall x :: x in order <==> x in o' || x == k;
      SumRegionsCons(o', e, ys);
      InRegionCons(e, ys, k);
    }
  }

  lemma {:induction false} SumRegionsAll(order: seq<string>, ys: seq<Entry>)
    requires NoDup(order)
    requires forall e :: e in ys ==> RegionOf(e) in order
    ensures SumRegions(order, ys) == |ys|
    decreases |ys|
  {
    if ys == [] {
      SumRegionsEmpty(order);
    } else {
      assert ys == [ys[0]] + ys[1..];
      assert ys[0] in ys;
      assert forall e :: e in ys[1..] ==> e in ys;
      SumRegionsAll(order, ys[1..]);
      SumRegionsCons(order, ys[0], ys[1..]);
    }
  }

  lemma {:induction false} SumRegionsEmpty(order: seq<string>)
    ensures SumRegions(order, []) == 0
    decreases |order|
  {
    if order != [] {
      SumRegionsEmpty(order[..|order| - 1]);
    }
  }

  /**
   * The region menu adds up: with the country lists indexing the pool, the counts reported
   * (all of them, or the non-zero premium ones) sum to the size of the view an "All" rotation
   * draws from, so no proxy is counted twice or left out.
   */
  lemma CountsMatchPool(p: seq<Entry>, m: map<string, seq<Entry>>, o: seq<string>, c: Option<Entry>, n: nat, premiumOnly: bool)
    requires WellFormed(p, m, o, c, n) && Partitioned(p, m)
    ensures Total(RegionCounts(o, m, premiumOnly)) == |View(p, premiumOnly)|
  {
    CountsAreViewSizes(o, p, m, premiumOnly);
    var ys := View(p, premiumOnly);
    PremiumMembers(p);
    assert forall e :: e in ys ==> e in p;
    SumRegionsAll(o, ys);
  }

  /**
   * The stale entry: when a revalidation moves a proxy to another country, its dictionary
   * stays in its old country's list, and removing the proxy afterwards looks in the new
   * country's list only, so the old list keeps the dictionary after it has left the pool.
   */
  lemma RelocatedEntryOutlivesRemoval(p: seq<Entry>, m: map<string, seq<Entry>>, o: seq<string>, c: Option<Entry>, n: nat,
                                     i: nat, latest: Record)
    requires WellFormed(p, m, o, c, n) && Partitioned(p, m)
    requires i < |p| && latest.address == p[i].rec.address && latest.location != p[i].rec.location
    ensures var d := p[i].id;
      var p1, m1 := Replace(p, d, latest), ReplaceAll(m, d, latest);
      var was := p[i].rec.location;
      && FirstWithAddress(p1, latest.address) == Some(i) && p1[i] == Entry(d, latest)
      && was in Unfiled(m1, latest) && Entry(d, latest) in Unfiled(m1, latest)[was]
      && Entry(d, latest) !in p1[..i] + p1[i + 1..]
  {
    var d := p[i].id;
    var p1, m1 := Replace(p, d, latest), ReplaceAll(m, d, latest);
    var was := p[i].rec.location;
    ReplaceKeeps(p, i, d, latest, n);
    ReplaceAt(p, d, latest, i);
    FoundAt(p1, i);
    OthersLackId(p1, i);
    StaleInOldList(p, m, i, latest);
    UnfiledElsewhere(m1, latest, was);
  }

  lemma FoundAt(xs: seq<Entry>, i: nat)
    requires DistinctAddresses(xs) && i < |xs|
    ensures FirstWithAddress(xs, xs[i].rec.address) == Some(i)
  {
  }

  lemma OthersLackId(xs: seq<Entry>, i: nat)
    requires DistinctIds(xs) && i < |xs|
    ensures xs[i] !in xs[..i] + xs[i + 1..]
  {
    var rest := xs[..i] + xs[i + 1..];
    forall t | 0 <= t < |rest|
      ensures rest[t] != xs[i]
    {
      assert rest[t] == xs[if t < i then t else t + 1];
    }
  }

  lemma StaleInOldList(p: seq<Entry>, m: map<string, seq<Entry>>, i: nat, latest: Record)
    requires Partitioned(p, m) && i < |p|
    ensures var was := p[i].rec.location;
      was in ReplaceAll(m, p[i].id, latest) && Entry(p[i].id, latest) in ReplaceAll(m, p[i].id, latest)[was]
  {
    var d, was := p[i].id, p[i].rec.location;
    assert p[i] in p;
    InRegionHas(p, p[i]);
    var j :| 0 <= j < |m[was]| && m[was][j] == p[i];
    ReplaceAt(m[was], d, latest, j);
    assert Replace(m[was], d, latest)[j] in Replace(m[was], d, latest);
  }

  lemma UnfiledElsewhere(m: map<string, seq<Entry>>, r: Record, k: string)
    requires k in m && r.location != k
    ensures k in Unfiled(m, r) && Unfiled(m, r)[k] == m[k]
  {
  }
}
