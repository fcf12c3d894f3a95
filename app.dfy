/**
 * The window's bookkeeping around the pool (main.py). The window keeps the set of addresses
 * it has shown, scores each new working result and pools it, merges revalidation results
 * into the pooled records, rebuilds the region menu, filters the proxy list, and toggles
 * the local server and the automatic rotation. Widgets, logging and timers are left out:
 * a timer callback is one call of the method it would run.
 */
module App {
  import opened Wrappers
  import opened Text
  import opened Records
  import opened Sorting
  import opened Rotator
  import opened Labels
  import Server

  // ---------------------------------------------------------------- values the window works with

  /** The records of the pool, in pool order. */
  function Recs(xs: seq<Entry>): (rs: seq<Record>)
    ensures |rs| == |xs|
  {
    seq(|xs|, i requires 0 <= i < |xs| => xs[i].rec)
  }

  /** The addresses of some records. */
  function AddressSet(rs: seq<Record>): set<string> {
    set r | r in rs :: r.address
  }

  /** A result the window takes: a working result for an address it has not shown. */
  predicate Admitted(shown: set<string>, r: Record) {
    r.status == Working && r.address !in shown
  }

  /**
   * The scored results a stream of results adds to the pool, in order, when `shown` holds
   * the addresses shown so far: each admitted result is shown, so a later result for the
   * same address is ignored.
   */
  function Accepted(shown: set<string>, rs: seq<Record>): seq<Record>
    decreases |rs|
  {
    if rs == [] then []
    else if Admitted(shown, rs[0]) then [Scored(rs[0])] + Accepted(shown + {rs[0].address}, rs[1..])
    else Accepted(shown, rs[1..])
  }

  /** The results before the end marker. */
  function Batch(stream: seq<Option<Record>>): seq<Record> {
    if stream == [] || stream[0].None? then [] else [stream[0].value] + Batch(stream[1..])
  }

  /** The addresses of the working results. */
  function WorkingAddresses(rs: seq<Record>): set<string> {
    set r | r in rs && r.status == Working :: r.address
  }

  /** Position of the first record with the address (the generator in process_revalidate_queue). */
  function FindRecord(rs: seq<Record>, a: string): (i: Option<nat>)
    ensures i.Some? ==> i.value < |rs| && rs[i.value].address == a
    ensures i.Some? ==> forall j :: 0 <= j < i.value ==> rs[j].address != a
    ensures i.None? ==> forall j :: 0 <= j < |rs| ==> rs[j].address != a
  {
    if rs == [] then None
    else if rs[0].address == a then Some(0)
    else match FindRecord(rs[1..], a)
      case None => None
      case Some(i) => Some(i + 1)
  }

  /**
   * The pool after one revalidation result: an address no longer pooled is skipped, a
   * working result replaces the pooled record in place, scored, and any other result
   * removes it.
   */
  function Revalidated(pool: seq<Record>, r: Record): seq<Record> {
    match FindRecord(pool, r.address)
    case None => pool
    case Some(i) =>
      if r.status == Working then pool[i := Scored(r)] else pool[..i] + pool[i + 1..]
  }

  /** Python's p.get('score', 0), the sort key of the list. */
  function ScoreKey(r: Record): real { r.score.GetOr(0.0) }

  /** The list filter: the selected region (or every region) and, in high-quality mode, latency <= 2.0 s. */
  predicate Shows(r: Record, key: string, highQuality: bool) {
    (key == AllRegions || r.location == key) && (!highQuality || ShownAsHighQuality(r))
  }

  /** The records the filter keeps, in order. */
  function Passing(rs: seq<Record>, key: string, highQuality: bool): seq<Record> {
    if rs == [] then []
    else
      var last := rs[|rs| - 1];
      Passing(rs[..|rs| - 1], key, highQuality) + (if Shows(last, key, highQuality) then [last] else [])
  }

  /** The list the window displays: the pool sorted by score, highest first, then filtered. */
  function Listed(pool: seq<Record>, key: string, highQuality: bool): seq<Record> {
    Passing(SortDesc(pool, ScoreKey), key, highQuality)
  }

  /** int(text) > 0, the interval the automatic rotation accepts. */
  predicate PositiveInterval(text: string) {
    ParseInt(text).Some? && ParseInt(text).value > 0
  }

  /** The filtering loop of _refresh_treeview over the sorted pool. */
  method FilterShown(sorted: seq<Record>, key: string, highQuality: bool) returns (shown: seq<Record>)
    ensures shown == Passing(sorted, key, highQuality)
  {
    shown := [];
    var i := 0;
    while i < |sorted|
      invariant 0 <= i <= |sorted|
      invariant shown == Passing(sorted[..i], key, highQuality)
    {
      assert sorted[..i + 1][..i] == sorted[..i];
      if Shows(sorted[i], key, highQuality) {
        shown := shown + [sorted[i]];
      }
      i := i + 1;
    }
    assert sorted[..i] == sorted;
  }

  // ---------------------------------------------------------------- the window

  /** The region combobox: its entries and the selected entry. */
  class RegionBox {
    var values: seq<string>
    var selected: string

    constructor ()
      ensures values == [] && selected == AllRegions
    {
      values, selected := [], AllRegions;
    }

    /**
     * The menu half of _update_regions_and_counts: the menu is rebuilt from the counts and
     * the selection moves to the first entry starting with the region it named, or to "全部地区".
     */
    method Rebuild(counts: seq<(string, nat)>)
      modifies this
      ensures values == if counts == [] then [AllRegions] else RegionMenu(counts)
      ensures selected in values
      ensures var previous := PreviousRegion(old(selected));
        if counts != [] && previous.Some? && previous.value != [] && SomeStartsWith(values, previous.value)
        then FirstStartingWith(values, previous.value, selected)
        else selected == AllRegions
    {
      if counts != [] {
        var menu := RegionMenu(counts);
        var previous := PreviousRegion(selected);
        values := menu;
        selected := Reselect(menu, previous);
        assert menu[0] == AllRegions;
      } else {
        values, selected := [AllRegions], AllRegions;
      }
    }
  }

  class ProxyApp {
    /** self.rotator */
    const rotator: ProxyRotator
    /** self.proxy_server */
    const server: Server.ProxyServer
    /** self.region_combobox */
    const regions: RegionBox
    /** displayed_proxies: the addresses the window has shown. */
    var displayed: set<string>
    var isRunningTask: bool
    var isServerRunning: bool
    var isAutoRotating: bool
    /** The high-quality check box. */
    var highQuality: bool
    /** The interval spin box, as text. */
    var interval: string
    /** The progress bar's value. */
    var progress: nat

    /** The shown addresses are exactly the pooled ones, and the server flag tracks the listeners. */
    ghost predicate Valid()
      reads this, rotator, server
    {
      && rotator.Valid()
      && displayed == AddressSet(Recs(rotator.proxies))
      && isServerRunning == server.running
    }

    constructor ()
      ensures Valid() && rotator.Indexed()
      ensures rotator.proxies == [] && displayed == {} && regions.selected == AllRegions
      ensures !isRunningTask && !isServerRunning && !isAutoRotating && !highQuality && interval == "10"
    {
      rotator := new ProxyRotator();
      server := new Server.ProxyServer();
      regions := new RegionBox();
      displayed := {};
      isRunningTask, isServerRunning, isAutoRotating := false, false, false;
      highQuality, interval, progress := false, "10", 0;
      assert Recs([]) == [];
    }

    /**
     * One result of process_result_queue. The end marker ends the task and refreshes the
     * list; a working result for an unseen address is shown, scored and pooled; anything
     * else only advances the progress bar. `listed` says whether the new row enters the
     * list under the current filter.
     */
    method ProcessResult(item: Option<Record>) returns (listed: bool)
      requires Valid()
      modifies this, rotator, server, regions
      ensures Valid()
      ensures item.None? ==> !isRunningTask && rotator.proxies == old(rotator.proxies) && !listed
      ensures item.Some? ==>
        && isRunningTask == old(isRunningTask) && progress == old(progress) + 1
        && Recs(rotator.proxies) == Recs(old(rotator.proxies)) + Accepted(old(displayed), [item.value])
      ensures listed <==>
        item.Some? && Admitted(old(displayed), item.value) && Shows(item.value, ListKey(old(regions.selected)), old(highQuality))
      ensures old(rotator.Indexed()) ==> rotator.Indexed()
    {
      listed := false;
      if item.None? {
        isRunningTask := false;
        var _ := RefreshTreeview();
        return;
      }
      var r := item.value;
      progress := progress + 1;
      AcceptedOne(displayed, r);
      if r.status != Working || r.address in displayed {
        return;
      }
      listed := Shows(r, ListKey(regions.selected), highQuality);
      var first := rotator.GetWorkingProxiesCount();
      Include(r);
      if first == 0 {
        UpdateRegionsAndCounts(highQuality);
      }
    }

    /** The pooling half of process_result_queue: the result is shown, scored and added to the pool. */
    method Include(r: Record)
      requires Valid() && r.address !in displayed
      modifies this, rotator
      ensures Valid()
      ensures displayed == old(displayed) + {r.address}
      ensures Recs(rotator.proxies) == Recs(old(rotator.proxies)) + [Scored(r)]
      ensures isRunningTask == old(isRunningTask) && progress == old(progress) && highQuality == old(highQuality)
      ensures old(rotator.Indexed()) ==> rotator.Indexed()
    {
      PooledAddress(rotator.proxies, r.address);
      ghost var before, id := rotator.proxies, rotator.nextId;
      rotator.AddProxy(Scored(r));
      RecsAppend(before, Entry(id, Scored(r)));
      AddressSetAppend(Recs(before), [Scored(r)]);
      assert AddressSet([Scored(r)]) == {r.address};
      displayed := displayed + {r.address};
    }

    /**
     * The polling of process_result_queue over one validation run: every result up to the end
     * marker in turn. The pool gains exactly the accepted results, in order.
     */
    method ConsumeResults(stream: seq<Option<Record>>)
      requires Valid()
      modifies this, rotator, server, regions
      ensures Valid()
      ensures Recs(rotator.proxies) == Recs(old(rotator.proxies)) + Accepted(old(displayed), Batch(stream))
      ensures displayed == old(displayed) + AddressSet(Accepted(old(displayed), Batch(stream)))
      ensures None in stream ==> !isRunningTask
      ensures old(rotator.Indexed()) ==> rotator.Indexed()
    {
      ghost var target := Recs(old(rotator.proxies)) + Accepted(old(displayed), Batch(stream));
      var i := 0;
      var ended := false;
      while i < |stream| && !ended
        invariant 0 <= i <= |stream| && Valid()
        invariant ended ==> 0 < i && stream[i - 1].None? && !isRunningTask
        invariant !ended ==> forall j :: 0 <= j < i ==> stream[j].Some?
        invariant !ended ==> Recs(rotator.proxies) + Accepted(displayed, Batch(stream[i..])) == target
        invariant ended ==> Recs(rotator.proxies) == target
        invariant old(rotator.Indexed()) ==> rotator.Indexed()
        decreases |stream| - i
      {
        ghost var pool := Recs(rotator.proxies);
        var _ := ProcessResult(stream[i]);
        if stream[i].None? {
          assert Batch(stream[i..]) == [];
          ended := true;
        } else {
          BatchFrom(stream, i);
          ConsumeStep(pool, stream[i].value, Batch(stream[i + 1..]), target);
        }
        i := i + 1;
      }
      if !ended {
        assert stream[i..] == [];
        assert None !in stream;
      }
      AddressSetAppend(Recs(old(rotator.proxies)), Accepted(old(displayed), Batch(stream)));
    }

    /**
     * One result of process_revalidate_queue. The end marker ends the task and refreshes the
     * list; otherwise the pool becomes `Revalidated`, and a removed address is no longer shown.
     */
    method ProcessRevalidateResult(item: Option<Record>)
      requires Valid()
      modifies this, rotator, server, regions
      ensures Valid()
      ensures item.None? ==> !isRunningTask && rotator.proxies == old(rotator.proxies)
      ensures item.Some? ==>
        && isRunningTask == old(isRunningTask) && progress == old(progress) + 1
        && Recs(rotator.proxies) == Revalidated(Recs(old(rotator.proxies)), item.value)
    {
      if item.None? {
        isRunningTask := false;
        var _ := RefreshTreeview();
        return;
      }
      var r := item.value;
      progress := progress + 1;
      var found := rotator.FindAddress(r.address);
      FindRecordOfPool(rotator.proxies, r.address);
      if found.None? {
        return;
      }
      if r.status == Working {
        Merge(r, found.value);
      } else {
        Drop(r.address, found.value);
      }
    }

    /** original_proxy_info.update(result_dict): the scored result overwrites the pooled record in place. */
    method Merge(r: Record, i: nat)
      requires Valid() && FirstWithAddress(rotator.proxies, r.address) == Some(i)
      modifies rotator
      ensures Valid()
      ensures Recs(rotator.proxies) == Recs(old(rotator.proxies))[i := Scored(r)]
    {
      ghost var before := rotator.proxies;
      var _ := rotator.UpdateInPlace(Scored(r));
      RecsReplace(before, i, Scored(r));
      AddressSetReplace(Recs(before), i, Scored(r));
    }

    /** The failing branch of process_revalidate_queue: the record leaves the pool and the shown set. */
    method Drop(address: string, i: nat)
      requires Valid() && FirstWithAddress(rotator.proxies, address) == Some(i)
      modifies this, rotator
      ensures Valid()
      ensures Recs(rotator.proxies) == Recs(old(rotator.proxies))[..i] + Recs(old(rotator.proxies))[i + 1..]
      ensures displayed == old(displayed) - {address}
      ensures isRunningTask == old(isRunningTask) && progress == old(progress)
    {
      ghost var before := rotator.proxies;
      var _ := rotator.RemoveProxy(address);
      RecsRemove(before, i);
      AddressSetRemove(Recs(before), i);
      if address in displayed {
        displayed := displayed - {address};
      }
    }

    /** _delete_selected_proxy: the selected address leaves the pool and the shown set, and the list is refreshed. */
    method DeleteSelected(address: string)
      requires Valid()
      modifies this, rotator, server, regions
      ensures Valid()
      ensures displayed == old(displayed) - {address}
      ensures Recs(rotator.proxies) == match FindRecord(Recs(old(rotator.proxies)), address)
        case None => Recs(old(rotator.proxies))
        case Some(i) => Recs(old(rotator.proxies))[..i] + Recs(old(rotator.proxies))[i + 1..]
      ensures address in old(displayed) && rotator.proxies == [] ==> !isServerRunning && !isAutoRotating
    {
      var found := rotator.FindAddress(address);
      FindRecordOfPool(rotator.proxies, address);
      PooledAddress(rotator.proxies, address);
      if found.None? {
        assert address !in displayed;
        return;
      }
      Drop(address, found.value);
      var _ := RefreshTreeview();
    }

    /** clear_all_proxies: refused while a task runs; once confirmed, the pool and the shown set are emptied. */
    method ClearAll(confirmed: bool)
      requires Valid()
      modifies this, rotator, server, regions
      ensures Valid()
      ensures old(isRunningTask) || !confirmed ==> rotator.proxies == old(rotator.proxies) && displayed == old(displayed)
      ensures !old(isRunningTask) && confirmed ==>
        rotator.proxies == [] && displayed == {} && !isServerRunning && !isAutoRotating
    {
      if isRunningTask || !confirmed {
        return;
      }
      rotator.Clear();
      displayed := {};
      var _ := RefreshTreeview();
    }

    /** rotate_proxy: the next proxy of the view the selected region and the quality box name. */
    method RotateProxy() returns (r: Option<Record>)
      requires Valid()
      modifies rotator
      ensures Valid()
      ensures rotator.proxies == old(rotator.proxies) && rotator.byCountry == old(rotator.byCountry)
      ensures var view := View(SourceList(rotator.proxies, rotator.byCountry, RotateKey(regions.selected)), highQuality);
        && (r.None? <==> view == [])
        && (r.None? ==> rotator.current == None)
        && (r.Some? ==> rotator.current.Some? && rotator.current.value in view && r.value == rotator.current.value.rec)
      ensures var view := View(SourceList(rotator.proxies, rotator.byCountry, RotateKey(regions.selected)), highQuality);
        var key := CursorKey(SourceRegion(rotator.byCountry, RotateKey(regions.selected)), highQuality);
        if view == [] then rotator.indices == old(rotator.indices)
        else
          var i := NextIndex(Lookup(old(rotator.indices), key), |view|);
          rotator.indices == old(rotator.indices)[key := i] && rotator.current == Some(view[i])
      ensures old(rotator.Indexed()) ==> rotator.Indexed()
    {
      r := rotator.GetNextProxy(RotateKey(regions.selected), highQuality);
    }

    /** The stopping branch of toggle_server. */
    method StopServer()
      requires Valid()
      modifies this, server
      ensures Valid()
      ensures !isServerRunning && server.starts == old(server.starts)
      ensures displayed == old(displayed) && isAutoRotating == old(isAutoRotating) && isRunningTask == old(isRunningTask)
      ensures progress == old(progress) && highQuality == old(highQuality) && interval == old(interval)
    {
      server.StopAll();
      isServerRunning := false;
    }

    /** toggle_server: stops a running server; starts a stopped one only over a non-empty pool, choosing a proxy first if none is current. */
    method ToggleServer()
      requires Valid()
      modifies this, rotator, server
      ensures Valid()
      ensures old(isServerRunning) ==> !isServerRunning && unchanged(rotator) && server.starts == old(server.starts)
      ensures !old(isServerRunning) ==> (isServerRunning <==> rotator.proxies != [])
      ensures !old(isServerRunning) ==>
        server.starts == if rotator.proxies != [] then old(server.starts) + 1 else old(server.starts)
      ensures rotator.proxies == old(rotator.proxies)
      ensures old(rotator.current).Some? ==> unchanged(rotator)
      ensures old(rotator.Indexed()) ==> rotator.Indexed()
    {
      if isServerRunning {
        StopServer();
        return;
      }
      var n := rotator.GetWorkingProxiesCount();
      if n == 0 {
        return;
      }
      var cur := rotator.GetCurrentProxy();
      if cur.None? {
        var _ := RotateProxy();
      }
      server.StartAll();
      isServerRunning := true;
    }

    /** The stopping branch of toggle_auto_rotate (the pending timer is cancelled). */
    method StopAutoRotate()
      modifies this
      ensures !isAutoRotating
      ensures displayed == old(displayed) && isServerRunning == old(isServerRunning) && isRunningTask == old(isRunningTask)
      ensures progress == old(progress) && highQuality == old(highQuality) && interval == old(interval)
    {
      isAutoRotating := false;
    }

    /**
     * toggle_auto_rotate: stops a running rotation; starts one only when the interval is a
     * positive integer, rotating at once. `delay` is the timer the start schedules, in ms.
     */
    method ToggleAutoRotate() returns (delay: Option<int>)
      requires Valid()
      modifies this, rotator
      ensures Valid()
      ensures old(isAutoRotating) ==> !isAutoRotating && unchanged(rotator) && delay.None?
      ensures !old(isAutoRotating) ==> (isAutoRotating <==> PositiveInterval(interval))
      ensures !old(isAutoRotating) && isAutoRotating ==> delay == Some(ParseInt(interval).value * 1000)
      ensures !isAutoRotating ==> delay.None?
      ensures rotator.proxies == old(rotator.proxies)
      ensures old(rotator.Indexed()) ==> rotator.Indexed()
    {
      if isAutoRotating {
        StopAutoRotate();
        return None;
      }
      var seconds := ParseInt(interval);
      if seconds.None? || seconds.value <= 0 {
        return None;
      }
      isAutoRotating := true;
      delay := PerformAutoRotation();
    }

    /**
     * _perform_auto_rotation: while the rotation runs, rotates and schedules the next call
     * int(interval) * 1000 ms later; an interval that is no integer stops the rotation.
     */
    method PerformAutoRotation() returns (delay: Option<int>)
      requires Valid()
      modifies this, rotator
      ensures Valid()
      ensures !old(isAutoRotating) ==> delay.None? && !isAutoRotating && unchanged(rotator)
      ensures old(isAutoRotating) ==>
        if ParseInt(interval).Some? then isAutoRotating && delay == Some(ParseInt(interval).value * 1000)
        else !isAutoRotating && delay.None?
      ensures rotator.proxies == old(rotator.proxies) && interval == old(interval)
      ensures old(rotator.Indexed()) ==> rotator.Indexed()
    {
      if !isAutoRotating {
        return None;
      }
      var _ := RotateProxy();
      var seconds := ParseInt(interval);
      if seconds.None? {
        StopAutoRotate();
        return None;
      }
      return Some(seconds.value * 1000);
    }

    /**
     * _update_regions_and_counts: rebuilds the region menu from the pool's counts and, once
     * the pool is empty, stops the server and the automatic rotation.
     */
    method UpdateRegionsAndCounts(premiumOnly: bool)
      requires Valid()
      modifies this, server, regions
      ensures Valid()
      ensures var counts := RegionCounts(rotator.countryOrder, rotator.byCountry, premiumOnly);
        regions.values == if counts == [] then [AllRegions] else RegionMenu(counts)
      ensures regions.selected in regions.values
      ensures var counts := RegionCounts(rotator.countryOrder, rotator.byCountry, premiumOnly);
        var previous := PreviousRegion(old(regions.selected));
        if counts != [] && previous.Some? && previous.value != [] && SomeStartsWith(regions.values, previous.value)
        then FirstStartingWith(regions.values, previous.value, regions.selected)
        else regions.selected == AllRegions
      ensures rotator.proxies == [] ==> !isServerRunning && !isAutoRotating
      ensures rotator.proxies != [] ==> isServerRunning == old(isServerRunning) && isAutoRotating == old(isAutoRotating)
      ensures displayed == old(displayed) && isRunningTask == old(isRunningTask) && progress == old(progress)
      ensures highQuality == old(highQuality) && interval == old(interval)
    {
      var working := rotator.GetWorkingProxiesCount();
      var counts := rotator.GetAvailableRegionsWithCounts(premiumOnly);
      regions.Rebuild(counts);
      if working == 0 {
        if isServerRunning {
          StopServer();
        }
        if isAutoRotating {
          StopAutoRotate();
        }
      }
    }

    /** The list of _refresh_treeview for the current selection and quality box. */
    method ListedProxies() returns (shown: seq<Record>)
      ensures shown == Listed(Recs(rotator.proxies), ListKey(regions.selected), highQuality)
    {
      var sorted := SortDesc(Recs(rotator.proxies), ScoreKey);
      shown := FilterShown(sorted, ListKey(regions.selected), highQuality);
    }

    /** _refresh_treeview: the menu is rebuilt first, then the list follows the selection it leaves. */
    method RefreshTreeview() returns (shown: seq<Record>)
      requires Valid()
      modifies this, server, regions
      ensures Valid()
      ensures shown == Listed(Recs(rotator.proxies), ListKey(regions.selected), highQuality)
      ensures rotator.proxies == [] ==> !isServerRunning && !isAutoRotating
      ensures displayed == old(displayed) && isRunningTask == old(isRunningTask) && progress == old(progress)
    {
      UpdateRegionsAndCounts(highQuality);
      shown := ListedProxies();
    }

    /** Choosing a menu entry refreshes the list. */
    method SelectRegion(i: nat) returns (shown: seq<Record>)
      requires Valid() && i < |regions.values|
      modifies this, server, regions
      ensures Valid()
      ensures shown == Listed(Recs(rotator.proxies), ListKey(regions.selected), highQuality)
    {
      regions.selected := regions.values[i];
      shown := RefreshTreeview();
    }
  }

  // ---------------------------------------------------------------- the pool seen as records

  lemma PooledAddress(xs: seq<Entry>, a: string)
    ensures a in AddressSet(Recs(xs)) <==> FirstWithAddress(xs, a).Some?
  {
    var k := FirstWithAddress(xs, a);
    if k.Some? {
      assert Recs(xs)[k.value] in Recs(xs);
    } else {
      forall r | r in Recs(xs)
        ensures r.address != a
      {
        var j :| 0 <= j < |xs| && Recs(xs)[j] == r;
      }
    }
  }

  lemma {:induction false} FindRecordOfPool(xs: seq<Entry>, a: string)
    ensures FindRecord(Recs(xs), a) == FirstWithAddress(xs, a)
  {
    if xs != [] {
      assert Recs(xs)[1..] == Recs(xs[1..]);
      FindRecordOfPool(xs[1..], a);
    }
  }

  lemma RecsAppend(xs: seq<Entry>, e: Entry)
    ensures Recs(xs + [e]) == Recs(xs) + [e.rec]
  {
  }

  lemma RecsRemove(xs: seq<Entry>, i: nat)
    requires i < |xs|
    ensures Recs(xs[..i] + xs[i + 1..]) == Recs(xs)[..i] + Recs(xs)[i + 1..]
  {
  }

  lemma RecsReplace(xs: seq<Entry>, i: nat, latest: Record)
    requires i < |xs| && DistinctIds(xs)
    ensures Recs(Replace(xs, xs[i].id, latest)) == Recs(xs)[i := latest]
  {
    forall j | 0 <= j < |xs|
      ensures Recs(Replace(xs, xs[i].id, latest))[j] == Recs(xs)[i := latest][j]
    {
      ReplaceAt(xs, xs[i].id, latest, j);
    }
  }

  lemma AddressSetAppend(a: seq<Record>, b: seq<Record>)
    ensures AddressSet(a + b) == AddressSet(a) + AddressSet(b)
  {
    forall x | x in AddressSet(a + b)
      ensures x in AddressSet(a) + AddressSet(b)
    {
      var r :| r in a + b && r.address == x;
    }
    forall x | x in AddressSet(a) + AddressSet(b)
      ensures x in AddressSet(a + b)
    {
      if x in AddressSet(a) {
        var r :| r in a && r.address == x;
        assert r in a + b;
      } else {
        var r :| r in b && r.address == x;
        assert r in a + b;
      }
    }
  }

  /** Overwriting a record with one for the same address keeps the addresses. */
  lemma AddressSetReplace(rs: seq<Record>, i: nat, latest: Record)
    requires i < |rs| && latest.address == rs[i].address
    ensures AddressSet(rs[i := latest]) == AddressSet(rs)
  {
    forall x | x in AddressSet(rs[i := latest])
      ensures x in AddressSet(rs)
    {
      var r :| r in rs[i := latest] && r.address == x;
      var j :| 0 <= j < |rs| && rs[i := latest][j] == r;
      assert rs[j] in rs;
    }
    forall x | x in AddressSet(rs)
      ensures x in AddressSet(rs[i := latest])
    {
      var r :| r in rs && r.address == x;
      var j :| 0 <= j < |rs| && rs[j] == r;
      assert rs[i := latest][j] in rs[i := latest];
    }
  }

  /** Removing the only record with an address removes that address. */
  lemma AddressSetRemove(rs: seq<Record>, i: nat)
    requires i < |rs| && forall j :: 0 <= j < |rs| && j != i ==> rs[j].address != rs[i].address
    ensures AddressSet(rs[..i] + rs[i + 1..]) == AddressSet(rs) - {rs[i].address}
  {
    var ys := rs[..i] + rs[i + 1..];
    forall x | x in AddressSet(ys)
      ensures x in AddressSet(rs) - {rs[i].address}
    {
      var r :| r in ys && r.address == x;
      var j :| 0 <= j < |ys| && ys[j] == r;
      var k := if j < i then j else j + 1;
      assert rs[k] == r;
    }
    forall x | x in AddressSet(rs) - {rs[i].address}
      ensures x in AddressSet(ys)
    {
      var r :| r in rs && r.address == x;
      var j :| 0 <= j < |rs| && rs[j] == r;
      assert j != i;
      var k := if j < i then j else j - 1;
      assert ys[k] == r;
    }
  }

  // ---------------------------------------------------------------- what the window accepts

  lemma AcceptedOne(shown: set<string>, r: Record)
    ensures Accepted(shown, [r]) == if Admitted(shown, r) then [Scored(r)] else []
  {
    assert [r][1..] == [];
  }

  /** The results from a present one onwards start with it. */
  lemma BatchFrom(stream: seq<Option<Record>>, i: nat)
    requires i < |stream| && stream[i].Some?
    ensures Batch(stream[i..]) == [stream[i].value] + Batch(stream[i + 1..])
  {
    assert stream[i..][1..] == stream[i + 1..];
  }

  /** Taking one more result of a stream moves it from the pending results to the pool. */
  lemma ConsumeStep(pool: seq<Record>, x: Record, rest: seq<Record>, target: seq<Record>)
    requires pool + Accepted(AddressSet(pool), [x] + rest) == target
    ensures var next := pool + Accepted(AddressSet(pool), [x]);
      next + Accepted(AddressSet(next), rest) == target
  {
    AcceptedCons(AddressSet(pool), x, rest);
    AddressSetAppend(pool, Accepted(AddressSet(pool), [x]));
  }

  lemma AcceptedCons(shown: set<string>, r: Record, rest: seq<Record>)
    ensures Accepted(shown, [r] + rest)
      == Accepted(shown, [r]) + Accepted(shown + AddressSet(Accepted(shown, [r])), rest)
  {
    assert ([r] + rest)[1..] == rest;
    AcceptedOne(shown, r);
    if Admitted(shown, r) {
      assert AddressSet([Scored(r)]) == {r.address};
    } else {
      assert AddressSet([]) == {};
      assert shown + {} == shown;
    }
  }

  lemma WorkingCons(r: Record, rs: seq<Record>)
    ensures WorkingAddresses([r] + rs) == (if r.status == Working then {r.address} else {}) + WorkingAddresses(rs)
  {
    var l, rr := WorkingAddresses([r] + rs), (if r.status == Working then {r.address} else {}) + WorkingAddresses(rs);
    forall x | x in l
      ensures x in rr
    {
      var y :| y in [r] + rs && y.status == Working && y.address == x;
      if y != r {
        assert y in rs;
      }
    }
    forall x | x in rr
      ensures x in l
    {
      if x in WorkingAddresses(rs) {
        var y :| y in rs && y.status == Working && y.address == x;
        assert y in [r] + rs;
      } else {
        assert r in [r] + rs;
      }
    }
  }

  lemma AddressSetCons(r: Record, rs: seq<Record>)
    ensures AddressSet([r] + rs) == {r.address} + AddressSet(rs)
  {
    AddressSetAppend([r], rs);
    assert AddressSet([r]) == {r.address} by {
      assert r in [r];
    }
  }

  /** The addresses the window pools from a stream: those of its working results that were not shown before. */
  lemma {:induction false} AcceptedAddresses(shown: set<string>, rs: seq<Record>)
    ensures AddressSet(Accepted(shown, rs)) == WorkingAddresses(rs) - shown
    decreases |rs|
  {
    if rs == [] {
      assert AddressSet([]) == {};
      assert WorkingAddresses([]) == {};
    } else {
      var r, t := rs[0], rs[1..];
      assert rs == [r] + t;
      WorkingCons(r, t);
      if Admitted(shown, r) {
        AcceptedAddresses(shown + {r.address}, t);
        AddressSetCons(Scored(r), Accepted(shown + {r.address}, t));
      } else {
        AcceptedAddresses(shown, t);
      }
    }
  }

  /** Each pooled result is a scored working result of the stream whose address was not shown before. */
  lemma {:induction false} AcceptedFrom(shown: set<string>, rs: seq<Record>)
    ensures forall x :: x in Accepted(shown, rs) ==>
      x.address !in shown && x.score.Some? && exists r :: r in rs && r.status == Working && x == Scored(r)
    decreases |rs|
  {
    if rs != [] {
      var r, t := rs[0], rs[1..];
      if Admitted(shown, r) {
        var rest := Accepted(shown + {r.address}, t);
        AcceptedFrom(shown + {r.address}, t);
        forall x | x in rest
          ensures exists y :: y in rs && y.status == Working && x == Scored(y)
        {
          var y :| y in t && y.status == Working && x == Scored(y);
          assert y in rs;
        }
        assert r in rs;
      } else {
        AcceptedFrom(shown, t);
        forall x | x in Accepted(shown, t)
          ensures exists y :: y in rs && y.status == Working && x == Scored(y)
        {
          var y :| y in t && y.status == Working && x == Scored(y);
          assert y in rs;
        }
      }
    }
  }

  /** No address is pooled twice. */
  lemma {:induction false} AcceptedDistinct(shown: set<string>, rs: seq<Record>)
    ensures UniqueAddresses(Accepted(shown, rs))
    decreases |rs|
  {
    if rs != [] {
      var r, t := rs[0], rs[1..];
      if Admitted(shown, r) {
        var rest := Accepted(shown + {r.address}, t);
        AcceptedDistinct(shown + {r.address}, t);
        AcceptedFrom(shown + {r.address}, t);
        var a := [Scored(r)] + rest;
        forall i, j | 0 <= i < j < |a|
          ensures a[i].address != a[j].address
        {
          assert a[j] == rest[j - 1] && a[j] in rest;
          if i > 0 {
            assert a[i] == rest[i - 1];
          }
        }
      } else {
        AcceptedDistinct(shown, t);
      }
    }
  }

  lemma {:induction false} AcceptedEmpty(shown: set<string>, rs: seq<Record>)
    requires WorkingAddresses(rs) <= shown
    ensures Accepted(shown, rs) == []
    decreases |rs|
  {
    if rs != [] {
      assert rs == [rs[0]] + rs[1..];
      WorkingCons(rs[0], rs[1..]);
      AcceptedEmpty(shown, rs[1..]);
    }
  }

  /** Receiving the same results again, once they are shown, adds nothing to the pool. */
  lemma ReplayAddsNothing(shown: set<string>, rs: seq<Record>)
    ensures Accepted(shown + AddressSet(Accepted(shown, rs)), rs) == []
  {
    AcceptedAddresses(shown, rs);
    AcceptedEmpty(shown + AddressSet(Accepted(shown, rs)), rs);
  }

  /** The stream of a validation run: every result before its one end marker is consumed. */
  lemma {:induction false} BatchOfRun(stream: seq<Option<Record>>, n: nat)
    requires |stream| == n + 1 && stream[n] == None
    requires forall i :: 0 <= i < n ==> stream[i].Some?
    ensures |Batch(stream)| == n && None in stream
    ensures forall i :: 0 <= i < n ==> Batch(stream)[i] == stream[i].value
    decreases n
  {
    if n > 0 {
      BatchOfRun(stream[1..], n - 1);
      assert Batch(stream) == [stream[0].value] + Batch(stream[1..]);
    }
  }

  // ---------------------------------------------------------------- what revalidation does

  lemma FoundRecord(rs: seq<Record>, a: string)
    ensures a in AddressSet(rs) <==> FindRecord(rs, a).Some?
  {
    var k := FindRecord(rs, a);
    if k.Some? {
      assert rs[k.value] in rs;
    } else {
      forall r | r in rs
        ensures r.address != a
      {
        var j :| 0 <= j < |rs| && rs[j] == r;
      }
    }
  }

  predicate UniqueAddresses(rs: seq<Record>) {
    forall i, j :: 0 <= i < j < |rs| ==> rs[i].address != rs[j].address
  }

  /** Revalidation never adds an address: it keeps the pooled addresses, except that a failed result removes its own. */
  lemma RevalidatedAddresses(pool: seq<Record>, r: Record)
    requires UniqueAddresses(pool)
    ensures AddressSet(Revalidated(pool, r))
      == if r.address in AddressSet(pool) && r.status != Working then AddressSet(pool) - {r.address} else AddressSet(pool)
    ensures UniqueAddresses(Revalidated(pool, r))
  {
    FoundRecord(pool, r.address);
    match FindRecord(pool, r.address)
    case None =>
    case Some(i) =>
      if r.status == Working {
        AddressSetReplace(pool, i, Scored(r));
      } else {
        AddressSetRemove(pool, i);
        var ys := pool[..i] + pool[i + 1..];
        forall a, b | 0 <= a < b < |ys|
          ensures ys[a].address != ys[b].address
        {
          var a', b' := if a < i then a else a + 1, if b < i then b else b + 1;
          assert ys[a] == pool[a'] && ys[b] == pool[b'];
        }
      }
  }

  /** A working result keeps the record's position and every other record, and recomputes its score. */
  lemma RevalidatedInPlace(pool: seq<Record>, r: Record, i: nat)
    requires FindRecord(pool, r.address) == Some(i) && r.status == Working
    ensures var after := Revalidated(pool, r);
      && |after| == |pool| && after[i].address == pool[i].address
      && after[i].score == Some(Score(r.latency, r.speed, r.anonymity))
      && after[i].location == r.location
      && (forall j :: 0 <= j < |pool| && j != i ==> after[j] == pool[j])
  {
  }

  // ---------------------------------------------------------------- what the list shows

  lemma {:induction false} PassingAppend(u: seq<Record>, v: seq<Record>, key: string, highQuality: bool)
    ensures Passing(u + v, key, highQuality) == Passing(u, key, highQuality) + Passing(v, key, highQuality)
    decreases |v|
  {
    if v == [] {
      assert u + v == u;
    } else {
      var w := v[..|v| - 1];
      assert (u + v)[..|u + v| - 1] == u + w;
      PassingAppend(u, w, key, highQuality);
    }
  }

  lemma PassingOne(x: Record, key: string, highQuality: bool)
    ensures Passing([x], key, highQuality) == if Shows(x, key, highQuality) then [x] else []
  {
    assert [x][..0] == [];
  }

  /** Filtering a sequence with one element taken out loses exactly that element's contribution. */
  lemma PassingRemove(b: seq<Record>, k: nat, key: string, highQuality: bool)
    requires k < |b|
    ensures multiset(Passing(b, key, highQuality))
      == multiset(Passing(b[..k] + b[k + 1..], key, highQuality)) + multiset(Passing([b[k]], key, highQuality))
  {
    assert b == (b[..k] + [b[k]]) + b[k + 1..];
    PassingAppend(b[..k] + [b[k]], b[k + 1..], key, highQuality);
    PassingAppend(b[..k], [b[k]], key, highQuality);
    PassingAppend(b[..k], b[k + 1..], key, highQuality);
  }

  lemma TakeOutBoth(init: seq<Record>, x: Record, b: seq<Record>, k: nat)
    requires k < |b| && b[k] == x && multiset(init + [x]) == multiset(b)
    ensures multiset(init) == multiset(b[..k] + b[k + 1..])
  {
    assert b == b[..k] + [x] + b[k + 1..];
    assert multiset(b) == multiset(b[..k] + b[k + 1..]) + multiset{x};
    assert multiset(init + [x]) == multiset(init) + multiset{x};
    assert multiset(init) == multiset(b) - multiset{x};
  }

  /** The filter keeps every record that passes, as often as it occurs, whatever the order. */
  lemma {:induction false} PassingPermutation(a: seq<Record>, b: seq<Record>, key: string, highQuality: bool)
    requires multiset(a) == multiset(b)
    ensures multiset(Passing(a, key, highQuality)) == multiset(Passing(b, key, highQuality))
    decreases |a|
  {
    if a == [] {
      assert b == [];
    } else {
      var x := a[|a| - 1];
      var init := a[..|a| - 1];
      assert a == init + [x];
      assert x in multiset(b);
      var k :| 0 <= k < |b| && b[k] == x;
      var rest := b[..k] + b[k + 1..];
      TakeOutBoth(init, x, b, k);
      PassingPermutation(init, rest, key, highQuality);
      PassingAppend(init, [x], key, highQuality);
      PassingRemove(b, k, key, highQuality);
    }
  }

  lemma {:induction false} PassingMembers(rs: seq<Record>, key: string, highQuality: bool)
    ensures forall x :: x in Passing(rs, key, highQuality) <==> x in rs && Shows(x, key, highQuality)
    decreases |rs|
  {
    if rs != [] {
      var init := rs[..|rs| - 1];
      PassingMembers(init, key, highQuality);
      assert rs == init + [rs[|rs| - 1]];
    }
  }

  lemma {:induction false} PassingDescending(rs: seq<Record>, key: string, highQuality: bool)
    requires Descending(rs, ScoreKey)
    ensures Descending(Passing(rs, key, highQuality), ScoreKey)
    decreases |rs|
  {
    if rs != [] {
      var init, last := rs[..|rs| - 1], rs[|rs| - 1];
      assert Descending(init, ScoreKey);
      PassingDescending(init, key, highQuality);
      PassingMembers(init, key, highQuality);
      var p := Passing(init, key, highQuality);
      forall i | 0 <= i < |p|
        ensures ScoreKey(p[i]) >= ScoreKey(last)
      {
        assert p[i] in init;
        var j :| 0 <= j < |init| && init[j] == p[i];
      }
    }
  }

  /**
   * The list holds exactly the pooled records that pass the filter, each as often as it is
   * pooled, highest score first.
   */
  lemma ListedIsFilteredPool(pool: seq<Record>, key: string, highQuality: bool)
    ensures multiset(Listed(pool, key, highQuality)) == multiset(Passing(pool, key, highQuality))
    ensures forall x :: x in Listed(pool, key, highQuality) <==> x in pool && Shows(x, key, highQuality)
    ensures Descending(Listed(pool, key, highQuality), ScoreKey)
  {
    var sorted := SortDesc(pool, ScoreKey);
    PassingPermutation(sorted, pool, key, highQuality);
    PassingMembers(sorted, key, highQuality);
    SortDescIsDescending(pool, ScoreKey);
    PassingDescending(sorted, key, highQuality);
    forall x
      ensures x in sorted <==> x in pool
    {
      assert x in sorted <==> x in multiset(sorted);
    }
  }

  /** In high-quality mode a 2.0 s proxy is listed although the pool's premium views leave it out. */
  lemma ListedAtTwoSeconds(r: Record, key: string)
    requires r.latency == Some(2.0) && (key == AllRegions || r.location == key)
    ensures Shows(r, key, true) && !IsPremium(r)
  {
  }

  // ---------------------------------------------------------------- the rotation interval

  /** Any positive whole number of seconds is accepted, and the timer runs that many thousand milliseconds. */
  lemma PositiveIntervalOf(n: nat)
    requires n > 0
    ensures PositiveInterval(NatToString(n)) && ParseInt(NatToString(n)).value * 1000 == n * 1000
  {
    ParseNatToString(n);
  }

  /** Zero and blank text are refused. */
  lemma IntervalRefusals()
    ensures !PositiveInterval("0") && !PositiveInterval("")
  {
    ParseNatToString(0);
    assert NatToString(0) == "0";
    assert Strip("") == [];
  }
}
