/**
 * The region menu of the window (main.py): each region with a pooled proxy becomes the label
 * "{region} ({count})", the labels follow "全部地区" (all regions) in descending count order,
 * and a selected label is read back with re.match(r"(.+?)\s*\(\d+\)", label) and strip().
 */
module Labels {
  import opened Wrappers
  import opened Text
  import opened Patterns
  import opened Sorting

  /** The first menu entry, which stands for every region. */
  const AllRegions: string := "全部地区"

  /** f"{region} ({count})" */
  function RegionLabel(region: string, count: nat): string {
    region + " (" + NatToString(count) + ")"
  }

  // ---------------------------------------------------------------- reading a label back

  /** Length of the leading whitespace run. */
  function SpaceRun(s: string): (n: nat)
    ensures n <= |s|
  {
    if s == [] || !IsSpace(s[0]) then 0 else 1 + SpaceRun(s[1..])
  }

  /**
   * `\s*\(\d+\)` matches at the front of `t`. Neither run can give characters back: a shorter
   * whitespace run leaves whitespace where "(" is needed, a shorter digit run a digit where ")" is.
   */
  predicate CountTag(t: string) {
    var w := SpaceRun(t);
    && w < |t| && t[w] == '('
    && var n := DigitRun(t[w + 1..]);
    n >= 1 && w + 1 + n < |t| && t[w + 1 + n] == ')'
  }

  /**
   * A lazy group followed by `tag`: the shortest length, from `j` on, after which
   * `tag` holds of the rest. `.` does not match a newline, so the group stops
   * growing at one.
   */
  function LazyMatch(s: string, j: nat, tag: string -> bool): (r: Option<nat>)
    requires j >= 1
    ensures r.Some? ==> j <= r.value < |s|
    decreases |s| - j
  {
    if j > |s| || s[j - 1] == '\n' then None
    else if j < |s| && tag(s[j..]) then Some(j)
    else LazyMatch(s, j + 1, tag)
  }

  /** The lazy group `(.+?)` of the label pattern, followed by the count tag. */
  function LazyFrom(s: string, j: nat): Option<nat>
    requires j >= 1
  {
    LazyMatch(s, j, CountTag)
  }

  /** match.group(1).strip() when the label matches, None when it does not. */
  function ParseLabel(entry: string): Option<string> {
    match LazyFrom(entry, 1)
    case None => None
    case Some(j) => Some(Strip(entry[..j]))
  }

  lemma {:induction false} LazyMatchIsShortest(s: string, j: nat, tag: string -> bool)
    requires j >= 1 && LazyMatch(s, j, tag).Some?
    ensures var k := LazyMatch(s, j, tag).value;
      && k < |s| && tag(s[k..])
      && (forall t :: j <= t < k ==> !tag(s[t..]))
      && (forall t :: j - 1 <= t < k ==> s[t] != '\n')
    decreases |s| - j
  {
    assert s[j - 1] != '\n';
    if !(j < |s| && tag(s[j..])) {
      LazyMatchIsShortest(s, j + 1, tag);
    }
  }

  lemma {:induction false} LazyMatchFinds(s: string, j: nat, k: nat, tag: string -> bool)
    requires 1 <= j <= k < |s| && tag(s[k..])
    requires forall t :: j <= t < k ==> !tag(s[t..])
    requires forall t :: j - 1 <= t < k ==> s[t] != '\n'
    ensures LazyMatch(s, j, tag) == Some(k)
    decreases k - j
  {
    assert s[j - 1] != '\n';
    if j < k {
      assert !tag(s[j..]);
      LazyMatchFinds(s, j + 1, k, tag);
    }
  }

  /** The search finds the shortest group: the tag follows it, no shorter group is followed by one, and no newline is inside. */
  lemma LazyFromIsShortest(s: string, j: nat)
    requires j >= 1 && LazyFrom(s, j).Some?
    ensures var k := LazyFrom(s, j).value;
      && CountTag(s[k..])
      && (forall t :: j <= t < k ==> !CountTag(s[t..]))
      && (forall t :: j - 1 <= t < k ==> s[t] != '\n')
  {
    LazyMatchIsShortest(s, j, CountTag);
  }

  /** Conversely, a group of length `k` that the tag follows and no shorter one is what the search finds. */
  lemma LazyFromFinds(s: string, j: nat, k: nat)
    requires 1 <= j <= k < |s| && CountTag(s[k..])
    requires forall t :: j <= t < k ==> !CountTag(s[t..])
    requires forall t :: j - 1 <= t < k ==> s[t] != '\n'
    ensures LazyFrom(s, j) == Some(k)
  {
    LazyMatchFinds(s, j, k, CountTag);
  }

  /** "(" followed by one or more digits and ")" at position `i` of `r`. */
  predicate TagAt(r: string, i: nat)
    requires i < |r|
  {
    && r[i] == '('
    && var n := DigitRun(r[i + 1..]);
    n >= 1 && i + 1 + n < |r| && r[i + 1 + n] == ')'
  }

  /** A region name the label round trip recovers: non-empty, on one line, no outer whitespace, no "(digits)" inside. */
  predicate PlainRegion(r: string) {
    && r != [] && !IsSpace(r[0]) && !IsSpace(r[|r| - 1])
    && (forall i :: 0 <= i < |r| ==> r[i] != '\n')
    && (forall i :: 0 <= i < |r| ==> !TagAt(r, i))
  }

  lemma {:induction false} SpaceRunStops(u: string, v: string)
    requires u != [] && !IsSpace(u[|u| - 1])
    ensures SpaceRun(u + v) == SpaceRun(u) < |u|
  {
    if IsSpace(u[0]) {
      assert (u + v)[1..] == u[1..] + v;
      SpaceRunStops(u[1..], v);
    }
  }

  /** A digit run across a concatenation continues into the second part only when the first part is all digits. */
  lemma {:induction false} DigitRunConcat(a: string, b: string)
    ensures DigitRun(a + b) == if DigitRun(a) < |a| then DigitRun(a) else |a| + DigitRun(b)
  {
    if a == [] {
      assert a + b == b;
    } else if IsDigit(a[0]) {
      assert (a + b)[1..] == a[1..] + b;
      DigitRunConcat(a[1..], b);
    }
  }

  /** No shorter group works: inside a plain region no tag can start, even with the label's own tag after it. */
  lemma NoTagInside(u: string, tail: string)
    requires u != [] && !IsSpace(u[|u| - 1]) && tail != [] && tail[0] == ' '
    requires forall i :: 0 <= i < |u| ==> !TagAt(u, i)
    ensures !CountTag(u + tail)
  {
    var s := u + tail;
    SpaceRunStops(u, tail);
    var w := SpaceRun(u);
    if s[w] == '(' {
      var a := u[w + 1..];
      assert s[w + 1..] == a + tail;
      DigitRunConcat(a, tail);
      var n := DigitRun(a);
      if n < |a| {
        assert a == u[w + 1..];
        assert !TagAt(u, w);
        assert s[w + 1 + n] == u[w + 1 + n];
      } else {
        assert DigitRun(tail) == 0;
        assert s[w + 1 + n] == tail[0];
      }
    }
  }

  /** A tag " (digits)" at the front, whatever follows it. */
  lemma TagOfDigits(d: string, more: string)
    requires d != [] && AllDigits(d)
    ensures CountTag(" (" + d + ")" + more)
  {
    var t := " (" + d + ")" + more;
    assert t[1..][1..] == d + (")" + more);
    assert SpaceRun(t) == 1;
    DigitRunOf(d, ")" + more);
    assert t[2..] == d + (")" + more);
  }

  lemma TagAtSuffix(r: string, k: nat, i: nat)
    requires k + i < |r|
    ensures TagAt(r[k..], i) <==> TagAt(r, k + i)
  {
    assert r[k..][i + 1..] == r[k + i + 1..];
  }

  /** A plain region followed by a tag that starts with a space reads back as the region. */
  lemma ReadsBack(r: string, tail: string)
    requires PlainRegion(r) && tail != [] && tail[0] == ' ' && CountTag(tail)
    ensures ParseLabel(r + tail) == Some(r)
  {
    var s := r + tail;
    forall t | 1 <= t < |r|
      ensures !CountTag(s[t..])
    {
      forall i | 0 <= i < |r[t..]|
        ensures !TagAt(r[t..], i)
      {
        TagAtSuffix(r, t, i);
      }
      assert s[t..] == r[t..] + tail;
      NoTagInside(r[t..], tail);
    }
    assert s[|r|..] == tail;
    LazyFromFinds(s, 1, |r|);
    assert s[..|r|] == r;
    StripUnchanged(r);
  }

  /** Reading a label back recovers the region, for any count. */
  lemma LabelRoundTrip(r: string, c: nat)
    requires PlainRegion(r)
    ensures ParseLabel(RegionLabel(r, c)) == Some(r)
  {
    var tail := " (" + NatToString(c) + ")";
    TagOfDigits(NatToString(c), []);
    assert tail + [] == tail;
    assert RegionLabel(r, c) == r + tail;
    ReadsBack(r, tail);
  }

  /** A region whose name ends in its own " (digits)" loses it: "A (1)" reads back as "A". */
  lemma TaggedRegionIsCut(r: string, d: string, c: nat)
    requires PlainRegion(r) && d != [] && AllDigits(d)
    ensures ParseLabel(RegionLabel(r + " (" + d + ")", c)) == Some(r)
  {
    var more := " (" + NatToString(c) + ")";
    var tail := " (" + d + ")" + more;
    TagOfDigits(d, more);
    assert RegionLabel(r + " (" + d + ")", c) == r + tail;
    ReadsBack(r, tail);
  }

  // ---------------------------------------------------------------- what the selection means

  /** The region a selected menu entry names; `fallback` for an empty selection, the all-regions entry or an unmatched label. */
  function SelectedRegion(selected: string, fallback: string): (key: string)
    ensures selected == [] || selected == AllRegions ==> key == fallback
  {
    if selected != [] && selected != AllRegions then ParseLabel(selected).GetOr(fallback) else fallback
  }

  /** The key the list filter uses (_refresh_treeview, process_result_queue). */
  function ListKey(selected: string): string { SelectedRegion(selected, AllRegions) }

  /** The key rotate_proxy passes to the pool, which calls every region "All". */
  function RotateKey(selected: string): string { SelectedRegion(selected, "All") }

  lemma LabelNotAllRegions(r: string, c: nat)
    ensures RegionLabel(r, c) != [] && RegionLabel(r, c) != AllRegions
  {
    var s := RegionLabel(r, c);
    assert s[|s| - 1] == ')';
  }

  /** Selecting a region's label rotates through that region; "全部地区" rotates through every proxy. */
  lemma RotateKeyOfLabel(r: string, c: nat)
    requires PlainRegion(r)
    ensures RotateKey(RegionLabel(r, c)) == r && ListKey(RegionLabel(r, c)) == r
    ensures RotateKey(AllRegions) == "All" && ListKey(AllRegions) == AllRegions
  {
    LabelNotAllRegions(r, c);
    LabelRoundTrip(r, c);
  }

  /** The region remembered across a menu rebuild, if any. */
  function PreviousRegion(selected: string): Option<string> {
    if selected != [] && selected != AllRegions then ParseLabel(selected) else None
  }

  // ---------------------------------------------------------------- building the menu

  function CountKey(e: (string, nat)): real { e.1 as real }

  function Labelled(counts: seq<(string, nat)>): (ls: seq<string>)
    ensures |ls| == |counts|
  {
    seq(|counts|, i requires 0 <= i < |counts| => RegionLabel(counts[i].0, counts[i].1))
  }

  /** ["全部地区"] + the labels, sorted by count, highest first (a stable sort). */
  function RegionMenu(counts: seq<(string, nat)>): seq<string> {
    [AllRegions] + Labelled(SortDesc(counts, CountKey))
  }

  /**
   * The menu starts with the all-regions entry, then lists each region's label once per
   * count entry, in descending count order, each reading back to its region.
   */
  lemma MenuShape(counts: seq<(string, nat)>)
    requires forall i :: 0 <= i < |counts| ==> PlainRegion(counts[i].0)
    ensures var sorted := SortDesc(counts, CountKey);
      && RegionMenu(counts) == [AllRegions] + Labelled(sorted)
      && multiset(sorted) == multiset(counts)
      && (forall i, j :: 0 <= i < j < |sorted| ==> sorted[i].1 >= sorted[j].1)
      && (forall i :: 0 <= i < |sorted| ==> ParseLabel(RegionMenu(counts)[i + 1]) == Some(sorted[i].0))
  {
    CountsDescending(counts);
    MenuReadsBack(counts);
  }

  lemma CountsDescending(counts: seq<(string, nat)>)
    ensures var sorted := SortDesc(counts, CountKey);
      forall i, j :: 0 <= i < j < |sorted| ==> sorted[i].1 >= sorted[j].1
  {
    var sorted := SortDesc(counts, CountKey);
    SortDescIsDescending(counts, CountKey);
    forall i, j | 0 <= i < j < |sorted|
      ensures sorted[i].1 >= sorted[j].1
    {
      assert CountKey(sorted[i]) >= CountKey(sorted[j]);
    }
  }

  lemma MenuReadsBack(counts: seq<(string, nat)>)
    requires forall i :: 0 <= i < |counts| ==> PlainRegion(counts[i].0)
    ensures var sorted := SortDesc(counts, CountKey);
      forall i :: 0 <= i < |sorted| ==> ParseLabel(RegionMenu(counts)[i + 1]) == Some(sorted[i].0)
  {
    var sorted := SortDesc(counts, CountKey);
    SortedPlain(counts, sorted);
    LabelledReadsBack(sorted);
  }

  lemma SortedPlain(counts: seq<(string, nat)>, sorted: seq<(string, nat)>)
    requires forall i :: 0 <= i < |counts| ==> PlainRegion(counts[i].0)
    requires multiset(sorted) == multiset(counts)
    ensures forall i :: 0 <= i < |sorted| ==> PlainRegion(sorted[i].0)
  {
    forall i | 0 <= i < |sorted|
      ensures PlainRegion(sorted[i].0)
    {
      assert sorted[i] in multiset(counts);
      var k :| 0 <= k < |counts| && counts[k] == sorted[i];
    }
  }

  lemma LabelledReadsBack(rs: seq<(string, nat)>)
    requires forall i :: 0 <= i < |rs| ==> PlainRegion(rs[i].0)
    ensures forall i :: 0 <= i < |rs| ==> ParseLabel(([AllRegions] + Labelled(rs))[i + 1]) == Some(rs[i].0)
  {
    forall i | 0 <= i < |rs|
      ensures ParseLabel(([AllRegions] + Labelled(rs))[i + 1]) == Some(rs[i].0)
    {
      assert ([AllRegions] + Labelled(rs))[i + 1] == RegionLabel(rs[i].0, rs[i].1);
      LabelRoundTrip(rs[i].0, rs[i].1);
    }
  }

  /** Some entry of the menu starts with `key`. */
  predicate SomeStartsWith(menu: seq<string>, key: string) {
    exists i :: 0 <= i < |menu| && StartsWith(menu[i], key)
  }

  /** `sel` is the first entry of the menu that starts with `key`. */
  predicate FirstStartingWith(menu: seq<string>, key: string, sel: string) {
    exists i :: 0 <= i < |menu| && menu[i] == sel && StartsWith(menu[i], key)
      && forall j :: 0 <= j < i ==> !StartsWith(menu[j], key)
  }

  /**
   * The loop of _update_regions_and_counts that restores the selection: the first menu entry
   * starting with the remembered region, or "全部地区" when there is none or no region was remembered.
   */
  method Reselect(menu: seq<string>, previous: Option<string>) returns (sel: string)
    ensures previous.None? || previous.value == [] ==> sel == AllRegions
    ensures previous.Some? && previous.value != [] ==>
      if exists i :: 0 <= i < |menu| && StartsWith(menu[i], previous.value) then
        exists i :: 0 <= i < |menu| && menu[i] == sel && StartsWith(menu[i], previous.value)
          && forall j :: 0 <= j < i ==> !StartsWith(menu[j], previous.value)
      else sel == AllRegions
  {
    sel := AllRegions;
    if previous.None? || previous.value == [] {
      return;
    }
    var key := previous.value;
    var i := 0;
    while i < |menu|
      invariant 0 <= i <= |menu|
      invariant forall j :: 0 <= j < i ==> !StartsWith(menu[j], key)
    {
      if StartsWith(menu[i], key) {
        return menu[i];
      }
      i := i + 1;
    }
  }
}
