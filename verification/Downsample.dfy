/**
 One-pass downsampling of log rows: each bucket keeps its end points, the extrema
 of every channel and one row with a missing cell per channel.
 */
module Downsample {
  import opened Options

  /** A valid log row: its number and the selected cells, cell 0 being the time. */
  datatype Sample = Sample(row: nat, values: seq<Option<real>>)

  /** Rows in file order, all of `width` cells. */
  ghost predicate Rows(g: seq<Sample>, width: nat) {
    && (forall k :: 0 <= k < |g| ==> |g[k].values| == width)
    && (forall j, k :: 0 <= j < k < |g| ==> g[j].row < g[k].row)
  }

  // ----- which rows of a bucket survive ---------------------------------------

  predicate Below(s: Sample, best: Option<Sample>, c: nat)
    requires c < |s.values| && (best.Some? ==> c < |best.value.values| && best.value.values[c].Some?)
  {
    s.values[c].Some? && (best.None? || s.values[c].value < best.value.values[c].value)
  }

  predicate Above(s: Sample, best: Option<Sample>, c: nat)
    requires c < |s.values| && (best.Some? ==> c < |best.value.values| && best.value.values[c].Some?)
  {
    s.values[c].Some? && (best.None? || s.values[c].value > best.value.values[c].value)
  }

  predicate Wide(g: seq<Sample>, c: nat) {
    forall k :: 0 <= k < |g| ==> c < |g[k].values|
  }

  /** The earliest row with the smallest present value in channel `c`. */
  function Low(g: seq<Sample>, c: nat): (r: Option<Sample>)
    requires Wide(g, c)
    ensures r.Some? ==> r.value in g && c < |r.value.values| && r.value.values[c].Some?
    ensures forall k :: 0 <= k < |g| && g[k].values[c].Some? ==>
      r.Some? && r.value.values[c].value <= g[k].values[c].value
  {
    if g == [] then None
    else
      var best, s := Low(g[..|g| - 1], c), g[|g| - 1];
      if Below(s, best, c) then Some(s) else best
  }

  /** The earliest row with the largest present value in channel `c`. */
  function High(g: seq<Sample>, c: nat): (r: Option<Sample>)
    requires Wide(g, c)
    ensures r.Some? ==> r.value in g && c < |r.value.values| && r.value.values[c].Some?
    ensures forall k :: 0 <= k < |g| && g[k].values[c].Some? ==>
      r.Some? && r.value.values[c].value >= g[k].values[c].value
  {
    if g == [] then None
    else
      var best, s := High(g[..|g| - 1], c), g[|g| - 1];
      if Above(s, best, c) then Some(s) else best
  }

  /** The earliest row without a value in channel `c`. */
  function Gap(g: seq<Sample>, c: nat): (r: Option<Sample>)
    requires Wide(g, c)
    ensures r.Some? ==> r.value in g && c < |r.value.values| && r.value.values[c].None?
    ensures forall k :: 0 <= k < |g| && g[k].values[c].None? ==> r.Some?
  {
    if g == [] then None
    else
      var first, s := Gap(g[..|g| - 1], c), g[|g| - 1];
      if first.None? && s.values[c].None? then Some(s) else first
  }

  /** A channel's three markers are up to date with the rows `g`. */
  ghost predicate Tracks(low: Option<Sample>, high: Option<Sample>, gap: Option<Sample>, g: seq<Sample>, c: nat) {
    Wide(g, c) && low == Low(g, c) && high == High(g, c) && gap == Gap(g, c)
  }

  // ----- the bucket -------------------------------------------------------------

  class Bucket {
    var first: Sample
    var last: Sample
    var low: seq<Option<Sample>>
    var high: seq<Option<Sample>>
    var gaps: seq<Option<Sample>>

    /** The bucket summarises exactly the rows `g`. */
    ghost predicate Holds(g: seq<Sample>, width: nat)
      reads this
    {
      && 0 < width && g != [] && Rows(g, width)
      && first == g[0] && last == g[|g| - 1]
      && |low| == |high| == |gaps| == width
      && low[0] == high[0] == gaps[0] == None
      && forall c :: 1 <= c < width ==> Tracks(low[c], high[c], gaps[c], g, c)
    }

    constructor (sample: Sample)
      requires |sample.values| > 0
      ensures Holds([sample], |sample.values|)
    {
      var n := |sample.values|;
      first, last := sample, sample;
      low, high, gaps := seq(n, _ => None), seq(n, _ => None), seq(n, _ => None);
      new;
      assert forall c :: 1 <= c < n ==> Tracks(low[c], high[c], gaps[c], [], c);
      assert [] + [sample] == [sample];
      Update(sample, []);
    }

    method Add(sample: Sample, ghost g: seq<Sample>)
      requires Holds(g, |sample.values|) && last.row < sample.row
      modifies this
      ensures Holds(g + [sample], |sample.values|)
    {
      last := sample;
      assert forall c :: 1 <= c < |low| ==> Tracks(low[c], high[c], gaps[c], g, c);
      Update(sample, g);
    }

    /** The per-channel comparison loop. */
    method Update(sample: Sample, ghost g: seq<Sample>)
      requires |sample.values| > 0 && Rows(g + [sample], |sample.values|)
      requires |low| == |high| == |gaps| == |sample.values| && low[0] == high[0] == gaps[0] == None
      requires forall c :: 1 <= c < |low| ==> Tracks(low[c], high[c], gaps[c], g, c)
      requires first == (g + [sample])[0] && last == sample
      modifies this`low, this`high, this`gaps
      ensures Holds(g + [sample], |sample.values|)
    {
      hide Low, High, Gap;
      ghost var all := g + [sample];
      for c := 1 to |sample.values|
        invariant |low| == |high| == |gaps| == |sample.values| && low[0] == high[0] == gaps[0] == None
        invariant forall d :: 1 <= d < c ==> Tracks(low[d], high[d], gaps[d], all, d)
        invariant forall d :: c <= d < |low| ==> Tracks(low[d], high[d], gaps[d], g, d)
      {
        assert Tracks(low[c], high[c], gaps[c], g, c);
        Snoc(g, sample, c);
        match sample.values[c] {
          case Some(v) =>
            if low[c].None? || v < low[c].value.values[c].value {
              low := low[c := Some(sample)];
            }
            if high[c].None? || v > high[c].value.values[c].value {
              high := high[c := Some(sample)];
            }
          case None =>
            if gaps[c].None? {
              gaps := gaps[c := Some(sample)];
            }
        }
        assert Tracks(low[c], high[c], gaps[c], all, c);
      }
    }

    /** The surviving rows in row order, each once. */
    method Finish(ghost g: seq<Sample>, ghost width: nat) returns (kept: seq<Sample>)
      requires Holds(g, width)
      ensures kept == Keep(g, width)
    {
      hide Low, High, Gap;
      var keep := [first, last] + Present(low) + Present(high) + Present(gaps);
      assert forall c :: 1 <= c < width ==> Tracks(low[c], high[c], gaps[c], g, c);
      assert low == Lows(g, width) && high == Highs(g, width) && gaps == Gaps(g, width);
      kept := SortDedup(keep);
    }
  }

  lemma Snoc(g: seq<Sample>, s: Sample, c: nat)
    requires Wide(g, c) && c < |s.values|
    ensures Wide(g + [s], c)
    ensures Low(g + [s], c) == if Below(s, Low(g, c), c) then Some(s) else Low(g, c)
    ensures High(g + [s], c) == if Above(s, High(g, c), c) then Some(s) else High(g, c)
    ensures Gap(g + [s], c) == if Gap(g, c).None? && s.values[c].None? then Some(s) else Gap(g, c)
  {
    assert (g + [s])[..|g + [s]| - 1] == g;
  }

  // ----- what a bucket keeps ------------------------------------------------

  function Present(list: seq<Option<Sample>>): (r: seq<Sample>)
    ensures |r| <= |list|
    ensures forall s :: s in r <==> Some(s) in list
  {
    if list == [] then []
    else if list[0].Some? then [list[0].value] + Present(list[1..]) else Present(list[1..])
  }

  /** Put `s` into a list in row order unless its row is there already. */
  function Insert(s: Sample, list: seq<Sample>): (r: seq<Sample>)
    ensures |r| <= |list| + 1
  {
    if list == [] || s.row < list[0].row then [s] + list
    else if s.row == list[0].row then list
    else [list[0]] + Insert(s, list[1..])
  }

  /** Sort by row, then drop repeated rows. */
  function SortDedup(list: seq<Sample>): (r: seq<Sample>)
    ensures |r| <= |list|
  {
    if list == [] then [] else Insert(list[0], SortDedup(list[1..]))
  }

  ghost predicate Increasing(list: seq<Sample>) {
    forall j, k :: 0 <= j < k < |list| ==> list[j].row < list[k].row
  }

  /** Rows identify samples. */
  ghost predicate Coherent(list: seq<Sample>) {
    forall s, t :: s in list && t in list && s.row == t.row ==> s == t
  }

  lemma {:induction false} InsertSorts(s: Sample, list: seq<Sample>)
    requires Increasing(list)
    ensures Increasing(Insert(s, list))
    ensures Insert(s, list) != [] && Insert(s, list)[0].row == if list == [] || s.row < list[0].row then s.row else list[0].row
    decreases |list|
  {
    if list != [] && s.row > list[0].row {
      InsertSorts(s, list[1..]);
      var r := Insert(s, list[1..]);
      assert list[0].row < r[0].row by {
        assert |list| > 1 ==> list[0].row < list[1].row;
      }
      assert forall k :: 0 < k < |r| ==> r[0].row < r[k].row;
    }
  }

  lemma {:induction false} InsertAdds(s: Sample, list: seq<Sample>, t: Sample)
    requires forall u :: u in list && u.row == s.row ==> u == s
    ensures t in Insert(s, list) <==> t == s || t in list
    decreases |list|
  {
    if list == [] {
    } else {
      assert list == [list[0]] + list[1..];
      if s.row > list[0].row {
        InsertAdds(s, list[1..], t);
      }
    }
  }

  lemma {:induction false} SortDedupSorts(list: seq<Sample>)
    requires Coherent(list)
    ensures Increasing(SortDedup(list))
    ensures forall t :: t in SortDedup(list) <==> t in list
    decreases |list|
  {
    hide Insert;
    if list == [] {
    } else {
      assert list == [list[0]] + list[1..];
      assert list[0] in list && forall t :: t in list[1..] ==> t in list;
      SortDedupSorts(list[1..]);
      var sorted := SortDedup(list[1..]);
      InsertSorts(list[0], sorted);
      forall t ensures t in Insert(list[0], sorted) <==> t in list {
        InsertAdds(list[0], sorted, t);
      }
    }
  }

  ghost function Lows(g: seq<Sample>, width: nat): (r: seq<Option<Sample>>)
    requires forall c :: 1 <= c < width ==> Wide(g, c)
    ensures |r| == width
  {
    seq(width, c requires 0 <= c < width => if c == 0 then None else Low(g, c))
  }

  ghost function Highs(g: seq<Sample>, width: nat): (r: seq<Option<Sample>>)
    requires forall c :: 1 <= c < width ==> Wide(g, c)
    ensures |r| == width
  {
    seq(width, c requires 0 <= c < width => if c == 0 then None else High(g, c))
  }

  ghost function Gaps(g: seq<Sample>, width: nat): (r: seq<Option<Sample>>)
    requires forall c :: 1 <= c < width ==> Wide(g, c)
    ensures |r| == width
  {
    seq(width, c requires 0 <= c < width => if c == 0 then None else Gap(g, c))
  }

  /** The rows a bucket with contents `g` contributes to the view. */
  ghost function Keep(g: seq<Sample>, width: nat): seq<Sample>
    requires g != [] && Rows(g, width)
  {
    SortDedup([g[0], g[|g| - 1]] + Present(Lows(g, width)) + Present(Highs(g, width)) + Present(Gaps(g, width)))
  }

  ghost predicate HasAtMost(out: seq<Sample>, c: nat, v: real) {
    exists s :: s in out && c < |s.values| && s.values[c].Some? && s.values[c].value <= v
  }

  ghost predicate HasAtLeast(out: seq<Sample>, c: nat, v: real) {
    exists s :: s in out && c < |s.values| && s.values[c].Some? && s.values[c].value >= v
  }

  ghost predicate HasGap(out: seq<Sample>, c: nat) {
    exists s :: s in out && c < |s.values| && s.values[c].None?
  }

  /** `out` shows channel `c` of `g` faithfully: exact minimum and maximum, and a gap if there is one. */
  ghost predicate Shows(out: seq<Sample>, g: seq<Sample>, c: nat) {
    forall s :: s in g && c < |s.values| ==>
      if s.values[c].Some? then HasAtMost(out, c, s.values[c].value) && HasAtLeast(out, c, s.values[c].value)
      else HasGap(out, c)
  }

  lemma MarkersShow(out: seq<Sample>, g: seq<Sample>, c: nat)
    requires Wide(g, c)
    requires Low(g, c).Some? ==> Low(g, c).value in out
    requires High(g, c).Some? ==> High(g, c).value in out
    requires Gap(g, c).Some? ==> Gap(g, c).value in out
    ensures Shows(out, g, c)
  {
    hide Low, High, Gap;
    forall s | s in g && c < |s.values|
      ensures if s.values[c].Some? then HasAtMost(out, c, s.values[c].value) && HasAtLeast(out, c, s.values[c].value)
              else HasGap(out, c)
    {
      var k :| 0 <= k < |g| && g[k] == s;
      assert g[k].values[c] == s.values[c];
    }
  }

  lemma PresentTail(list: seq<Option<Sample>>)
    requires list != [] && list[0].None?
    ensures |Present(list)| <= |list| - 1
  {
  }

  lemma MarkersOf(g: seq<Sample>, width: nat) returns (marks: seq<Sample>)
    requires g != [] && Rows(g, width) && width > 0
    ensures Keep(g, width) == SortDedup(marks)
    ensures |marks| <= 2 + 3 * (width - 1)
    ensures forall s :: s in marks ==> s in g
    ensures g[0] in marks && g[|g| - 1] in marks
    ensures forall c :: 1 <= c < width ==> Shows(marks, g, c)
  {
    hide Low, High, Gap, Present, SortDedup, Shows;
    var lows, highs, gaps := Lows(g, width), Highs(g, width), Gaps(g, width);
    marks := [g[0], g[|g| - 1]] + Present(lows) + Present(highs) + Present(gaps);
    PresentTail(lows);
    PresentTail(highs);
    PresentTail(gaps);
    forall c | 1 <= c < width ensures Shows(marks, g, c) {
      assert lows[c] in lows && highs[c] in highs && gaps[c] in gaps;
      MarkersShow(marks, g, c);
    }
  }

  /** Showing depends only on which rows are in the list. */
  lemma ShowsMore(small: seq<Sample>, out: seq<Sample>, g: seq<Sample>, c: nat)
    requires Shows(small, g, c) && forall s :: s in small ==> s in out
    ensures Shows(out, g, c)
  {
    forall s | s in g && c < |s.values|
      ensures if s.values[c].Some? then HasAtMost(out, c, s.values[c].value) && HasAtLeast(out, c, s.values[c].value)
              else HasGap(out, c)
    {
      if s.values[c].Some? {
        var v := s.values[c].value;
        assert HasAtMost(small, c, v) && HasAtLeast(small, c, v);
      } else {
        assert HasGap(small, c);
      }
    }
  }

  lemma KeepWorks(g: seq<Sample>, width: nat)
    requires g != [] && Rows(g, width) && width > 0
    ensures Increasing(Keep(g, width)) && |Keep(g, width)| <= 2 + 3 * (width - 1)
    ensures forall s :: s in Keep(g, width) ==> s in g
    ensures g[0] in Keep(g, width) && g[|g| - 1] in Keep(g, width)
    ensures forall c :: 1 <= c < width ==> Shows(Keep(g, width), g, c)
  {
    hide Keep, SortDedup, Shows;
    var marks := MarkersOf(g, width);
    RowsCoherent(g, width, marks);
    SortDedupSorts(marks);
    forall c | 1 <= c < width ensures Shows(Keep(g, width), g, c) {
      ShowsMore(marks, Keep(g, width), g, c);
    }
  }

  lemma RowsCoherent(g: seq<Sample>, width: nat, list: seq<Sample>)
    requires Rows(g, width) && forall s :: s in list ==> s in g
    ensures Coherent(list)
  {
  }

  // ----- a whole view ---------------------------------------------------------

  function Flat(groups: seq<seq<Sample>>): seq<Sample> {
    if groups == [] then [] else Flat(groups[..|groups| - 1]) + groups[|groups| - 1]
  }

  /** Consecutive nonempty buckets of the rows of a log. */
  ghost predicate Buckets(groups: seq<seq<Sample>>, width: nat) {
    Rows(Flat(groups), width) && forall k :: 0 <= k < |groups| ==> groups[k] != []
  }

  ghost function Overview(groups: seq<seq<Sample>>, width: nat): seq<Sample>
    requires Buckets(groups, width)
  {
    if groups == [] then []
    else
      BucketsInit(groups, width);
      Overview(groups[..|groups| - 1], width) + Keep(groups[|groups| - 1], width)
  }

  lemma BucketsInit(groups: seq<seq<Sample>>, width: nat)
    requires Buckets(groups, width) && groups != []
    ensures var init, last := groups[..|groups| - 1], groups[|groups| - 1];
      && Buckets(init, width) && last != [] && Rows(last, width) && Flat(groups) == Flat(init) + last
      && forall s, t :: s in Flat(init) && t in last ==> s.row < t.row
  {
    var all, init, last := Flat(groups), Flat(groups[..|groups| - 1]), groups[|groups| - 1];
    assert forall k :: 0 <= k < |init| ==> init[k] == all[k];
    assert forall k :: 0 <= k < |last| ==> last[k] == all[|init| + k];
  }

  /** The rows of `g` in `out` include one without a value in channel `c` if `g` has one. */
  ghost predicate KeepsGap(out: seq<Sample>, g: seq<Sample>, c: nat) {
    forall s :: s in g && c < |s.values| && s.values[c].None? ==>
      exists t :: t in out && t in g && c < |t.values| && t.values[c].None?
  }

  /** `out` is an acceptable picture of `all` with at most `budget` rows. */
  ghost predicate Represents(out: seq<Sample>, all: seq<Sample>, width: nat, budget: nat) {
    && Increasing(out) && (forall s :: s in out ==> s in all)
    && (all != [] ==> all[0] in out && all[|all| - 1] in out)
    && (forall c :: 1 <= c < width ==> Shows(out, all, c))
    && |out| <= budget
  }

  lemma ShowsBoth(out: seq<Sample>, a: seq<Sample>, b: seq<Sample>, c: nat)
    requires Shows(out, a, c) && Shows(out, b, c)
    ensures Shows(out, a + b, c)
  {
  }

  /**
   The sampled view of any bucketing: real rows in row order, the first and last
   visible row, every channel's exact minimum and maximum, and at most
   2 + 3 * channels rows per bucket.
   */
  lemma {:induction false} OverviewRepresents(groups: seq<seq<Sample>>, width: nat)
    requires Buckets(groups, width) && width > 0
    ensures Represents(Overview(groups, width), Flat(groups), width, |groups| * (2 + 3 * (width - 1)))
    decreases |groups|
  {
    hide Keep, Shows;
    if groups == [] {
      forall c | 1 <= c < width ensures Shows([], [], c) {
        NothingShows(c);
      }
    } else {
      var init, last := groups[..|groups| - 1], groups[|groups| - 1];
      BucketsInit(groups, width);
      OverviewRepresents(init, width);
      KeepWorks(last, width);
      OneMore(|init|, 2 + 3 * (width - 1));
      JoinRepresents(Overview(init, width), Flat(init), Keep(last, width), last, width);
    }
  }

  lemma OneMore(n: nat, m: nat)
    ensures (n + 1) * m == n * m + m
  {
  }

  lemma NothingShows(c: nat)
    ensures Shows([], [], c)
  {
  }

  /** A missing cell survives in every bucket that had one. */
  lemma {:induction false} OverviewKeepsGaps(groups: seq<seq<Sample>>, width: nat, k: nat, c: nat)
    requires Buckets(groups, width) && k < |groups| && 1 <= c < width
    ensures KeepsGap(Overview(groups, width), groups[k], c)
    decreases |groups|
  {
    hide Keep, Shows;
    var init, last := groups[..|groups| - 1], groups[|groups| - 1];
    BucketsInit(groups, width);
    var a, b := Overview(init, width), Keep(last, width);
    if k < |init| {
      OverviewKeepsGaps(init, width, k, c);
      MoreKeepsGap(a, a + b, groups[k], c);
    } else {
      KeepWorks(last, width);
      OwnGap(b, last, c);
      MoreKeepsGap(b, a + b, last, c);
    }
  }

  lemma OwnGap(out: seq<Sample>, g: seq<Sample>, c: nat)
    requires Shows(out, g, c) && forall s :: s in out ==> s in g
    ensures KeepsGap(out, g, c)
  {
    forall s | s in g && c < |s.values| && s.values[c].None?
      ensures exists t :: t in out && t in g && c < |t.values| && t.values[c].None?
    {
      assert HasGap(out, c);
    }
  }

  lemma MoreKeepsGap(small: seq<Sample>, out: seq<Sample>, g: seq<Sample>, c: nat)
    requires KeepsGap(small, g, c) && forall s :: s in small ==> s in out
    ensures KeepsGap(out, g, c)
  {
  }

  lemma JoinRepresents(a: seq<Sample>, before: seq<Sample>, b: seq<Sample>, last: seq<Sample>, width: nat)
    requires Represents(a, before, width, |a|) && Represents(b, last, width, |b|) && last != []
    requires forall s, t :: s in before && t in last ==> s.row < t.row
    ensures Represents(a + b, before + last, width, |a| + |b|)
  {
    hide Shows;
    var out := a + b;
    assert forall k :: 0 <= k < |a| ==> out[k] in a;
    assert forall k :: |a| <= k < |out| ==> out[k] in b;
    forall j, k | 0 <= j < k < |out| ensures out[j].row < out[k].row {
      if j >= |a| {
        assert out[j] == b[j - |a|] && out[k] == b[k - |a|];
      } else if k >= |a| {
        assert out[j] in before && out[k] in last;
      }
    }
    forall c | 1 <= c < width ensures Shows(out, before + last, c) {
      ShowsMore(a, out, before, c);
      ShowsMore(b, out, last, c);
      ShowsBoth(out, before, last, c);
    }
    if before == [] {
      assert before + last == last;
    }
  }
}
