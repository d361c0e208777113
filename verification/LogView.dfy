/**
 The log viewer: a row-offset index built in one pass, a cache of at most four
 views, a disk copy of it, and the proof that every answer agrees with a plain
 scan of the file.
 */
module LogView {
  import opened Options
  import opened Downsample

  const FULL_DETAIL_ROWS: nat := 5000
  const CACHED_VIEWS: nat := 4

  // ----- the file ----------------------------------------------------------

  /** A line after its text has been read: blank or marker lines, or a row of cells. */
  datatype Kind = Skipped | Row(cells: seq<Option<real>>)

  /** `size` counts the bytes of the line with its line break. */
  datatype Line = Line(size: nat, kind: Kind)

  datatype File = File(labels: seq<string>, dataStart: nat, lines: seq<Line>)

  ghost predicate WellFormed(f: File) {
    && |f.labels| >= 2 && f.dataStart > 0
    && forall k :: 0 <= k < |f.lines| ==> f.lines[k].size > 0 && (f.lines[k].kind.Row? ==> f.lines[k].kind.cells != [])
  }

  function Offset(f: File, k: nat): (n: nat)
    requires k <= |f.lines|
  {
    if k == 0 then f.dataStart else Offset(f, k - 1) + f.lines[k - 1].size
  }

  /** A row whose time is a number. */
  predicate Timed(line: Line) {
    line.kind.Row? && line.kind.cells != [] && line.kind.cells[0].Some?
  }

  /** The numbers of the timed lines among the first `n`. */
  function TimedLines(f: File, n: nat): (r: seq<nat>)
    requires n <= |f.lines|
    ensures forall j :: 0 <= j < |r| ==> r[j] < n && Timed(f.lines[r[j]])
  {
    if n == 0 then [] else TimedLines(f, n - 1) + if Timed(f.lines[n - 1]) then [n - 1] else []
  }

  function RowCount(f: File, n: nat): nat
    requires n <= |f.lines|
  {
    if n == 0 then 0 else RowCount(f, n - 1) + if f.lines[n - 1].kind.Row? then 1 else 0
  }

  // ----- queries -------------------------------------------------------------

  datatype Request = Request(start: Option<real>, end: Option<real>, channels: Option<seq<string>>, points: Option<nat>)

  /** A request with its defaults filled in and its point budget clamped. */
  datatype Query = Query(start: Option<real>, end: Option<real>, channels: seq<string>, points: nat)

  function Clamp(points: nat): nat {
    if points < 100 then 100 else if points > 5000 then 5000 else points
  }

  function Normalize(r: Request): Query {
    Query(r.start, r.end,
          if r.channels.Some? then r.channels.value else ["RPM", "MAP", "AFR", "TPS", "CLT"],
          Clamp(if r.points.Some? then r.points.value else 1500))
  }

  predicate IsOverview(q: Query) { q.start.None? && q.end.None? }

  predicate InRange(q: Query, time: real) {
    && (q.start.Some? ==> time >= q.start.value)
    && (q.end.Some? ==> time <= q.end.value)
  }

  /** Column 0 and the requested columns, in file order. */
  function SelectedUpTo(labels: seq<string>, channels: seq<string>, n: nat): (r: seq<nat>)
    requires 1 <= n <= |labels|
    ensures r != [] && r[0] == 0 && forall k :: 0 <= k < |r| ==> r[k] < n
    ensures forall j, k :: 0 <= j < k < |r| ==> r[j] < r[k]
    ensures forall i :: 1 <= i < n ==> (i in r <==> labels[i] in channels)
  {
    if n == 1 then [0]
    else SelectedUpTo(labels, channels, n - 1) + if labels[n - 1] in channels then [n - 1] else []
  }

  function Selected(f: File, q: Query): (r: seq<nat>)
    requires |f.labels| >= 2
    ensures r != [] && r[0] == 0
    ensures forall j, k :: 0 <= j < k < |r| ==> r[j] < r[k]
  {
    SelectedUpTo(f.labels, q.channels, |f.labels|)
  }

  // ----- cells ----------------------------------------------------------------

  function CellAt(cells: seq<Option<real>>, i: nat): Option<real> {
    if i < |cells| then cells[i] else None
  }

  /** The selected cells of a row, the time first. */
  function Values(cells: seq<Option<real>>, selected: seq<nat>): (r: seq<Option<real>>)
    requires cells != [] && selected != [] && selected[0] == 0
    ensures |r| == |selected| && r[0] == cells[0]
    ensures forall k :: 0 <= k < |r| ==> r[k] == CellAt(cells, selected[k])
  {
    seq(|selected|, k requires 0 <= k < |selected| => CellAt(cells, selected[k]))
  }

  /**
   Walk the cells of a row once, skipping to each selected column relative to
   the one before; a short row simply yields nothing from its end on.
   */
  method ParseColumns(cells: seq<Option<real>>, selected: seq<nat>, time: real) returns (values: seq<Option<real>>)
    requires cells != [] && cells[0] == Some(time)
    requires selected != [] && selected[0] == 0 && forall j, k :: 0 <= j < k < |selected| ==> selected[j] < selected[k]
    ensures values == Values(cells, selected)
  {
    var position, previous := 1, 0;
    values := [Some(time)];
    for k := 1 to |selected|
      invariant |values| == k && forall j :: 0 <= j < k ==> values[j] == CellAt(cells, selected[j])
      invariant previous == selected[k - 1]
      invariant position <= |cells| && (position == previous + 1 || (position == |cells| && |cells| <= previous + 1))
    {
      var column := selected[k];
      var skip := column - previous - 1;
      var value := None;
      if position + skip < |cells| {
        value := cells[position + skip];
        position := position + skip + 1;
      } else {
        position := |cells|;
      }
      values := values + [value];
      previous := column;
    }
  }

  // ----- the plain scan -------------------------------------------------------

  /** Where a timed row starts in the file, and its time. */
  datatype Entry = Entry(offset: nat, time: real)

  function EntryAt(f: File, line: nat): Entry
    requires line < |f.lines| && Timed(f.lines[line])
  {
    Entry(Offset(f, line), f.lines[line].kind.cells[0].value)
  }

  /** The index of the first `n` lines. */
  function EntriesUpTo(f: File, n: nat): (r: seq<Entry>)
    requires n <= |f.lines|
    ensures |r| == |TimedLines(f, n)|
    ensures forall j :: 0 <= j < |r| ==> r[j] == EntryAt(f, TimedLines(f, n)[j])
  {
    if n == 0 then [] else EntriesUpTo(f, n - 1) + if Timed(f.lines[n - 1]) then [EntryAt(f, n - 1)] else []
  }

  function Entries(f: File): seq<Entry> {
    EntriesUpTo(f, |f.lines|)
  }

  function SampleAt(f: File, row: nat, line: nat, selected: seq<nat>): Sample
    requires line < |f.lines| && Timed(f.lines[line]) && selected != [] && selected[0] == 0
  {
    Sample(row, Values(f.lines[line].kind.cells, selected))
  }

  /** The numbers below `n` of the entries whose time is in range, in order. */
  function VisibleRows(entries: seq<Entry>, q: Query, n: nat): (r: seq<nat>)
    requires n <= |entries|
    ensures forall k :: 0 <= k < |r| ==> r[k] < n
    ensures forall j, k :: 0 <= j < k < |r| ==> r[j] < r[k]
    ensures forall j :: 0 <= j < n ==> (j in r <==> InRange(q, entries[j].time))
  {
    if n == 0 then []
    else VisibleRows(entries, q, n - 1) + if InRange(q, entries[n - 1].time) then [n - 1] else []
  }

  /** The samples of the given rows. */
  function SamplesOf(f: File, rows: seq<nat>, selected: seq<nat>): (r: seq<Sample>)
    requires selected != [] && selected[0] == 0
    requires forall k :: 0 <= k < |rows| ==> rows[k] < |TimedLines(f, |f.lines|)|
    ensures |r| == |rows|
    ensures forall k :: 0 <= k < |r| ==> r[k] == SampleAt(f, rows[k], TimedLines(f, |f.lines|)[rows[k]], selected)
    ensures (forall j, k :: 0 <= j < k < |rows| ==> rows[j] < rows[k]) ==> Rows(r, |selected|)
  {
    var timed := TimedLines(f, |f.lines|);
    seq(|rows|, k requires 0 <= k < |rows| => SampleAt(f, rows[k], timed[rows[k]], selected))
  }

  /** What a reader of the whole file would answer: every timed row in range, in file order. */
  function Scan(f: File, q: Query): (r: seq<Sample>)
    requires |f.labels| >= 2
    ensures Rows(r, |Selected(f, q)|)
  {
    SamplesOf(f, VisibleRows(Entries(f), q, |Entries(f)|), Selected(f, q))
  }

  // ----- views ------------------------------------------------------------------

  datatype View = View(columns: seq<seq<Option<real>>>, rows: nat, visibleRows: nat, sampled: bool, range: Option<(real, real)>)

  function Column(out: seq<Sample>, c: nat): seq<Option<real>>
    requires Wide(out, c)
  {
    seq(|out|, k requires 0 <= k < |out| => out[k].values[c])
  }

  function Columns(out: seq<Sample>, width: nat): seq<seq<Option<real>>>
    requires forall k :: 0 <= k < |out| ==> |out[k].values| == width
  {
    seq(width, c requires 0 <= c < width => Column(out, c))
  }

  /** Earliest and latest time of all timed rows. */
  function TimeRange(entries: seq<Entry>): Option<(real, real)> {
    if entries == [] then None
    else
      var t, before := entries[|entries| - 1].time, TimeRange(entries[..|entries| - 1]);
      match before
      case None => Some((t, t))
      case Some((a, b)) => Some((if t < a then t else a, if t > b then t else b))
  }

  /** How many buckets a point budget pays for. */
  function BucketCount(points: nat, width: nat): (n: nat)
    requires width > 0
    ensures n > 0
  {
    if points / (2 + 3 * (width - 1)) > 0 then points / (2 + 3 * (width - 1)) else 1
  }

  function Budget(points: nat, width: nat): nat
    requires width > 0
  {
    if points >= 2 + 3 * (width - 1) then points else 2 + 3 * (width - 1)
  }

  lemma BucketsFitBudget(points: nat, width: nat, count: nat)
    requires width > 0 && count <= BucketCount(points, width)
    ensures count * (2 + 3 * (width - 1)) <= Budget(points, width)
  {
    var m := 2 + 3 * (width - 1);
    assert points / m * m <= points;
    if count <= points / m {
      assert count * m <= points / m * m;
    }
  }

  /** `out` are the rows of the view `v`, a right answer to `q`. */
  ghost predicate Depicts(out: seq<Sample>, f: File, q: Query, v: View)
    requires |f.labels| >= 2
  {
    var width, all := |Selected(f, q)|, Scan(f, q);
    && (forall k :: 0 <= k < |out| ==> |out[k].values| == width)
    && v.columns == Columns(out, width)
    && v.rows == RowCount(f, |f.lines|) && v.visibleRows == |all| && v.sampled == (|all| > FULL_DETAIL_ROWS)
    && v.range == TimeRange(Entries(f))
    && Represents(out, all, width, if |all| <= FULL_DETAIL_ROWS then |all| else Budget(q.points, width))
    && (if |all| <= FULL_DETAIL_ROWS then out == all else Bucketed(out, all, width, BucketCount(q.points, width)))
  }

  /**
   A right answer: up to 5000 rows in range are returned exactly as a plain scan
   finds them; more are sampled within the point budget, extrema, end points and
   gaps preserved.
   */
  ghost predicate Faithful(f: File, q: Query, v: View)
    requires |f.labels| >= 2
  {
    exists out :: Depicts(out, f, q, v)
  }

  // ----- bucketing ------------------------------------------------------------

  /** `out` comes from at most `count` buckets over the rows `all`. */
  ghost predicate Sampled(out: seq<Sample>, groups: seq<seq<Sample>>, all: seq<Sample>, width: nat, count: nat) {
    Buckets(groups, width) && Flat(groups) == all && |groups| <= count && out == Overview(groups, width)
  }

  /** `out` is a sampling of `all`, so by `OverviewKeepsGaps` it keeps a missing cell wherever a bucket had one. */
  ghost predicate Bucketed(out: seq<Sample>, all: seq<Sample>, width: nat, count: nat) {
    exists groups :: Sampled(out, groups, all, width, count)
  }

  lemma SampledRepresents(out: seq<Sample>, groups: seq<seq<Sample>>, all: seq<Sample>, width: nat, points: nat)
    requires width > 0 && Sampled(out, groups, all, width, BucketCount(points, width))
    ensures Represents(out, all, width, Budget(points, width))
    ensures forall k, c :: 0 <= k < |groups| && 1 <= c < width ==> KeepsGap(out, groups[k], c)
  {
    hide Overview, Represents, Buckets;
    OverviewRepresents(groups, width);
    BucketsFitBudget(points, width, |groups|);
    SmallerBudget(out, all, width, |groups| * (2 + 3 * (width - 1)), Budget(points, width));
    forall k, c | 0 <= k < |groups| && 1 <= c < width ensures KeepsGap(out, groups[k], c) {
      OverviewKeepsGaps(groups, width, k, c);
    }
  }

  lemma SmallerBudget(out: seq<Sample>, all: seq<Sample>, width: nat, a: nat, b: nat)
    requires Represents(out, all, width, a) && a <= b
    ensures Represents(out, all, width, b)
  {
    hide Shows;
  }

  lemma SelfRepresents(all: seq<Sample>, width: nat)
    requires Rows(all, width)
    ensures Represents(all, all, width, |all|)
  {
    forall c | 1 <= c < width ensures Shows(all, all, c) {
    }
  }

  /** Another bucket at the end. */
  lemma OneMoreBucket(groups: seq<seq<Sample>>, g: seq<Sample>, width: nat)
    requires Buckets(groups, width) && g != [] && Rows(Flat(groups) + g, width)
    ensures Buckets(groups + [g], width) && Rows(g, width) && Flat(groups + [g]) == Flat(groups) + g
    ensures Overview(groups + [g], width) == Overview(groups, width) + Keep(g, width)
  {
    hide Keep;
    var more := groups + [g];
    assert more[..|more| - 1] == groups && more[|more| - 1] == g;
    assert Flat(more) == Flat(groups) + g;
    assert Buckets(more, width);
    BucketsInit(more, width);
  }

  /** Rows of a prefix. */
  lemma RowsPrefix(all: seq<Sample>, n: nat, width: nat)
    requires Rows(all, width) && n <= |all|
    ensures Rows(all[..n], width)
  {
  }

  /** A bucket of one row keeps exactly that row. */
  lemma KeepOne(s: Sample, width: nat)
    requires |s.values| == width && width > 0
    ensures Keep([s], width) == [s]
  {
    hide SortDedup;
    var marks := MarkersOf([s], width);
    assert s in marks && forall k :: 0 <= k < |marks| ==> marks[k] in [s];
    SortDedupSame(marks, s);
  }

  lemma {:induction false} SortDedupSame(list: seq<Sample>, s: Sample)
    requires list != [] && forall k :: 0 <= k < |list| ==> list[k] == s
    ensures SortDedup(list) == [s]
  {
    if |list| > 1 {
      SortDedupSame(list[1..], s);
    } else {
      assert list[1..] == [];
    }
  }

  /** With buckets of one row nothing is lost. */
  lemma {:induction false} SinglesKeepAll(groups: seq<seq<Sample>>, width: nat)
    requires Buckets(groups, width) && width > 0 && forall k :: 0 <= k < |groups| ==> |groups[k]| == 1
    ensures Overview(groups, width) == Flat(groups)
    decreases |groups|
  {
    hide Keep;
    if groups == [] {
    } else {
      var init, last := groups[..|groups| - 1], groups[|groups| - 1];
      BucketsInit(groups, width);
      SinglesKeepAll(init, width);
      assert last == [last[0]];
      KeepOne(last[0], width);
    }
  }

  // ----- the index and its caches -----------------------------------------------

  datatype Index = Index(size: nat, rows: nat, entries: seq<Entry>, views: seq<(Query, View)>)

  /** The index says what a scan of the file finds, and every cached view is a right answer. */
  ghost predicate IndexOk(f: File, i: Index)
    requires |f.labels| >= 2
  {
    && i.size == Offset(f, |f.lines|) && i.rows == RowCount(f, |f.lines|) && i.entries == Entries(f)
    && |i.views| <= CACHED_VIEWS
    && forall k :: 0 <= k < |i.views| ==> Faithful(f, i.views[k].0, i.views[k].1)
  }

  /** The part of the cache that goes to disk: views of the whole recording. */
  function Overviews(views: seq<(Query, View)>): (r: seq<(Query, View)>)
    ensures |r| <= |views|
    ensures forall v :: v in r <==> v in views && IsOverview(v.0)
  {
    if views == [] then []
    else Overviews(views[..|views| - 1]) + if IsOverview(views[|views| - 1].0) then [views[|views| - 1]] else []
  }

  /** The checks a restored index must pass. */
  predicate Acceptable(i: Index) {
    && |i.entries| <= i.rows
    && (forall k :: 0 <= k < |i.entries| ==> i.entries[k].offset < i.size)
    && (forall k {:trigger i.entries[k]} :: 0 <= k < |i.entries| - 1 ==> i.entries[k].offset < i.entries[k + 1].offset)
    && |i.views| <= CACHED_VIEWS
    && forall k :: 0 <= k < |i.views| ==> ViewAcceptable(i, i.views[k])
  }

  /** Position of the view to evict: the first zoom, or else the oldest view. */
  function Evict(views: seq<(Query, View)>, from: nat): (k: nat)
    requires from <= |views| && views != []
    ensures k < |views|
    ensures forall j :: from <= j < k ==> IsOverview(views[j].0)
    ensures IsOverview(views[k].0) ==> k == 0 && forall j :: from <= j < |views| ==> IsOverview(views[j].0)
    decreases |views| - from
  {
    if from == |views| then 0
    else if !IsOverview(views[from].0) then from
    else Evict(views, from + 1)
  }

  lemma {:induction false} OffsetsIncrease(f: File, j: nat, k: nat)
    requires WellFormed(f) && j < k <= |f.lines|
    ensures Offset(f, j) < Offset(f, k)
    decreases k
  {
    if j < k - 1 {
      OffsetsIncrease(f, j, k - 1);
    }
  }

  lemma {:induction false} TimedIncrease(f: File, n: nat)
    requires n <= |f.lines|
    ensures |TimedLines(f, n)| <= RowCount(f, n)
    ensures forall j, k :: 0 <= j < k < |TimedLines(f, n)| ==> TimedLines(f, n)[j] < TimedLines(f, n)[k]
  {
    if n == 0 {
    } else {
      TimedIncrease(f, n - 1);
    }
  }

  /** An unrestricted query sees every entry. */
  lemma {:induction false} AllVisible(entries: seq<Entry>, q: Query, n: nat)
    requires IsOverview(q) && n <= |entries|
    ensures |VisibleRows(entries, q, n)| == n
    ensures forall k :: 0 <= k < n ==> VisibleRows(entries, q, n)[k] == k
  {
    if n == 0 {
    } else {
      AllVisible(entries, q, n - 1);
    }
  }

  /** Whatever a sound index persists passes the checks when it is read back. */
  lemma PersistedIsAcceptable(f: File, i: Index)
    requires WellFormed(f) && IndexOk(f, i)
    ensures Acceptable(i.(views := Overviews(i.views)))
    ensures IndexOk(f, i.(views := Overviews(i.views)))
  {
    hide Offset, Faithful, Overviews;
    var r := i.(views := Overviews(i.views));
    TimedIncrease(f, |f.lines|);
    forall k | 0 <= k < |r.entries| ensures r.entries[k].offset < r.size {
      OffsetsIncrease(f, TimedLines(f, |f.lines|)[k], |f.lines|);
    }
    forall k {:trigger r.entries[k]} | 0 <= k < |r.entries| - 1 ensures r.entries[k].offset < r.entries[k + 1].offset {
      OffsetsIncrease(f, TimedLines(f, |f.lines|)[k], TimedLines(f, |f.lines|)[k + 1]);
    }
    forall k | 0 <= k < |r.views|
      ensures Faithful(f, r.views[k].0, r.views[k].1) && ViewAcceptable(r, r.views[k])
    {
      assert r.views[k] in i.views;
      OverviewAcceptable(f, r, r.views[k]);
    }
  }

  predicate ViewAcceptable(i: Index, v: (Query, View)) {
    && IsOverview(v.0)
    && v.1.rows == i.rows && v.1.visibleRows == |i.entries|
    && v.1.columns != []
    && forall c :: 0 <= c < |v.1.columns| ==> |v.1.columns[c]| == |v.1.columns[0]|
  }

  lemma OverviewAcceptable(f: File, i: Index, v: (Query, View))
    requires |f.labels| >= 2 && i.rows == RowCount(f, |f.lines|) && i.entries == Entries(f)
    requires Faithful(f, v.0, v.1) && IsOverview(v.0)
    ensures ViewAcceptable(i, v)
  {
    var out :| Depicts(out, f, v.0, v.1);
    AllVisible(Entries(f), v.0, |Entries(f)|);
  }

  // ----- building the index ------------------------------------------------------

  lemma PrefixOfScan(f: File, n: nat)
    requires n < |f.lines| && Timed(f.lines[n])
    ensures var before, timed := TimedLines(f, n), TimedLines(f, |f.lines|);
      && |before| < |timed| && timed[..|before|] == before && timed[|before|] == n
  {
    TimedPrefix(f, n + 1);
    assert TimedLines(f, n + 1) == TimedLines(f, n) + [n];
  }

  lemma {:induction false} TimedPrefix(f: File, n: nat)
    requires n <= |f.lines|
    ensures TimedLines(f, n) <= TimedLines(f, |f.lines|)
    decreases |f.lines| - n
  {
    if n < |f.lines| {
      TimedPrefix(f, n + 1);
    }
  }

  /** The rows of the unrestricted scan: all of them, numbered in order. */
  ghost function AllRows(f: File, selected: seq<nat>): (r: seq<Sample>)
    requires selected != [] && selected[0] == 0
    ensures |r| == |TimedLines(f, |f.lines|)|
    ensures forall k :: 0 <= k < |r| ==> r[k] == SampleAt(f, k, TimedLines(f, |f.lines|)[k], selected)
    ensures Rows(r, |selected|)
  {
    var timed := TimedLines(f, |f.lines|);
    seq(|timed|, k requires 0 <= k < |timed| => SampleAt(f, k, timed[k], selected))
  }

  lemma OverviewScansAll(f: File, q: Query)
    requires |f.labels| >= 2 && IsOverview(q)
    ensures Scan(f, q) == AllRows(f, Selected(f, q))
  {
    AllVisible(Entries(f), q, |Entries(f)|);
  }

  function CeilDiv(a: nat, b: nat): nat
    requires b > 0
  {
    (a + b - 1) / b
  }

  lemma CeilDivCovers(a: nat, b: nat)
    requires b > 0
    ensures a <= CeilDiv(a, b) * b
  {
    var n := a + b - 1;
    assert n == n / b * b + n % b;
  }

  /** The bucket of a byte offset, below the number of buckets. */
  lemma BucketIdBelow(distance: nat, total: nat, count: nat, bytes: nat)
    requires distance < total && count > 0 && bytes > 0 && bytes >= CeilDiv(total, count)
    ensures distance / bytes < count
  {
    CeilDivCovers(total, count);
    assert total <= count * bytes by {
      assert CeilDiv(total, count) * count <= bytes * count;
    }
    QuotientBelow(distance, bytes, count);
  }

  lemma QuotientBelow(x: nat, m: nat, c: nat)
    requires m > 0 && x < c * m
    ensures x / m < c
  {
    var q := x / m;
    assert q * m <= x;
    assert (c - q) * m == c * m - q * m;
    PositiveFactor(c - q, m);
  }

  lemma PositiveFactor(a: int, b: nat)
    requires b > 0 && a * b > 0
    ensures a > 0
  {
  }

  lemma DivMonotone(a: nat, b: nat, m: nat)
    requires a <= b && m > 0
    ensures a / m <= b / m
  {
    var q := b / m;
    assert b == q * m + b % m;
    assert (q + 1) * m == q * m + m;
    QuotientBelow(a, m, q + 1);
  }

  lemma {:induction false} OffsetFromStart(f: File, n: nat)
    requires n <= |f.lines|
    ensures Offset(f, n) >= f.dataStart
  {
    if n == 0 {
    } else {
      OffsetFromStart(f, n - 1);
    }
  }

  /** Bytes after the header. */
  function DataBytes(f: File): nat {
    OffsetFromStart(f, |f.lines|);
    Offset(f, |f.lines|) - f.dataStart
  }

  /** The byte-sized bucket an offset falls into. */
  function BucketOf(f: File, offset: nat, bucketBytes: nat): nat
    requires offset >= f.dataStart && bucketBytes > 0
  {
    (offset - f.dataStart) / bucketBytes
  }

  lemma BucketOfLine(f: File, i: nat, bucketBytes: nat, count: nat)
    requires WellFormed(f) && i < |f.lines| && bucketBytes > 0 && count > 0
    requires bucketBytes >= CeilDiv(DataBytes(f), count)
    ensures f.dataStart <= Offset(f, i) <= Offset(f, i + 1)
    ensures BucketOf(f, Offset(f, i), bucketBytes) < count
    ensures BucketOf(f, Offset(f, i), bucketBytes) <= BucketOf(f, Offset(f, i + 1), bucketBytes)
  {
    hide Offset, CeilDiv;
    OffsetsIncrease(f, i, |f.lines|);
    OffsetsIncrease(f, i, i + 1);
    OffsetFromStart(f, i);
    BucketIdBelow(Offset(f, i) - f.dataStart, DataBytes(f), count, bucketBytes);
    DivMonotone(Offset(f, i) - f.dataStart, Offset(f, i + 1) - f.dataStart, bucketBytes);
  }

  /** What the one-pass scan has accumulated after `n` lines. */
  ghost predicate ScanState(f: File, selected: seq<nat>, n: nat, entries: seq<Entry>, rows: nat, position: nat)
    requires n <= |f.lines|
  {
    entries == EntriesUpTo(f, n) && rows == RowCount(f, n) && position == Offset(f, n)
  }

  /**
   The overview half of the scan: finished buckets, the open bucket, and their
   contents `done` and `g`.
   */
  ghost predicate BucketState(bucket: Option<Bucket>, g: seq<Sample>, groups: seq<seq<Sample>>, out: seq<Sample>, all: seq<Sample>, n: nat, width: nat)
    requires width > 0 && n <= |all|
    reads if bucket.Some? then {bucket.value} else {}
  {
    && Buckets(groups, width) && out == Overview(groups, width)
    && Flat(groups) + g == all[..n]
    && (bucket.None? <==> g == [])
    && (bucket.Some? ==> bucket.value.Holds(g, width))
  }

  /** Close the open bucket. */
  method CloseBucket(bucket: Option<Bucket>, ghost g: seq<Sample>, ghost groups: seq<seq<Sample>>, out: seq<Sample>,
                     ghost all: seq<Sample>, ghost n: nat, ghost width: nat)
    returns (r: seq<Sample>, ghost more: seq<seq<Sample>>)
    requires width > 0 && n <= |all| && Rows(all, width) && BucketState(bucket, g, groups, out, all, n, width)
    ensures BucketState(None, [], more, r, all, n, width)
    ensures |more| <= |groups| + 1
  {
    hide Keep, Flat;
    RowsPrefix(all, n, width);
    if bucket.None? {
      assert Flat(groups) + [] == Flat(groups);
      return out, groups;
    }
    var kept := bucket.value.Finish(g, width);
    OneMoreBucket(groups, g, width);
    r, more := out + kept, groups + [g];
    assert Flat(more) + [] == Flat(more);
  }

  /** Put the next row into the open bucket, opening one if there is none. */
  method AddToBucket(bucket: Option<Bucket>, sample: Sample, ghost g: seq<Sample>, ghost groups: seq<seq<Sample>>,
                     ghost out: seq<Sample>, ghost all: seq<Sample>, ghost n: nat, ghost width: nat)
    returns (r: Bucket)
    requires width > 0 && n < |all| && Rows(all, width) && sample == all[n]
    requires BucketState(bucket, g, groups, out, all, n, width)
    modifies if bucket.Some? then {bucket.value} else {}
    ensures BucketState(Some(r), g + [sample], groups, out, all, n + 1, width)
    ensures bucket.Some? ==> r == bucket.value
    ensures bucket.None? ==> fresh(r)
  {
    hide Flat, Overview, Keep;
    assert all[..n + 1] == all[..n] + [sample];
    assert Flat(groups) + (g + [sample]) == (Flat(groups) + g) + [sample];
    if bucket.Some? {
      r := bucket.value;
      assert g[|g| - 1] == all[n - 1] by {
        assert (Flat(groups) + g)[n - 1] == all[..n][n - 1];
      }
      r.Add(sample, g);
    } else {
      assert g + [sample] == [sample];
      r := new Bucket(sample);
    }
  }

  /** A row with bucket number `id` closes the open bucket if that has another number. */
  method Distribute(bucket: Option<Bucket>, bucketId: nat, id: nat, sample: Sample, ghost g: seq<Sample>,
                    ghost groups: seq<seq<Sample>>, out: seq<Sample>, ghost all: seq<Sample>, ghost n: nat, ghost width: nat)
    returns (open: Option<Bucket>, ghost h: seq<Sample>, ghost more: seq<seq<Sample>>, r: seq<Sample>)
    requires width > 0 && n < |all| && Rows(all, width) && sample == all[n]
    requires BucketState(bucket, g, groups, out, all, n, width)
    requires bucketId <= id && |groups| <= bucketId
    modifies if bucket.Some? then {bucket.value} else {}
    ensures BucketState(open, h, more, r, all, n + 1, width)
    ensures open.Some? && (open == bucket || fresh(open.value)) && |more| <= id
  {
    hide BucketState;
    var current := bucket;
    h, more, r := g, groups, out;
    if id != bucketId {
      r, more := CloseBucket(bucket, g, groups, out, all, n, width);
      current, h := None, [];
    }
    var b := AddToBucket(current, sample, h, more, r, all, n, width);
    open, h := Some(b), h + [sample];
  }

  /** The next timed row, seen as a sample of the unrestricted scan. */
  lemma RowOfScan(f: File, selected: seq<nat>, i: nat)
    requires WellFormed(f) && i < |f.lines| && Timed(f.lines[i]) && selected != [] && selected[0] == 0
    ensures var n := |TimedLines(f, i)|;
      n < |AllRows(f, selected)| && AllRows(f, selected)[n] == Sample(n, Values(f.lines[i].kind.cells, selected))
  {
    hide Values;
    PrefixOfScan(f, i);
  }

  /** While there are few rows, all of them are kept. */
  ghost predicate FullState(full: seq<Sample>, all: seq<Sample>, n: nat) {
    n <= |all| && (n <= FULL_DETAIL_ROWS ==> full == all[..n])
  }

  lemma FullStep(full: seq<Sample>, all: seq<Sample>, n: nat)
    requires n < |all| && FullState(full, all, n)
    ensures FullState(if n + 1 <= FULL_DETAIL_ROWS then full + [all[n]] else if n + 1 == FULL_DETAIL_ROWS + 1 then [] else full, all, n + 1)
  {
  }

  lemma FullDone(full: seq<Sample>, all: seq<Sample>)
    requires FullState(full, all, |all|) && |all| <= FULL_DETAIL_ROWS
    ensures full == all
  {
  }

  lemma FullStart(all: seq<Sample>)
    ensures FullState([], all, 0)
  {
  }

  /** Scan the rows of the file once: index, counters, full rows while there are few, and buckets. */
  method ScanFile(f: File, q: Query, selected: seq<nat>, bucketBytes: nat)
    returns (entries: seq<Entry>, rows: nat, full: seq<Sample>, out: seq<Sample>, ghost groups: seq<seq<Sample>>)
    requires WellFormed(f) && selected == Selected(f, q)
    requires bucketBytes > 0 && bucketBytes >= CeilDiv(DataBytes(f), BucketCount(q.points, |selected|))
    ensures entries == Entries(f) && rows == RowCount(f, |f.lines|)
    ensures |entries| <= FULL_DETAIL_ROWS ==> full == AllRows(f, selected)
    ensures Sampled(out, groups, AllRows(f, selected), |selected|, BucketCount(q.points, |selected|))
  {
    hide Flat, Overview, Buckets, Values, Keep, Offset, RowCount, TimedLines, EntriesUpTo, CeilDiv, BucketCount, BucketOf, BucketState, FullState, ScanState, AllRows;
    ghost var all, width, count := AllRows(f, selected), |selected|, BucketCount(q.points, |selected|);
    entries, rows, full, out, groups := [], 0, [], [], [];
    var position: nat, bucketId: nat := f.dataStart, 0;
    var bucket: Option<Bucket> := None;
    ghost var g: seq<Sample> := [];
    StartBuckets(all, width);
    StartScan(f, selected);
    FullStart(all);
    for i := 0 to |f.lines|
      invariant ScanState(f, selected, i, entries, rows, position) && |entries| <= |all|
      invariant FullState(full, all, |entries|)
      invariant BucketState(bucket, g, groups, out, all, |entries|, width)
      invariant bucket.Some? ==> fresh(bucket.value)
      invariant |groups| <= bucketId && (bucket.Some? ==> bucketId < count)
      invariant bucketId == 0 || bucketId < count
      invariant f.dataStart <= position
      invariant bucketId <= BucketOf(f, position, bucketBytes)
    {
      var line, offset := f.lines[i], position;
      ghost var n := |entries|;
      position := position + line.size;
      ScanStep(f, selected, i, entries, rows, offset);
      BucketOfLine(f, i, bucketBytes, count);
      if line.kind.Row? {
        rows := rows + 1;
        if line.kind.cells[0].Some? {
          var t := line.kind.cells[0].value;
          RowOfScan(f, selected, i);
          FullStep(full, all, n);
          var values := ParseColumns(line.kind.cells, selected, t);
          var sample := Sample(|entries|, values);
          entries := entries + [Entry(offset, t)];
          if |entries| <= FULL_DETAIL_ROWS {
            full := full + [sample];
          } else if |entries| == FULL_DETAIL_ROWS + 1 {
            full := [];
          }
          var id := BucketOf(f, offset, bucketBytes);
          bucket, g, groups, out := Distribute(bucket, bucketId, id, sample, g, groups, out, all, n, width);
          bucketId := id;
        }
      }
    }
    ScanDone(f, selected, entries, rows, position);
    out, groups := CloseBucket(bucket, g, groups, out, all, |entries|, width);
    if |entries| <= FULL_DETAIL_ROWS {
      FullDone(full, all);
    }
    AllBucketed(groups, out, all, width, count);
  }

  lemma ScanDone(f: File, selected: seq<nat>, entries: seq<Entry>, rows: nat, position: nat)
    requires ScanState(f, selected, |f.lines|, entries, rows, position)
    ensures entries == Entries(f) && rows == RowCount(f, |f.lines|) && |entries| == |TimedLines(f, |f.lines|)|
  {
  }

  lemma AllBucketed(groups: seq<seq<Sample>>, out: seq<Sample>, all: seq<Sample>, width: nat, count: nat)
    requires width > 0 && BucketState(None, [], groups, out, all, |all|, width) && |groups| <= count
    ensures Sampled(out, groups, all, width, count)
  {
    assert Flat(groups) + [] == Flat(groups) && all[..|all|] == all;
  }

  lemma ScanStep(f: File, selected: seq<nat>, n: nat, entries: seq<Entry>, rows: nat, position: nat)
    requires n < |f.lines| && ScanState(f, selected, n, entries, rows, position)
    ensures var line := f.lines[n];
      ScanState(f, selected, n + 1,
                if Timed(line) then entries + [Entry(position, line.kind.cells[0].value)] else entries,
                if line.kind.Row? then rows + 1 else rows, position + line.size)
    ensures position == Offset(f, n) && position + f.lines[n].size == Offset(f, n + 1)
    ensures |entries| == |TimedLines(f, n)|
  {
    if Timed(f.lines[n]) {
      assert EntryAt(f, n) == Entry(position, f.lines[n].kind.cells[0].value);
    } else {
      assert entries + [] == entries;
    }
  }

  lemma StartScan(f: File, selected: seq<nat>)
    ensures ScanState(f, selected, 0, [], 0, f.dataStart) && f.dataStart == Offset(f, 0)
  {
  }

  lemma StartBuckets(all: seq<Sample>, width: nat)
    requires width > 0
    ensures BucketState(None, [], [], [], all, 0, width)
  {
  }

  // ----- reading back through the index -------------------------------------------

  /** The buffered reader: the line it is about to read, and the byte position it has reached. */
  class Reader {
    const f: File
    var next: nat

    constructor (f: File)
      ensures this.f == f && next == 0
    {
      this.f, this.next := f, 0;
    }

    /** Move to the line that starts at `offset`. */
    method Seek(offset: nat, ghost line: nat)
      requires WellFormed(f) && line < |f.lines| && Offset(f, line) == offset
      modifies this
      ensures next == line
    {
      next := 0;
      var position := f.dataStart;
      while position != offset
        invariant next <= line && position == Offset(f, next)
        decreases line - next
      {
        assert next < line;
        position := position + f.lines[next].size;
        next := next + 1;
      }
      if next < line {
        OffsetsIncrease(f, next, line);
      }
    }
  }

  /** Read the row of one entry, seeking only when the reader is not there already. */
  method ReadEntry(reader: Reader, position: nat, row: nat, entry: Entry, selected: seq<nat>, ghost line: nat)
    returns (sample: Sample, reached: nat)
    requires WellFormed(reader.f) && line < |reader.f.lines| && Timed(reader.f.lines[line])
    requires entry == EntryAt(reader.f, line)
    requires selected != [] && selected[0] == 0 && forall j, k :: 0 <= j < k < |selected| ==> selected[j] < selected[k]
    requires position != 0 ==> reader.next <= |reader.f.lines| && position == Offset(reader.f, reader.next)
    modifies reader
    ensures sample == SampleAt(reader.f, row, line, selected)
    ensures reader.next <= |reader.f.lines| && reached == Offset(reader.f, reader.next)
  {
    hide Values;
    OffsetFromStart(reader.f, line);
    if position != entry.offset {
      reader.Seek(entry.offset, line);
    } else {
      OffsetsDiffer(reader.f, reader.next, line);
    }
    var text := reader.f.lines[reader.next];
    reader.next := reader.next + 1;
    reached := entry.offset + text.size;
    var values := ParseColumns(text.kind.cells, selected, entry.time);
    sample := Sample(row, values);
  }

  lemma OffsetsDiffer(f: File, j: nat, k: nat)
    requires WellFormed(f) && j <= |f.lines| && k <= |f.lines| && Offset(f, j) == Offset(f, k)
    ensures j == k
  {
    if j < k {
      OffsetsIncrease(f, j, k);
    } else if k < j {
      OffsetsIncrease(f, k, j);
    }
  }

  /** The index entries in range, with their row numbers. */
  method Filter(entries: seq<Entry>, q: Query) returns (r: seq<(nat, Entry)>)
    ensures |r| == |VisibleRows(entries, q, |entries|)|
    ensures forall k :: 0 <= k < |r| ==> r[k].0 == VisibleRows(entries, q, |entries|)[k] && r[k].1 == entries[r[k].0]
  {
    hide InRange;
    r := [];
    for i := 0 to |entries|
      invariant |r| == |VisibleRows(entries, q, i)|
      invariant forall k :: 0 <= k < |r| ==> r[k].0 == VisibleRows(entries, q, i)[k] && r[k].1 == entries[r[k].0]
    {
      if InRange(q, entries[i].time) {
        r := r + [(i, entries[i])];
      }
    }
  }

  /** The entries in range stand for the rows of the plain scan. */
  ghost predicate StandFor(f: File, visible: seq<(nat, Entry)>, selected: seq<nat>, all: seq<Sample>) {
    && |visible| == |all| && selected != [] && selected[0] == 0
    && forall k :: 0 <= k < |all| ==>
      && visible[k].0 < |TimedLines(f, |f.lines|)|
      && var line := TimedLines(f, |f.lines|)[visible[k].0];
      && visible[k].1 == EntryAt(f, line) && all[k] == SampleAt(f, visible[k].0, line, selected)
  }

  /** Read one group of entries into a bucket. */
  method ReadGroup(reader: Reader, position: nat, group: seq<(nat, Entry)>, selected: seq<nat>, ghost all: seq<Sample>)
    returns (kept: seq<Sample>, reached: nat)
    requires WellFormed(reader.f) && group != [] && StandFor(reader.f, group, selected, all) && Rows(all, |selected|)
    requires forall j, k :: 0 <= j < k < |selected| ==> selected[j] < selected[k]
    requires position != 0 ==> reader.next <= |reader.f.lines| && position == Offset(reader.f, reader.next)
    modifies reader
    ensures kept == Keep(all, |selected|)
    ensures reader.next <= |reader.f.lines| && reached == Offset(reader.f, reader.next)
  {
    hide Values, Keep, Offset, TimedLines, SampleAt, EntryAt, StandFor, Timed;
    var sample;
    ghost var line := LineOf(reader.f, group, selected, all, 0);
    sample, reached := ReadEntry(reader, position, group[0].0, group[0].1, selected, line);
    WidthOf(reader.f, group[0].0, line, selected);
    var bucket := new Bucket(sample);
    assert all[..1] == [sample];
    for k := 1 to |group|
      invariant |group| == |all|
      invariant bucket.Holds(all[..k], |selected|) && fresh(bucket)
      invariant reader.next <= |reader.f.lines| && reached == Offset(reader.f, reader.next)
    {
      line := LineOf(reader.f, group, selected, all, k);
      sample, reached := ReadEntry(reader, reached, group[k].0, group[k].1, selected, line);
      WidthOf(reader.f, group[k].0, line, selected);
      assert all[..k + 1] == all[..k] + [sample];
      assert bucket.last == all[k - 1] && all[k - 1].row < all[k].row;
      bucket.Add(sample, all[..k]);
    }
    assert all[..|group|] == all;
    kept := bucket.Finish(all, |selected|);
  }

  lemma WidthOf(f: File, row: nat, line: nat, selected: seq<nat>)
    requires line < |f.lines| && Timed(f.lines[line]) && selected != [] && selected[0] == 0
    ensures |SampleAt(f, row, line, selected).values| == |selected|
  {
  }

  lemma LineOf(f: File, visible: seq<(nat, Entry)>, selected: seq<nat>, all: seq<Sample>, k: nat) returns (line: nat)
    requires StandFor(f, visible, selected, all) && k < |visible|
    ensures |visible| == |all| && selected != [] && selected[0] == 0
    ensures line < |f.lines| && Timed(f.lines[line]) && visible[k].1 == EntryAt(f, line)
    ensures all[k] == SampleAt(f, visible[k].0, line, selected)
  {
    line := TimedLines(f, |f.lines|)[visible[k].0];
  }

  /** Read all entries in range, group by group of at most `size`, and keep what the buckets keep. */
  method ReadVisible(f: File, visible: seq<(nat, Entry)>, size: nat, selected: seq<nat>, ghost all: seq<Sample>)
    returns (out: seq<Sample>, ghost groups: seq<seq<Sample>>)
    requires WellFormed(f) && size > 0 && StandFor(f, visible, selected, all) && Rows(all, |selected|)
    requires forall j, k :: 0 <= j < k < |selected| ==> selected[j] < selected[k]
    ensures Buckets(groups, |selected|) && Flat(groups) == all && out == Overview(groups, |selected|)
    ensures groups != [] ==> (|groups| - 1) * size < |all|
    ensures size == 1 ==> forall k :: 0 <= k < |groups| ==> |groups[k]| == 1
  {
    hide Values, Keep, Offset, Flat, Overview, Buckets, StandFor, Rows;
    var reader := new Reader(f);
    var position: nat, i: nat := 0, 0;
    out, groups := [], [];
    NoBuckets(all, |selected|);
    StandForLength(f, visible, selected, all);
    while i < |visible|
      invariant i <= |visible| && reader.f == f && fresh(reader)
      invariant position != 0 ==> reader.next <= |f.lines| && position == Offset(f, reader.next)
      invariant Buckets(groups, |selected|) && Flat(groups) == all[..i] && out == Overview(groups, |selected|)
      invariant groups != [] ==> (|groups| - 1) * size < i
      invariant i == |visible| || i == |groups| * size
      invariant size == 1 ==> forall k :: 0 <= k < |groups| ==> |groups[k]| == 1
      decreases |visible| - i
    {
      var n := if size <= |visible| - i then size else |visible| - i;
      StandForSlice(f, visible, selected, all, i, i + n);
      var kept;
      kept, position := ReadGroup(reader, position, visible[i..i + n], selected, all[i..i + n]);
      assert all[..i] + all[i..i + n] == all[..i + n];
      RowsPrefix(all, i + n, |selected|);
      OneMoreBucket(groups, all[i..i + n], |selected|);
      OneMore(|groups|, size);
      out, groups := out + kept, groups + [all[i..i + n]];
      i := i + n;
    }
    assert all[..i] == all;
  }

  lemma NoBuckets(all: seq<Sample>, width: nat)
    ensures Buckets([], width) && Flat([]) == [] == all[..0] && Overview([], width) == []
  {
  }

  lemma StandForLength(f: File, visible: seq<(nat, Entry)>, selected: seq<nat>, all: seq<Sample>)
    requires StandFor(f, visible, selected, all)
    ensures |visible| == |all| && selected != [] && selected[0] == 0
  {
  }

  lemma StandForSlice(f: File, visible: seq<(nat, Entry)>, selected: seq<nat>, all: seq<Sample>, i: nat, j: nat)
    requires i <= j <= |visible| && StandFor(f, visible, selected, all) && Rows(all, |selected|)
    ensures |visible| == |all| && StandFor(f, visible[i..j], selected, all[i..j]) && Rows(all[i..j], |selected|)
  {
    hide SampleAt, EntryAt, TimedLines, Timed;
  }

  /** Buckets of the budgeted size are no more than the budget pays for. */
  lemma FewGroups(groups: nat, size: nat, total: nat, count: nat)
    requires count > 0 && size > 0 && size == CeilDiv(total, count)
    requires groups > 0 ==> (groups - 1) * size < total
    ensures groups <= count
  {
    if groups > 0 {
      CeilDivCovers(total, count);
      assert CeilDiv(total, count) * count == count * size;
      assert (count - (groups - 1)) * size == count * size - (groups - 1) * size;
      PositiveFactor(count - (groups - 1), size);
    }
  }

  /** Assemble the response. */
  function MakeView(out: seq<Sample>, width: nat, rows: nat, entries: seq<Entry>, visible: nat): View
    requires forall k :: 0 <= k < |out| ==> |out[k].values| == width
  {
    View(Columns(out, width), rows, visible, visible > FULL_DETAIL_ROWS, TimeRange(entries))
  }

  lemma ViewIsFaithful(f: File, q: Query, out: seq<Sample>)
    requires |f.labels| >= 2
    requires var width, all := |Selected(f, q)|, Scan(f, q);
      if |all| <= FULL_DETAIL_ROWS then out == all else Bucketed(out, all, width, BucketCount(q.points, width))
    ensures forall k :: 0 <= k < |out| ==> |out[k].values| == |Selected(f, q)|
    ensures Faithful(f, q, MakeView(out, |Selected(f, q)|, RowCount(f, |f.lines|), Entries(f), |Scan(f, q)|))
  {
    hide Represents, TimeRange, RowCount, Budget, Bucketed, BucketCount, Scan, Selected, Columns, Entries;
    var width, all := |Selected(f, q)|, Scan(f, q);
    AnswerRepresents(all, out, width, q.points);
    forall k | 0 <= k < |out| ensures |out[k].values| == width {
      assert out[k] in all;
    }
    var v := MakeView(out, width, RowCount(f, |f.lines|), Entries(f), |all|);
    assert Depicts(out, f, q, v);
  }

  lemma AnswerRepresents(all: seq<Sample>, out: seq<Sample>, width: nat, points: nat)
    requires width > 0 && Rows(all, width)
    requires if |all| <= FULL_DETAIL_ROWS then out == all else Bucketed(out, all, width, BucketCount(points, width))
    ensures Represents(out, all, width, if |all| <= FULL_DETAIL_ROWS then |all| else Budget(points, width))
    ensures forall s :: s in out ==> s in all
  {
    hide Shows, Budget, Sampled, BucketCount;
    if |all| <= FULL_DETAIL_ROWS {
      SelfRepresents(all, width);
    } else {
      var groups :| Sampled(out, groups, all, width, BucketCount(points, width));
      SampledRepresents(out, groups, all, width, points);
    }
  }

  /** The cached views after `v` was given for `q`: as they were on a hit, else with `v` added in the place of the evicted one. */
  function NextViews(views: seq<(Query, View)>, q: Query, v: View): seq<(Query, View)> {
    if exists k :: 0 <= k < |views| && views[k].0 == q then views
    else if |views| == CACHED_VIEWS then views[..Evict(views, 0)] + views[Evict(views, 0) + 1..] + [(q, v)]
    else views + [(q, v)]
  }

  // ----- the viewer ------------------------------------------------------------------

  /** One unchanged recording, with its memory and disk caches. */
  class Viewer {
    const f: File
    /** Whether the file system reports modification times; without them nothing cached is trusted. */
    const timestamps: bool
    var cache: Option<Index>
    var disk: Option<Index>
    // The fate of successive attempts to write the disk cache.
    var diskWrites: seq<bool>

    ghost predicate Valid()
      reads this
    {
      && WellFormed(f)
      && (cache.Some? ==> IndexOk(f, cache.value))
      && (disk.Some? ==> IndexOk(f, disk.value) && Acceptable(disk.value))
    }

    constructor (f: File, timestamps: bool, diskWrites: seq<bool>)
      requires WellFormed(f)
      ensures Valid() && this.f == f && cache == None && disk == None
    {
      this.f, this.timestamps, this.diskWrites, this.cache, this.disk := f, timestamps, diskWrites, None, None;
    }

    /** The memory cache goes away: a restart, or another recording was viewed. */
    method Forget()
      requires Valid()
      modifies this`cache
      ensures Valid() && cache == None
    {
      cache := None;
    }

    /** Save the index with its overview views, if the disk lets us. */
    method Persist(i: Index)
      requires Valid() && IndexOk(f, i)
      modifies this`disk, this`diskWrites
      ensures Valid()
      ensures disk == if timestamps && (old(diskWrites) == [] || old(diskWrites)[0])
        then Some(i.(views := Overviews(i.views))) else old(disk)
    {
      hide IndexOk, Acceptable, Overviews;
      var works := true;
      if diskWrites != [] {
        works, diskWrites := diskWrites[0], diskWrites[1..];
      }
      if timestamps && works {
        PersistedIsAcceptable(f, i);
        disk := Some(i.(views := Overviews(i.views)));
      }
    }

    /** One pass over the file: the index and the overview for this query's channels. */
    method Build(q: Query) returns (i: Index)
      requires Valid()
      modifies this`disk, this`diskWrites
      ensures Valid() && IndexOk(f, i)
    {
      hide Acceptable, Offset, RowCount, Scan, Faithful, Represents, AllRows, Sampled, TimeRange, CeilDiv, BucketCount, Columns;
      var selected := Selected(f, q);
      var count := BucketCount(q.points, |selected|);
      var bytes := CeilDiv(DataBytes(f), count);
      if bytes == 0 {
        bytes := 1;
      }
      var entries, rows, full, overview;
      ghost var groups;
      entries, rows, full, overview, groups := ScanFile(f, q, selected, bytes);
      var plain := q.(start := None, end := None);
      OverviewScansAll(f, plain);
      var out := if |entries| <= FULL_DETAIL_ROWS then full else overview;
      assert |Scan(f, plain)| == |entries|;
      ViewIsFaithful(f, plain, out);
      var view := MakeView(out, |selected|, rows, entries, |entries|);
      i := Index(Offset(f, |f.lines|), rows, entries, [(plain, view)]);
      Persist(i);
    }

    /** The index for the recording: from memory, from disk, or built. */
    method Obtain(q: Query)
      requires Valid()
      modifies this
      ensures Valid() && cache.Some?
      ensures old(cache).Some? && timestamps ==> cache == old(cache) && disk == old(disk)
      ensures old(cache).None? && timestamps && old(disk).Some? && Acceptable(old(disk).value) ==>
        cache == old(disk) && disk == old(disk)
    {
      hide IndexOk, Acceptable;
      if cache.None? || !timestamps {
        if disk.Some? && timestamps && Acceptable(disk.value) {
          cache := disk;
        } else {
          var i := Build(q);
          cache := Some(i);
        }
      }
    }

    /**
     Answer a request. Whatever was cached, evicted, forgotten, persisted or
     restored before, the answer is right, and at most four views are cached.
     */
    method Load(r: Request) returns (v: View)
      requires Valid()
      modifies this
      ensures Valid() && Faithful(f, Normalize(r), v)
      ensures cache.Some? && |cache.value.views| <= CACHED_VIEWS
      ensures (Normalize(r), v) in cache.value.views
      ensures old(cache).Some? && timestamps ==>
        cache.value.views == NextViews(old(cache).value.views, Normalize(r), v)
    {
      hide Acceptable, Faithful, Entries, Offset, RowCount;
      var q := Normalize(r);
      Obtain(q);
      var i := cache.value;
      for k := 0 to |i.views|
        invariant forall j :: 0 <= j < k ==> i.views[j].0 != q
      {
        if i.views[k].0 == q {
          return i.views[k].1;
        }
      }
      v := Compute(i, q);
      var views := i.views;
      if |views| == CACHED_VIEWS {
        var evict := Evict(views, 0);
        views := views[..evict] + views[evict + 1..];
      }
      i := i.(views := views + [(q, v)]);
      cache := Some(i);
      if IsOverview(q) {
        Persist(i);
      }
    }

    /** Compute a view that is not cached from the index and the file. */
    method Compute(i: Index, q: Query) returns (v: View)
      requires Valid() && IndexOk(f, i)
      ensures Faithful(f, q, v)
    {
      hide Acceptable, Faithful, Offset, RowCount, Represents, TimeRange, CeilDiv, BucketCount, Columns;
      var selected := Selected(f, q);
      var visible := Filter(i.entries, q);
      ghost var all := Scan(f, q);
      FilterStandsFor(f, q, visible);
      var count := BucketCount(q.points, |selected|);
      var size := if |visible| > FULL_DETAIL_ROWS then CeilDiv(|visible|, count) else 1;
      var out;
      ghost var groups;
      BucketSizePositive(|visible|, count);
      out, groups := ReadVisible(f, visible, size, selected, all);
      if |visible| > FULL_DETAIL_ROWS {
        FewGroups(|groups|, size, |visible|, count);
        assert Sampled(out, groups, all, |selected|, count);
      } else {
        SinglesKeepAll(groups, |selected|);
      }
      ViewIsFaithful(f, q, out);
      v := MakeView(out, |selected|, i.rows, i.entries, |visible|);
    }
  }

  lemma BucketSizePositive(total: nat, count: nat)
    requires count > 0
    ensures total > 0 ==> CeilDiv(total, count) > 0
  {
    CeilDivCovers(total, count);
  }

  lemma FilterStandsFor(f: File, q: Query, visible: seq<(nat, Entry)>)
    requires |f.labels| >= 2
    requires |visible| == |VisibleRows(Entries(f), q, |Entries(f)|)|
    requires forall k :: 0 <= k < |visible| ==>
      visible[k].0 == VisibleRows(Entries(f), q, |Entries(f)|)[k] && visible[k].1 == Entries(f)[visible[k].0]
    ensures StandFor(f, visible, Selected(f, q), Scan(f, q)) && |visible| == |Scan(f, q)|
  {
  }
}
