/**
 Which bytes a flush sends: the spans where the wanted page differs from the
 shadow of the ECU, coalesced over short gaps and cut into wire-sized chunks.
 */
module DirtySpans {
  import opened Bytes

  /** The bytes from `start` up to, not including, `end`. */
  datatype Span = Span(start: nat, end: nat)

  /** Bytes to store at an offset of a page. */
  datatype Chunk = Chunk(off: nat, bytes: Blob)

  /** How far two images can be compared. */
  function Common(data: Blob, ecu: Blob): (n: nat)
    ensures n <= |data| && n <= |ecu|
  {
    if |data| <= |ecu| then |data| else |ecu|
  }

  /** Take differing byte `i` into account: it extends the last span or opens a new one. */
  function Extend(spans: seq<Span>, i: nat, gap: nat): seq<Span> {
    var k := |spans| - 1;
    if k >= 0 && i - spans[k].end <= gap
    then spans[k := Span(spans[k].start, i + 1)]
    else spans + [Span(i, i + 1)]
  }

  /** The spans of the first `n` bytes. */
  function Coalesce(data: Blob, ecu: Blob, gap: nat, n: nat): (spans: seq<Span>)
    requires n <= |data| && n <= |ecu|
    ensures forall k :: 0 <= k < |spans| ==> spans[k].start < spans[k].end <= n
  {
    if n == 0 then []
    else
      var before := Coalesce(data, ecu, gap, n - 1);
      if data[n - 1] == ecu[n - 1] then before else Extend(before, n - 1, gap)
  }

  function Spans(data: Blob, ecu: Blob, gap: nat): (spans: seq<Span>)
    ensures Within(spans, data)
  {
    Coalesce(data, ecu, gap, Common(data, ecu))
  }

  predicate Within(spans: seq<Span>, data: Blob) {
    forall k :: 0 <= k < |spans| ==> spans[k].start < spans[k].end <= |data|
  }

  /** The scan of `dirty_spans`. */
  method ScanSpans(data: Blob, ecu: Blob, gap: nat) returns (spans: seq<Span>)
    ensures spans == Spans(data, ecu, gap)
    ensures IsCoalescing(spans, data, ecu, gap, 0, Common(data, ecu))
  {
    spans := [];
    for i := 0 to Common(data, ecu)
      invariant spans == Coalesce(data, ecu, gap, i)
    {
      if data[i] != ecu[i] {
        var k := |spans| - 1;
        if k >= 0 && i - spans[k].end <= gap {
          spans := spans[k := Span(spans[k].start, i + 1)];
        } else {
          spans := spans + [Span(i, i + 1)];
        }
      }
    }
    CoalesceIsCoalescing(data, ecu, gap, Common(data, ecu));
  }

  // ----- what coalescing means ---------------------------------------------

  ghost predicate Differ(data: Blob, ecu: Blob, i: nat) {
    i < |data| && i < |ecu| && data[i] != ecu[i]
  }

  /** One of the `gap + 1` bytes from `i` on differs. */
  ghost predicate DifferWithin(data: Blob, ecu: Blob, i: nat, gap: nat) {
    exists j :: i <= j <= i + gap && Differ(data, ecu, j)
  }

  ghost predicate Inside(spans: seq<Span>, i: nat) {
    exists k :: 0 <= k < |spans| && spans[k].start <= i < spans[k].end
  }

  /** A span starts and ends on differing bytes and never skips more than `gap` equal ones. */
  ghost predicate IsSpan(s: Span, data: Blob, ecu: Blob, gap: nat, lo: nat, n: nat) {
    && lo <= s.start < s.end <= n
    && Differ(data, ecu, s.start)
    && Differ(data, ecu, s.end - 1)
    && forall i :: s.start <= i && i + gap < s.end ==> DifferWithin(data, ecu, i, gap)
  }

  /** `spans` is a coalescing of the differing bytes from `lo` up to `n`. */
  ghost predicate IsCoalescing(spans: seq<Span>, data: Blob, ecu: Blob, gap: nat, lo: nat, n: nat) {
    && (forall k :: 0 <= k < |spans| ==> IsSpan(spans[k], data, ecu, gap, lo, n))
    && (forall k, m :: 0 <= k < m < |spans| ==> spans[k].end + gap < spans[m].start)
    && (forall i {:trigger Inside(spans, i)} :: lo <= i < n && Differ(data, ecu, i) ==> Inside(spans, i))
  }

  lemma {:induction false} CoalesceIsCoalescing(data: Blob, ecu: Blob, gap: nat, n: nat)
    requires n <= |data| && n <= |ecu|
    ensures IsCoalescing(Coalesce(data, ecu, gap, n), data, ecu, gap, 0, n)
  {
    if n == 0 {
    } else {
      CoalesceIsCoalescing(data, ecu, gap, n - 1);
      var before := Coalesce(data, ecu, gap, n - 1);
      if Differ(data, ecu, n - 1) {
        ExtendKeepsCoalescing(before, data, ecu, gap, n - 1);
        assert Coalesce(data, ecu, gap, n) == Extend(before, n - 1, gap);
      } else {
        EqualByteKeepsCoalescing(before, data, ecu, gap, n - 1);
        assert Coalesce(data, ecu, gap, n) == before;
      }
    }
  }

  lemma EqualByteKeepsCoalescing(spans: seq<Span>, data: Blob, ecu: Blob, gap: nat, n: nat)
    requires IsCoalescing(spans, data, ecu, gap, 0, n)
    requires !Differ(data, ecu, n)
    ensures IsCoalescing(spans, data, ecu, gap, 0, n + 1)
  {
    forall k | 0 <= k < |spans| ensures IsSpan(spans[k], data, ecu, gap, 0, n + 1) {
      assert IsSpan(spans[k], data, ecu, gap, 0, n);
    }
  }

  lemma GrownSpan(s: Span, data: Blob, ecu: Blob, gap: nat, n: nat)
    requires IsSpan(s, data, ecu, gap, 0, n)
    requires n - s.end <= gap && Differ(data, ecu, n)
    ensures IsSpan(Span(s.start, n + 1), data, ecu, gap, 0, n + 1)
  {
    forall i | s.start <= i && i + gap < n + 1 ensures DifferWithin(data, ecu, i, gap) {
      if i + gap < s.end {
        assert DifferWithin(data, ecu, i, gap);
      } else if i < s.end {
        assert Differ(data, ecu, s.end - 1);
      } else {
        assert Differ(data, ecu, n);
      }
    }
  }

  lemma ExtendKeepsCoalescing(spans: seq<Span>, data: Blob, ecu: Blob, gap: nat, n: nat)
    requires IsCoalescing(spans, data, ecu, gap, 0, n)
    requires Differ(data, ecu, n)
    ensures IsCoalescing(Extend(spans, n, gap), data, ecu, gap, 0, n + 1)
  {
    var r, last := Extend(spans, n, gap), |Extend(spans, n, gap)| - 1;
    forall k | 0 <= k < |r| ensures IsSpan(r[k], data, ecu, gap, 0, n + 1) {
      if k < last {
        assert IsSpan(spans[k], data, ecu, gap, 0, n);
      } else if last < |spans| {
        GrownSpan(spans[k], data, ecu, gap, n);
      }
    }
    forall k, m | 0 <= k < m < |r| ensures r[k].end + gap < r[m].start {
      assert r[k] == spans[k];
      assert m < |spans| ==> spans[m].start == r[m].start;
      if m == |spans| && k < m - 1 {
        assert spans[k].end + gap < spans[m - 1].start;
        assert IsSpan(spans[m - 1], data, ecu, gap, 0, n);
      }
    }
    ExtendCovers(spans, data, ecu, gap, n);
  }

  lemma ExtendCovers(spans: seq<Span>, data: Blob, ecu: Blob, gap: nat, n: nat)
    requires IsCoalescing(spans, data, ecu, gap, 0, n)
    ensures forall i {:trigger Inside(Extend(spans, n, gap), i)} ::
      0 <= i <= n && Differ(data, ecu, i) ==> Inside(Extend(spans, n, gap), i)
  {
    var r, last := Extend(spans, n, gap), |Extend(spans, n, gap)| - 1;
    forall i | 0 <= i <= n && Differ(data, ecu, i) ensures Inside(r, i) {
      if i == n {
        assert r[last].start <= i < r[last].end;
      } else {
        assert Inside(spans, i);
        var m :| 0 <= m < |spans| && spans[m].start <= i < spans[m].end;
        assert r[m].start <= i < r[m].end;
      }
    }
  }

  /** There is only one coalescing, so the five conditions pin the scan down completely. */
  lemma {:induction false} CoalescingUnique(a: seq<Span>, b: seq<Span>, data: Blob, ecu: Blob, gap: nat, lo: nat, n: nat)
    requires IsCoalescing(a, data, ecu, gap, lo, n) && IsCoalescing(b, data, ecu, gap, lo, n)
    ensures a == b
    decreases |a|
  {
    if b != [] {
      SpanNeedsSpan(b, a, data, ecu, gap, lo, n);
    }
    if a == [] {
    } else {
      SpanNeedsSpan(a, b, data, ecu, gap, lo, n);
      FirstSpanNotLater(a, b, data, ecu, gap, lo, n);
      FirstSpanNotLater(b, a, data, ecu, gap, lo, n);
      FirstSpanNotLonger(a, b, data, ecu, gap, lo, n);
      FirstSpanNotLonger(b, a, data, ecu, gap, lo, n);
      TailCoalesces(a, data, ecu, gap, lo, n);
      TailCoalesces(b, data, ecu, gap, lo, n);
      CoalescingUnique(a[1..], b[1..], data, ecu, gap, a[0].end, n);
      assert a == [a[0]] + a[1..] && b == [b[0]] + b[1..];
    }
  }

  lemma FirstSpanNotLater(a: seq<Span>, b: seq<Span>, data: Blob, ecu: Blob, gap: nat, lo: nat, n: nat)
    requires IsCoalescing(a, data, ecu, gap, lo, n) && IsCoalescing(b, data, ecu, gap, lo, n)
    requires a != [] && b != []
    ensures a[0].start <= b[0].start
  {
    assert IsSpan(b[0], data, ecu, gap, lo, n);
    assert Inside(a, b[0].start);
    var k :| 0 <= k < |a| && a[k].start <= b[0].start < a[k].end;
    assert IsSpan(a[0], data, ecu, gap, lo, n);
    assert k > 0 ==> a[0].end + gap < a[k].start;
  }

  lemma FirstSpanNotLonger(a: seq<Span>, b: seq<Span>, data: Blob, ecu: Blob, gap: nat, lo: nat, n: nat)
    requires IsCoalescing(a, data, ecu, gap, lo, n) && IsCoalescing(b, data, ecu, gap, lo, n)
    requires a != [] && b != [] && a[0].start == b[0].start
    ensures a[0].end <= b[0].end
  {
    assert IsSpan(a[0], data, ecu, gap, lo, n) && IsSpan(b[0], data, ecu, gap, lo, n);
    if b[0].end < a[0].end {
      NextDifferenceIsFar(b, data, ecu, gap, lo, n, a[0].end - 1);
      assert DifferWithin(data, ecu, b[0].end, gap);
      var j :| b[0].end <= j <= b[0].end + gap && Differ(data, ecu, j);
      NextDifferenceIsFar(b, data, ecu, gap, lo, n, j);
    }
  }

  lemma NextDifferenceIsFar(b: seq<Span>, data: Blob, ecu: Blob, gap: nat, lo: nat, n: nat, j: nat)
    requires IsCoalescing(b, data, ecu, gap, lo, n) && b != []
    requires b[0].end <= j < n && Differ(data, ecu, j)
    ensures b[0].end + gap < j
  {
    assert IsSpan(b[0], data, ecu, gap, lo, n);
    assert Inside(b, j);
    var k :| 0 <= k < |b| && b[k].start <= j < b[k].end;
    assert b[0].end + gap < b[k].start;
  }

  lemma SpanNeedsSpan(a: seq<Span>, b: seq<Span>, data: Blob, ecu: Blob, gap: nat, lo: nat, n: nat)
    requires IsCoalescing(a, data, ecu, gap, lo, n) && IsCoalescing(b, data, ecu, gap, lo, n)
    requires a != []
    ensures b != []
  {
    assert IsSpan(a[0], data, ecu, gap, lo, n);
    assert Inside(b, a[0].start);
  }

  lemma TailCoalesces(a: seq<Span>, data: Blob, ecu: Blob, gap: nat, lo: nat, n: nat)
    requires IsCoalescing(a, data, ecu, gap, lo, n) && a != []
    ensures IsCoalescing(a[1..], data, ecu, gap, a[0].end, n)
  {
    var t := a[1..];
    forall k | 0 <= k < |t| ensures IsSpan(t[k], data, ecu, gap, a[0].end, n) {
      assert IsSpan(a[k + 1], data, ecu, gap, lo, n);
    }
    assert IsSpan(a[0], data, ecu, gap, lo, n);
    forall i | a[0].end <= i < n && Differ(data, ecu, i) ensures Inside(t, i) {
      assert Inside(a, i);
      var k :| 0 <= k < |a| && a[k].start <= i < a[k].end;
      assert k > 0 && t[k - 1] == a[k];
    }
  }

  // ----- chunks ------------------------------------------------------------

  /** `bytes`, bound for `off`, cut into pieces of at most `block` bytes. */
  function Chunks(off: nat, bytes: Blob, block: nat): seq<Chunk>
    requires block > 0
    decreases |bytes|
  {
    if bytes == [] then []
    else if |bytes| <= block then [Chunk(off, bytes)]
    else [Chunk(off, bytes[..block])] + Chunks(off + block, bytes[block..], block)
  }

  function ChunksOfSpans(data: Blob, spans: seq<Span>, block: nat): seq<Chunk>
    requires block > 0 && Within(spans, data)
  {
    if spans == [] then []
    else Chunks(spans[0].start, data[spans[0].start..spans[0].end], block) + ChunksOfSpans(data, spans[1..], block)
  }

  /** Everything one pass over a page sends. */
  function Outgoing(data: Blob, ecu: Blob, gap: nat, block: nat): seq<Chunk>
    requires block > 0
  {
    ChunksOfSpans(data, Spans(data, ecu, gap), block)
  }

  /** Offsets travel as 16-bit numbers. */
  function Address(c: Chunk): nat { c.off % 0x1_0000 }

  /** The device's reaction to a chunk write: out-of-range writes are refused. */
  predicate Accepts(image: Blob, c: Chunk) {
    Address(c) + |c.bytes| <= |image|
  }

  function Store(image: Blob, c: Chunk): (r: Blob)
    ensures |r| == |image|
  {
    if Accepts(image, c) then Patch(image, Address(c), c.bytes) else image
  }

  function StoreAll(image: Blob, chunks: seq<Chunk>): (r: Blob)
    ensures |r| == |image|
    decreases |chunks|
  {
    if chunks == [] then image else StoreAll(Store(image, chunks[0]), chunks[1..])
  }

  /** A piece of `data`, no longer than a block, headed for where it came from. */
  ghost predicate CutFrom(c: Chunk, data: Blob, block: nat) {
    && 0 < |c.bytes| <= block
    && c.off + |c.bytes| <= |data|
    && c.bytes == data[c.off..c.off + |c.bytes|]
  }

  ghost predicate Covers(c: Chunk, i: nat) {
    c.off <= i < c.off + |c.bytes|
  }

  ghost predicate Covered(chunks: seq<Chunk>, i: nat) {
    exists k :: 0 <= k < |chunks| && Covers(chunks[k], i)
  }

  lemma CoveredConcat(a: seq<Chunk>, b: seq<Chunk>, i: nat)
    ensures Covered(a + b, i) <==> Covered(a, i) || Covered(b, i)
  {
    if Covered(a, i) {
      var k :| 0 <= k < |a| && Covers(a[k], i);
      assert Covers((a + b)[k], i);
    }
    if Covered(b, i) {
      var k :| 0 <= k < |b| && Covers(b[k], i);
      assert Covers((a + b)[|a| + k], i);
    }
  }

  lemma {:induction false} ChunksCut(off: nat, bytes: Blob, block: nat, data: Blob)
    requires block > 0
    requires off + |bytes| <= |data| && bytes == data[off..off + |bytes|]
    ensures forall k :: 0 <= k < |Chunks(off, bytes, block)| ==> CutFrom(Chunks(off, bytes, block)[k], data, block)
    decreases |bytes|
  {
    if |bytes| > block {
      ChunksCut(off + block, bytes[block..], block, data);
    }
  }

  lemma {:induction false} ChunksCover(off: nat, bytes: Blob, block: nat, i: nat)
    requires block > 0
    ensures Covered(Chunks(off, bytes, block), i) <==> off <= i < off + |bytes|
    decreases |bytes|
  {
    if |bytes| > block {
      var c := Chunk(off, bytes[..block]);
      ChunksCover(off + block, bytes[block..], block, i);
      CoveredConcat([c], Chunks(off + block, bytes[block..], block), i);
      assert Covered([c], i) <==> Covers([c][0], i);
    } else if bytes != [] {
      assert Covered([Chunk(off, bytes)], i) <==> Covers([Chunk(off, bytes)][0], i);
    }
  }

  /** The chunks are pieces of the page and cover exactly the bytes inside the spans. */
  lemma {:induction false} ChunksOfSpansCut(data: Blob, spans: seq<Span>, block: nat)
    requires block > 0 && Within(spans, data)
    ensures forall k :: 0 <= k < |ChunksOfSpans(data, spans, block)| ==> CutFrom(ChunksOfSpans(data, spans, block)[k], data, block)
  {
    if spans == [] {
    } else {
      ChunksCut(spans[0].start, data[spans[0].start..spans[0].end], block, data);
      ChunksOfSpansCut(data, spans[1..], block);
    }
  }

  lemma {:induction false} ChunksOfSpansCover(data: Blob, spans: seq<Span>, block: nat, i: nat)
    requires block > 0 && Within(spans, data)
    ensures Covered(ChunksOfSpans(data, spans, block), i) <==> Inside(spans, i)
  {
    if spans == [] {
    } else {
      var bytes := data[spans[0].start..spans[0].end];
      ChunksCover(spans[0].start, bytes, block, i);
      ChunksOfSpansCover(data, spans[1..], block, i);
      CoveredConcat(Chunks(spans[0].start, bytes, block), ChunksOfSpans(data, spans[1..], block), i);
      if Inside(spans[1..], i) {
        var k :| 0 <= k < |spans[1..]| && spans[1..][k].start <= i < spans[1..][k].end;
        assert spans[k + 1].start <= i < spans[k + 1].end;
      }
      if Inside(spans, i) && !(spans[0].start <= i < spans[0].end) {
        var k :| 0 <= k < |spans| && spans[k].start <= i < spans[k].end;
        assert spans[1..][k - 1] == spans[k];
      }
    }
  }

  /** Storing pieces of `data` sets the bytes they cover and no others. */
  lemma {:induction false} StoreAllAt(image: Blob, data: Blob, chunks: seq<Chunk>, block: nat, i: nat)
    requires |image| == |data| <= 0x1_0000 && i < |image|
    requires forall k :: 0 <= k < |chunks| ==> CutFrom(chunks[k], data, block)
    ensures StoreAll(image, chunks)[i] == if Covered(chunks, i) then data[i] else image[i]
    decreases |chunks|
  {
    if chunks == [] {
    } else {
      var c := chunks[0];
      assert CutFrom(c, data, block);
      assert Address(c) == c.off;
      StoreAllAt(Store(image, c), data, chunks[1..], block, i);
      assert chunks == [c] + chunks[1..];
      CoveredConcat([c], chunks[1..], i);
      assert Covered([c], i) <==> Covers([c][0], i);
    }
  }

  /**
   Writing the outgoing chunks of a page of at most 64 KiB: whatever the device
   held, it afterwards holds `data` inside the spans and its old bytes outside.
   */
  lemma OutgoingStores(image: Blob, data: Blob, ecu: Blob, gap: nat, block: nat)
    requires block > 0 && |image| == |data| == |ecu| <= 0x1_0000
    ensures forall i :: 0 <= i < |image| ==>
      StoreAll(image, Outgoing(data, ecu, gap, block))[i] == if Inside(Spans(data, ecu, gap), i) then data[i] else image[i]
  {
    var spans := Spans(data, ecu, gap);
    ChunksOfSpansCut(data, spans, block);
    forall i | 0 <= i < |image|
      ensures StoreAll(image, Outgoing(data, ecu, gap, block))[i] == if Inside(spans, i) then data[i] else image[i]
    {
      StoreAllAt(image, data, Outgoing(data, ecu, gap, block), block, i);
      ChunksOfSpansCover(data, spans, block, i);
    }
  }

  /** In particular the chunks turn the shadow they were computed against into `data`. */
  lemma OutgoingCompletes(data: Blob, ecu: Blob, gap: nat, block: nat)
    requires block > 0 && |data| == |ecu| <= 0x1_0000
    ensures StoreAll(ecu, Outgoing(data, ecu, gap, block)) == data
  {
    OutgoingStores(ecu, data, ecu, gap, block);
    CoalesceIsCoalescing(data, ecu, gap, |data|);
    var r := StoreAll(ecu, Outgoing(data, ecu, gap, block));
    forall i | 0 <= i < |data| ensures r[i] == data[i] {
      assert Differ(data, ecu, i) ==> Inside(Spans(data, ecu, gap), i);
    }
  }
}
