/**
 The race the page check exists for: edits that land between taking the spans
 of a page and marking them sent. If they stay inside one element (four bytes)
 while the page is being visited, no checksum hypothesis is needed at all.
 */
module SyncRace {
  import opened Bytes
  import opened DirtySpans
  import Crc32
  import opened SyncMachine
  import opened SyncSafety

  ghost predicate Near(a: Blob, b: Blob, k: nat) {
    Crc32.DifferOnlyInWindow(a, b, k)
  }

  /** `checksum` separates images that differ only inside four consecutive bytes. */
  ghost predicate DetectsBursts(checksum: Blob -> nat) {
    forall a, b, k :: Near(a, b, k) && a != b ==> checksum(a) != checksum(b)
  }

  lemma CrcDetectsBursts()
    ensures DetectsBursts(Crc32.Crc)
  {
    forall a, b, k | Near(a, b, k) && a != b ensures Crc32.Crc(a) != Crc32.Crc(b) {
      Crc32.BurstDetected(a, b, k);
    }
  }

  ghost predicate Small(s: State) {
    forall p :: 0 <= p < |s.pages| ==> |s.pages[p].data| <= 0x1_0000
  }

  /** An edit of the page being visited changes only that page's window `w[page]`. */
  ghost predicate Confined(s: State, e: Event, w: seq<nat>)
    requires Valid(s) && Enabled(s, e) && |w| == |s.pages|
  {
    e.Edit? && Busy(s, e.page) ==> Near(s.pages[e.page].data, e.data, w[e.page])
  }

  ghost predicate AllConfined(s: State, es: seq<Event>, w: seq<nat>, link: Link)
    requires Valid(s) && Run(s, es, link) && |w| == |s.pages|
    decreases |es|
  {
    es == [] || (Confined(s, es[0], w) && |Apply(s, es[0], link).pages| == |w|
                 && AllConfined(Apply(s, es[0], link), es[1..], w, link))
  }

  /** The chunk still carries the wanted bytes, except perhaps inside the window. */
  ghost predicate Current(c: Chunk, data: Blob, k: nat) {
    && c.off + |c.bytes| <= |data|
    && forall i :: c.off <= i < c.off + |c.bytes| && !(k <= i < k + 4) ==> c.bytes[i - c.off] == data[i]
  }

  ghost predicate AllCurrent(cs: seq<Chunk>, data: Blob, k: nat) {
    forall j :: 0 <= j < |cs| ==> Current(cs[j], data, k)
  }

  /** Between the acknowledgement of `c` and its mark, RAM is ahead of the shadow inside `c`. */
  ghost predicate AheadInside(c: Chunk, pg: PageCopy, ram: Blob, k: nat) {
    && |ram| == |pg.ecu| == |pg.data|
    && forall i :: 0 <= i < |ram| && !(k <= i < k + 4) ==> ram[i] == if Covers(c, i) then pg.data[i] else pg.ecu[i]
  }

  ghost predicate Visit(ph: Phase, pg: PageCopy, ram: Blob, k: nat) {
    match ph
    case Writing(_, cs, _) => Near(pg.ecu, ram, k) && AllCurrent(cs, pg.data, k)
    case Acked(_, c, cs, _) => AheadInside(c, pg, ram, k) && Current(c, pg.data, k) && AllCurrent(cs, pg.data, k)
    case _ => Near(pg.ecu, ram, k)
  }

  /** While a page is visited its shadow and RAM agree outside the page's window. */
  ghost predicate Racing(s: State, w: seq<nat>)
    requires Valid(s) && |w| == |s.pages|
  {
    forall p :: 0 <= p < |s.pages| && Busy(s, p) ==> Visit(s.phase, s.pages[p], s.ram[p], w[p])
  }

  lemma RacingNeverCollides(s: State, e: Event, w: seq<nat>, link: Link)
    requires Valid(s) && Enabled(s, e) && |w| == |s.pages|
    requires Racing(s, w) && DetectsBursts(link.checksum)
    ensures NoCollision(s, e, link)
  {
    if e.CrcReply? {
      var p := s.phase.page;
      assert Busy(s, p);
      assert Near(s.pages[p].ecu, s.ram[p], w[p]);
    }
  }

  lemma EditKeepsVisit(ph: Phase, pg: PageCopy, data: Blob, ram: Blob, k: nat)
    requires Visit(ph, pg, ram, k) && Near(pg.data, data, k)
    ensures Visit(ph, pg.(data := data), ram, k)
  {
    if ph.Writing? || ph.Acked? {
      forall j | 0 <= j < |ph.chunks| ensures Current(ph.chunks[j], data, k) {
        assert Current(ph.chunks[j], pg.data, k);
      }
    }
  }

  lemma SnapshotStartsVisit(pg: PageCopy, p: nat, todo: seq<nat>, k: nat, link: Link)
    requires |pg.data| == |pg.ecu|
    ensures Visit(Writing(p, Outgoing(pg.data, pg.ecu, SPAN_MERGE_GAP, link.block), todo), pg, pg.ecu, k)
  {
    ChunksOfSpansCut(pg.data, Spans(pg.data, pg.ecu, SPAN_MERGE_GAP), link.block);
    var cs := Outgoing(pg.data, pg.ecu, SPAN_MERGE_GAP, link.block);
    forall j | 0 <= j < |cs| ensures Current(cs[j], pg.data, k) {
      assert CutFrom(cs[j], pg.data, link.block);
    }
  }

  lemma WriteKeepsVisit(p: nat, cs: seq<Chunk>, todo: seq<nat>, pg: PageCopy, ram: Blob, k: nat)
    requires cs != [] && Visit(Writing(p, cs, todo), pg, ram, k)
    requires |ram| == |pg.data| <= 0x1_0000 && Accepts(ram, cs[0])
    ensures Visit(Acked(p, cs[0], cs[1..], todo), pg, Store(ram, cs[0]), k)
  {
    var c, r := cs[0], Store(ram, cs[0]);
    assert Current(c, pg.data, k);
    if c.bytes != [] {
      assert Address(c) == c.off;
    }
    forall j | 0 <= j < |cs[1..]| ensures Current(cs[1..][j], pg.data, k) {
      assert Current(cs[j + 1], pg.data, k);
    }
  }

  lemma MarkKeepsVisit(p: nat, c: Chunk, cs: seq<Chunk>, todo: seq<nat>, pg: PageCopy, ram: Blob, k: nat)
    requires Visit(Acked(p, c, cs, todo), pg, ram, k)
    ensures |pg.ecu| == |pg.data| && Visit(Writing(p, cs, todo), pg.MarkSent(c.off, |c.bytes|), ram, k)
  {
  }

  lemma RacingStep(s: State, e: Event, w: seq<nat>, link: Link)
    requires Valid(s) && Enabled(s, e) && |w| == |s.pages| && Small(s)
    requires Racing(s, w) && OthersInSync(s) && Confined(s, e, w) && Answered(e)
    ensures |Apply(s, e, link).pages| == |w|
    ensures Racing(Apply(s, e, link), w)
  {
    var r := Apply(s, e, link);
    StepKeepsCount(s, e, link);
    forall p | 0 <= p < |r.pages| && Busy(r, p) ensures Visit(r.phase, r.pages[p], r.ram[p], w[p]) {
      RacingStepAt(s, e, w, link, p);
    }
  }

  lemma StepKeepsCount(s: State, e: Event, link: Link)
    requires Valid(s) && Enabled(s, e)
    ensures |Apply(s, e, link).pages| == |s.pages|
    ensures Small(s) ==> Small(Apply(s, e, link))
  {
    hide Apply;
    StepKeepsPages(s, e, link);
    forall p | 0 <= p < |s.pages| ensures |Apply(s, e, link).pages[p].data| == |s.pages[p].data| {
      StepKeepsLength(s, e, link, p);
    }
    if Small(s) {
      forall p | 0 <= p < |s.pages| ensures |Apply(s, e, link).pages[p].data| <= 0x1_0000 {
        assert |s.pages[p].data| <= 0x1_0000;
      }
    }
  }

  lemma StepKeepsLength(s: State, e: Event, link: Link, p: nat)
    requires Valid(s) && Enabled(s, e) && p < |s.pages|
    ensures |Apply(s, e, link).pages| == |s.pages|
    ensures |Apply(s, e, link).pages[p].data| == |s.pages[p].data|
  {
  }

  /** Steps other than the four that move data leave the copies of a page being visited alone. */
  lemma QuietStepKeepsVisit(s: State, e: Event, k: nat, link: Link, p: nat)
    requires Valid(s) && Enabled(s, e)
    requires !e.Edit? && !e.Snapshot? && !e.WriteOk? && !e.Mark? && Answered(e)
    requires p < |s.pages| == |Apply(s, e, link).pages| && Busy(Apply(s, e, link), p) && Busy(s, p)
    requires Visit(s.phase, s.pages[p], s.ram[p], k)
    ensures Visit(Apply(s, e, link).phase, Apply(s, e, link).pages[p], Apply(s, e, link).ram[p], k)
  {
  }

  lemma VisitContinues(s: State, e: Event, link: Link, p: nat)
    requires Valid(s) && Enabled(s, e) && p < |s.pages|
    requires Busy(Apply(s, e, link), p)
    ensures if e.Snapshot? then !Busy(s, p) else Busy(s, p)
  {
  }

  lemma RacingStepAt(s: State, e: Event, w: seq<nat>, link: Link, p: nat)
    requires Valid(s) && Enabled(s, e) && |w| == |s.pages| && Small(s)
    requires Racing(s, w) && OthersInSync(s) && Confined(s, e, w) && Answered(e)
    requires p < |s.pages| == |Apply(s, e, link).pages| && Busy(Apply(s, e, link), p)
    ensures Visit(Apply(s, e, link).phase, Apply(s, e, link).pages[p], Apply(s, e, link).ram[p], w[p])
  {
    var r, pg, ph := Apply(s, e, link), s.pages[p], s.phase;
    VisitContinues(s, e, link, p);
    if e.Edit? {
      if e.page == p {
        EditKeepsVisit(ph, pg, e.data, s.ram[p], w[p]);
      }
    } else if e.Snapshot? {
      assert InSync(s, p);
      SnapshotStartsVisit(pg, p, ph.todo[1..], w[p], link);
    } else if e.WriteOk? {
      WriteKeepsVisit(p, ph.chunks, ph.todo, pg, s.ram[p], w[p]);
    } else if e.Mark? {
      MarkKeepsVisit(p, ph.chunk, ph.chunks, ph.todo, pg, s.ram[p], w[p]);
    } else {
      QuietStepKeepsVisit(s, e, w[p], link, p);
    }
  }

  /**
   Edits may land anywhere on pages that are not being visited, and inside one
   four-byte window of the page that is. Then, with a checksum that detects
   bursts, every idle state has truthful shadows: no collision hypothesis.
   */
  lemma {:induction false} RaceOnOneElementIsCaught(s: State, es: seq<Event>, w: seq<nat>, link: Link)
    requires Valid(s) && Run(s, es, link) && AllAnswered(es) && Small(s)
    requires |w| == |s.pages| && AllConfined(s, es, w, link) && DetectsBursts(link.checksum)
    requires Remembers(s, link) && OthersInSync(s) && Racing(s, w)
    ensures Final(s, es, link).phase.Idle? ==> AllInSync(Final(s, es, link))
    decreases |es|
  {
    if es == [] {
    } else {
      RacingNeverCollides(s, es[0], w, link);
      RemembersStep(s, es[0], link);
      OthersStep(s, es[0], link);
      RacingStep(s, es[0], w, link);
      StepKeepsCount(s, es[0], link);
      RaceOnOneElementIsCaught(Apply(s, es[0], link), es[1..], w, link);
    }
  }

  /** The theorem for the real checksum, from an idle and synchronised state. */
  lemma RaceOnOneElement(s: State, es: seq<Event>, w: seq<nat>, block: Block)
    requires Valid(s) && s.phase.Idle? && AllInSync(s) && Small(s)
    requires Run(s, es, Link(block, Crc32.Crc)) && AllAnswered(es)
    requires |w| == |s.pages| && AllConfined(s, es, w, Link(block, Crc32.Crc))
    requires Final(s, es, Link(block, Crc32.Crc)).phase.Idle?
    ensures AllInSync(Final(s, es, Link(block, Crc32.Crc)))
  {
    CrcDetectsBursts();
    RaceOnOneElementIsCaught(s, es, w, Link(block, Crc32.Crc));
  }
}
