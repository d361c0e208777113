/**
 Runs in which nobody edits, with any replies and writes lost: RAM never strays
 from the shadow and the wanted bytes, so a page that is clean is right.
 */
module SyncLosses {
  import opened Bytes
  import opened DirtySpans
  import opened SyncMachine
  import opened SyncSafety

  predicate NoEdits(es: seq<Event>) {
    forall k :: 0 <= k < |es| ==> !es[k].Edit?
  }

  predicate NoFailedWrites(es: seq<Event>) {
    forall k :: 0 <= k < |es| ==> !es[k].WriteFailed?
  }

  // ----- what RAM may hold ----------------------------------------------------

  /** Every byte of RAM is the one in the shadow or the wanted one. */
  ghost predicate Mixed(pg: PageCopy, ram: Blob) {
    && |pg.data| == |pg.ecu| == |ram|
    && forall i :: 0 <= i < |ram| ==> ram[i] == pg.ecu[i] || ram[i] == pg.data[i]
  }

  ghost predicate AllCut(cs: seq<Chunk>, data: Blob, block: nat) {
    forall k :: 0 <= k < |cs| ==> CutFrom(cs[k], data, block)
  }

  /** What is on its way is cut from the wanted bytes, and what was acknowledged or re-read is in RAM. */
  ghost predicate Sending(ph: Phase, pg: PageCopy, ram: Blob, block: nat) {
    match ph
    case Writing(_, cs, _) => AllCut(cs, pg.data, block)
    case Acked(_, c, cs, _) => CutFrom(c, pg.data, block) && AllCut(cs, pg.data, block) && InRam(c, pg.data, ram)
    case Installing(_, bytes, _) => bytes == ram
    case _ => true
  }

  ghost predicate InRam(c: Chunk, data: Blob, ram: Blob) {
    |data| == |ram| && forall i :: 0 <= i < |ram| && Covers(c, i) ==> ram[i] == data[i]
  }

  ghost predicate Tracked(s: State, p: nat, block: nat)
    requires Valid(s) && p < |s.pages|
  {
    Mixed(s.pages[p], s.ram[p]) && (Busy(s, p) ==> Sending(s.phase, s.pages[p], s.ram[p], block))
  }

  lemma CleanIsRight(s: State, p: nat, block: nat)
    requires Valid(s) && p < |s.pages| && Tracked(s, p, block) && !s.pages[p].Dirty()
    ensures s.ram[p] == s.pages[p].data
  {
  }

  lemma SnapshotTracks(pg: PageCopy, ram: Blob, p: nat, todo: seq<nat>, block: nat)
    requires block > 0 && |pg.data| == |pg.ecu|
    ensures Sending(Writing(p, Outgoing(pg.data, pg.ecu, SPAN_MERGE_GAP, block), todo), pg, ram, block)
  {
    ChunksOfSpansCut(pg.data, Spans(pg.data, pg.ecu, SPAN_MERGE_GAP), block);
  }

  /** A chunk that reaches RAM brings wanted bytes, acknowledged or not. */
  lemma StoreTracks(pg: PageCopy, ram: Blob, c: Chunk, block: nat)
    requires Mixed(pg, ram) && CutFrom(c, pg.data, block) && |ram| <= 0x1_0000
    ensures Mixed(pg, Store(ram, c)) && (Accepts(ram, c) ==> InRam(c, pg.data, Store(ram, c)))
  {
    assert Address(c) == c.off;
  }

  lemma MarkTracks(pg: PageCopy, ram: Blob, c: Chunk)
    requires Mixed(pg, ram) && InRam(c, pg.data, ram)
    ensures Mixed(pg.MarkSent(c.off, |c.bytes|), ram)
  {
  }

  lemma CutTail(cs: seq<Chunk>, data: Blob, block: nat)
    requires cs != [] && AllCut(cs, data, block)
    ensures CutFrom(cs[0], data, block) && AllCut(cs[1..], data, block)
  {
    forall k | 0 <= k < |cs[1..]| ensures CutFrom(cs[1..][k], data, block) {
      assert CutFrom(cs[k + 1], data, block);
    }
  }

  lemma TrackedStep(s: State, e: Event, link: Link, p: nat)
    requires Valid(s) && Enabled(s, e) && !e.Edit? && p < |s.pages| && |s.ram[p]| <= 0x1_0000
    requires Tracked(s, p, link.block)
    ensures var r := Apply(s, e, link);
      && |r.pages| == |s.pages| && |r.ram[p]| == |s.ram[p]| && r.pages[p].data == s.pages[p].data
      && Tracked(r, p, link.block)
  {
    hide Apply, Mixed, Sending, Enabled;
    StepKeepsPages(s, e, link);
    StepKeepsData(s, e, link, p);
    if !Busy(s, p) {
      IdleStepTracks(s, e, link, p);
    } else if e.WriteOk? || e.WriteFailed? {
      WriteStepTracks(s, e, link, p);
    } else {
      OtherStepTracks(s, e, link, p);
    }
  }

  lemma StepKeepsData(s: State, e: Event, link: Link, p: nat)
    requires Valid(s) && Enabled(s, e) && !e.Edit? && p < |s.pages|
    ensures var r := Apply(s, e, link);
      |r.pages| == |s.pages| && r.pages[p].data == s.pages[p].data && |r.ram[p]| == |s.ram[p]|
  {
    hide Outgoing, DirtyPages, PendingPages;
  }

  lemma IdleStepTracks(s: State, e: Event, link: Link, p: nat)
    requires Valid(s) && Enabled(s, e) && !e.Edit? && p < |s.pages| && !Busy(s, p) && Tracked(s, p, link.block)
    ensures p < |Apply(s, e, link).pages| && Tracked(Apply(s, e, link), p, link.block)
  {
    hide Outgoing, DirtyPages, PendingPages, Store;
    StepFrame(s, e, link, p);
    if e.Snapshot? && s.phase.todo[0] == p {
      SnapshotTracks(s.pages[p], s.ram[p], p, s.phase.todo[1..], link.block);
    }
  }

  lemma WriteStepTracks(s: State, e: Event, link: Link, p: nat)
    requires Valid(s) && Enabled(s, e) && (e.WriteOk? || e.WriteFailed?) && p < |s.pages| && |s.ram[p]| <= 0x1_0000
    requires Busy(s, p) && Tracked(s, p, link.block)
    ensures p < |Apply(s, e, link).pages| && Tracked(Apply(s, e, link), p, link.block)
  {
    hide Store, Accepts, CutFrom, Mixed, InRam;
    var cs := s.phase.chunks;
    CutTail(cs, s.pages[p].data, link.block);
    StoreTracks(s.pages[p], s.ram[p], cs[0], link.block);
  }

  lemma OtherStepTracks(s: State, e: Event, link: Link, p: nat)
    requires Valid(s) && Enabled(s, e) && !e.Edit? && !e.WriteOk? && !e.WriteFailed? && p < |s.pages|
    requires Busy(s, p) && Tracked(s, p, link.block)
    ensures p < |Apply(s, e, link).pages| && Tracked(Apply(s, e, link), p, link.block)
  {
    hide Outgoing, DirtyPages, PendingPages, Store, CutFrom;
    if e.Mark? {
      MarkTracks(s.pages[p], s.ram[p], s.phase.chunk);
    }
  }

  lemma {:induction false} TrackedRun(s: State, es: seq<Event>, link: Link, p: nat)
    requires Valid(s) && Run(s, es, link) && NoEdits(es) && p < |s.pages| && |s.ram[p]| <= 0x1_0000
    requires Tracked(s, p, link.block)
    ensures var f := Final(s, es, link);
      |f.pages| == |s.pages| && f.pages[p].data == s.pages[p].data && Tracked(f, p, link.block)
    decreases |es|
  {
    hide Apply, Tracked;
    if es == [] {
    } else {
      TrackedStep(s, es[0], link, p);
      TrackedRun(Apply(s, es[0], link), es[1..], link, p);
    }
  }

  /** A truthful shadow when the thread is idle. */
  lemma TruthfulIsTracked(s: State, p: nat, block: nat)
    requires Valid(s) && p < |s.pages| && s.phase.Idle? && InSync(s, p)
    ensures Tracked(s, p, block)
  {
  }

  /**
   Losses alone are harmless: from a truthful shadow, without edits and whatever
   writes, checks and re-reads are lost in any number of passes and burns, a page
   of at most 64 KiB that is clean has exactly the wanted bytes in RAM. No
   checksum hypothesis. Hiding a wrong byte takes an edit and a loss.
   */
  lemma CleanIsRightWithoutEdits(s: State, es: seq<Event>, link: Link, p: nat)
    requires Valid(s) && s.phase.Idle? && p < |s.pages| && InSync(s, p) && |s.ram[p]| <= 0x1_0000
    requires Run(s, es, link) && NoEdits(es)
    ensures var f := Final(s, es, link);
      |f.pages| == |s.pages| && (!f.pages[p].Dirty() ==> f.ram[p] == f.pages[p].data)
  {
    TruthfulIsTracked(s, p, link.block);
    TrackedRun(s, es, link, p);
    if !Final(s, es, link).pages[p].Dirty() {
      CleanIsRight(Final(s, es, link), p, link.block);
    }
  }

  // ----- passes without failed writes -----------------------------------------

  /** The differing bytes of a page in the middle of its visit are on their way. */
  ghost predicate Outstanding(pg: PageCopy, cs: seq<Chunk>) {
    |pg.data| == |pg.ecu| && forall i :: 0 <= i < |pg.data| ==> pg.ecu[i] == pg.data[i] || Covered(cs, i)
  }

  /** Page `p` is clean, or waits for its visit, or is in the middle of it. */
  ghost predicate Settling(ph: Phase, pg: PageCopy, p: nat) {
    match ph
    case PassPages(todo) => p in todo || !pg.Dirty()
    case Writing(q, cs, todo) => if q == p then Outstanding(pg, cs) else p in todo || !pg.Dirty()
    case Acked(q, c, cs, todo) => if q == p then Outstanding(pg, [c] + cs) else p in todo || !pg.Dirty()
    case Checking(q, _, todo) => (q != p && p in todo) || !pg.Dirty()
    case Rereading(q, todo) => (q != p && p in todo) || !pg.Dirty()
    case Installing(q, _, todo) => (q != p && p in todo) || !pg.Dirty()
    case _ => !pg.Dirty()
  }

  lemma SnapshotSettles(pg: PageCopy, block: nat)
    requires block > 0 && |pg.data| == |pg.ecu|
    ensures Outstanding(pg, Outgoing(pg.data, pg.ecu, SPAN_MERGE_GAP, block))
  {
    var spans := Spans(pg.data, pg.ecu, SPAN_MERGE_GAP);
    CoalesceIsCoalescing(pg.data, pg.ecu, SPAN_MERGE_GAP, |pg.data|);
    forall i | 0 <= i < |pg.data| && pg.ecu[i] != pg.data[i] ensures Covered(Outgoing(pg.data, pg.ecu, SPAN_MERGE_GAP, block), i) {
      assert Differ(pg.data, pg.ecu, i) ==> Inside(spans, i);
      ChunksOfSpansCover(pg.data, spans, block, i);
    }
  }

  lemma MarkSettles(pg: PageCopy, c: Chunk, cs: seq<Chunk>)
    requires Outstanding(pg, [c] + cs) && c.off + |c.bytes| <= |pg.data|
    ensures Outstanding(pg.MarkSent(c.off, |c.bytes|), cs)
  {
    var r := pg.MarkSent(c.off, |c.bytes|);
    forall i | 0 <= i < |pg.data| && r.ecu[i] != r.data[i] ensures Covered(cs, i) {
      CoveredConcat([c], cs, i);
      assert Covered([c], i) <==> Covers([c][0], i);
    }
  }

  lemma AllSentIsClean(pg: PageCopy)
    requires Outstanding(pg, [])
    ensures !pg.Dirty()
  {
    assert forall i :: !Covered([], i);
  }

  /** Events of a pass, or after it inside a burn, that neither edit nor fail to write. */
  predicate Delivering(e: Event) {
    !e.Edit? && !e.WriteFailed? && !e.StartFlush? && !e.StartBurn?
  }

  lemma SettlingStep(s: State, e: Event, link: Link, p: nat)
    requires Valid(s) && Enabled(s, e) && p < |s.pages| && !s.phase.Idle? && Delivering(e)
    requires Tracked(s, p, link.block) && Settling(s.phase, s.pages[p], p)
    ensures var r := Apply(s, e, link); p < |r.pages| && Settling(r.phase, r.pages[p], p)
  {
    hide Apply, Settling, Tracked, Enabled, Valid;
    if e.Snapshot? {
      SnapshotStep(s, link, p);
    } else if Busy(s, p) {
      VisitStep(s, e, link, p);
    } else {
      ElsewhereStep(s, e, link, p);
    }
  }

  lemma SnapshotStep(s: State, link: Link, p: nat)
    requires Valid(s) && Enabled(s, Snapshot) && p < |s.pages| && Settling(s.phase, s.pages[p], p)
    ensures var r := Apply(s, Snapshot, link); p < |r.pages| && Settling(r.phase, r.pages[p], p)
  {
    hide Outgoing, Outstanding;
    SnapshotSettles(s.pages[p], link.block);
    assert s.phase.todo == [s.phase.todo[0]] + s.phase.todo[1..];
  }

  lemma ElsewhereStep(s: State, e: Event, link: Link, p: nat)
    requires Valid(s) && Enabled(s, e) && p < |s.pages| && !s.phase.Idle? && Delivering(e) && !e.Snapshot? && !Busy(s, p)
    requires Settling(s.phase, s.pages[p], p)
    ensures var r := Apply(s, e, link); p < |r.pages| && Settling(r.phase, r.pages[p], p)
  {
    hide Outgoing, DirtyPages, PendingPages, Store, Outstanding;
  }

  lemma VisitStep(s: State, e: Event, link: Link, p: nat)
    requires Valid(s) && Enabled(s, e) && p < |s.pages| && Delivering(e) && Busy(s, p)
    requires Tracked(s, p, link.block) && Settling(s.phase, s.pages[p], p)
    ensures var r := Apply(s, e, link); p < |r.pages| && Settling(r.phase, r.pages[p], p)
  {
    hide Outgoing, DirtyPages, PendingPages, Store, Outstanding, CutFrom;
    var pg, ph := s.pages[p], s.phase;
    if e.WriteOk? {
      assert ph.chunks == [ph.chunks[0]] + ph.chunks[1..];
    } else if e.Mark? {
      CutEnds(ph.chunk, pg.data, link.block);
      MarkSettles(pg, ph.chunk, ph.chunks);
    } else if e.Hash? {
      AllSentIsClean(pg);
    }
  }

  lemma CutEnds(c: Chunk, data: Blob, block: nat)
    requires CutFrom(c, data, block)
    ensures c.off + |c.bytes| <= |data|
  {
  }

  lemma {:induction false} SettlingRun(s: State, es: seq<Event>, link: Link, p: nat)
    requires Valid(s) && Run(s, es, link) && p < |s.pages| && |s.ram[p]| <= 0x1_0000 && !s.phase.Idle?
    requires forall k :: 0 <= k < |es| ==> Delivering(es[k]) && Ongoing(es[k])
    requires Tracked(s, p, link.block) && Settling(s.phase, s.pages[p], p) && s.burning
    ensures var f := Final(s, es, link);
      |f.pages| == |s.pages| && !f.phase.Idle? && Settling(f.phase, f.pages[p], p)
    decreases |es|
  {
    hide Apply, Tracked, Settling;
    if es == [] {
    } else {
      StaysInside(s, es[0], link);
      SettlingStep(s, es[0], link, p);
      TrackedStep(s, es[0], link, p);
      SettlingRun(Apply(s, es[0], link), es[1..], link, p);
    }
  }

  /** An event that does not end a burn request. */
  predicate Ongoing(e: Event) {
    !e.BurnDone? && !e.BurnFailed?
  }

  lemma StaysInside(s: State, e: Event, link: Link)
    requires Valid(s) && Enabled(s, e) && Delivering(e) && Ongoing(e) && s.burning && !s.phase.Idle?
    ensures Apply(s, e, link).burning && !Apply(s, e, link).phase.Idle?
  {
    hide Outgoing, DirtyPages, PendingPages, Store;
  }

  /** A pass sets out with every dirty page waiting for its visit. */
  lemma PassSettles(s: State, start: Event, link: Link, p: nat)
    requires Valid(s) && s.phase.Idle? && p < |s.pages| && (start.StartFlush? || start.StartBurn?)
    ensures var t := Apply(s, start, link);
      p < |t.pages| && t.phase.PassPages? && t.burning == start.StartBurn? && Settling(t.phase, t.pages[p], p)
  {
  }
}
