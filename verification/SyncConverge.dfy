/**
 What edit-free passes do: a declarative account of one pass, the proof that every
 edit-free, fully answered run of the step system computes it, and exactly when
 passes bring wanted bytes, shadow and RAM together.
 */
module SyncConverge {
  import opened Bytes
  import opened DirtySpans
  import opened SyncMachine
  import opened SyncSafety

  /** One page seen from both ends of the line. */
  datatype View = View(pg: PageCopy, ram: Blob)
  {
    predicate Sized() { |pg.data| == |pg.ecu| == |ram| }

    predicate Converged() { pg.data == pg.ecu == ram }
  }

  function ViewOf(s: State, p: nat): (v: View)
    requires Valid(s) && p < |s.pages|
    ensures v.Sized()
  {
    View(s.pages[p], s.ram[p])
  }

  function Send(v: View, c: Chunk): (r: View)
    requires v.Sized()
    ensures r.Sized()
  {
    View(v.pg.MarkSent(c.off, |c.bytes|), Store(v.ram, c))
  }

  function SendAll(v: View, chunks: seq<Chunk>): (r: View)
    requires v.Sized()
    ensures r.Sized()
    decreases |chunks|
  {
    if chunks == [] then v else SendAll(Send(v, chunks[0]), chunks[1..])
  }

  /** The checksum comparison and, where it differs, the re-download. */
  function Verify(v: View, expected: nat, link: Link): (r: View)
    requires v.Sized()
    ensures r.Sized()
  {
    if link.checksum(v.ram) == expected then v else v.(pg := v.pg.(ecu := v.ram))
  }

  function Check(v: View, link: Link): (r: View)
    requires v.Sized()
    ensures r.Sized()
  {
    Verify(v, link.checksum(v.pg.ecu), link)
  }

  function Visited(v: View, link: Link): (r: View)
    requires v.Sized()
    ensures r.Sized()
  {
    Check(SendAll(v, Outgoing(v.pg.data, v.pg.ecu, SPAN_MERGE_GAP, link.block)), link)
  }

  /** One edit-free, fully answered pass, as one page experiences it. */
  function Pass(v: View, link: Link): (r: View)
    requires v.Sized()
    ensures r.Sized()
  {
    if v.pg.Dirty() then Visited(v, link) else v
  }

  // ----- the step system computes Pass --------------------------------------

  /** An event of an edit-free pass whose requests are all answered. */
  predicate Quiet(e: Event) {
    Answered(e) && !e.Edit? && !e.StartFlush? && !e.StartBurn? && !IsBurnEvent(e)
  }

  predicate AllQuiet(es: seq<Event>) {
    forall k :: 0 <= k < |es| ==> Quiet(es[k])
  }

  predicate Later(p: nat, todo: seq<nat>) {
    forall k :: 0 <= k < |todo| ==> p < todo[k]
  }

  /** Pages are visited in increasing order, so none comes up twice. */
  ghost predicate InOrder(ph: Phase) {
    match ph
    case Idle => true
    case PassPages(todo) => Increasing(todo)
    case Burning(_, _) => false
    case BurnAcked(_, _, _) => false
    case _ => Increasing(ph.todo) && Later(ph.page, ph.todo)
  }

  /** What page `p` will look like when the pass in progress is over. */
  ghost function Outlook(s: State, p: nat, link: Link): View
    requires Valid(s) && p < |s.pages| && InOrder(s.phase)
  {
    var v := ViewOf(s, p);
    if Busy(s, p) then
      match s.phase
      case Writing(_, cs, _) => Check(SendAll(v, cs), link)
      case Acked(_, c, cs, _) => Check(SendAll(v.(pg := v.pg.MarkSent(c.off, |c.bytes|)), cs), link)
      case Checking(_, expected, _) => Verify(v, expected, link)
      case Rereading(_, _) => v.(pg := v.pg.(ecu := v.ram))
      case Installing(_, bytes, _) => v.(pg := v.pg.(ecu := bytes))
    else if s.phase.Idle? || p !in s.phase.todo then v
    else Visited(v, link)
  }

  lemma OutlookStep(s: State, e: Event, link: Link, p: nat)
    requires Valid(s) && Enabled(s, e) && p < |s.pages|
    requires InOrder(s.phase) && (e.PassDone? ==> !s.burning) && Quiet(e)
    ensures |Apply(s, e, link).pages| == |s.pages| && InOrder(Apply(s, e, link).phase)
    ensures Apply(s, e, link).burning == s.burning
    ensures Outlook(Apply(s, e, link), p, link) == Outlook(s, p, link)
  {
    hide Apply, Outlook, InOrder, Enabled, Valid, Quiet;
    if e.Snapshot? {
      OutlookSnapshot(s, link, p);
    } else if Busy(s, p) {
      OutlookVisit(s, e, link, p);
    } else {
      OutlookElsewhere(s, e, link, p);
    }
  }

  lemma OutlookSnapshot(s: State, link: Link, p: nat)
    requires Valid(s) && Enabled(s, Snapshot) && p < |s.pages| && InOrder(s.phase)
    ensures var r := Apply(s, Snapshot, link);
      |r.pages| == |s.pages| && InOrder(r.phase) && r.burning == s.burning && Outlook(r, p, link) == Outlook(s, p, link)
  {
    hide Outgoing;
    assert s.phase.todo == [s.phase.todo[0]] + s.phase.todo[1..];
  }

  lemma OutlookVisit(s: State, e: Event, link: Link, p: nat)
    requires Valid(s) && Enabled(s, e) && p < |s.pages| && InOrder(s.phase) && Quiet(e) && !e.Snapshot? && Busy(s, p)
    ensures var r := Apply(s, e, link);
      |r.pages| == |s.pages| && InOrder(r.phase) && r.burning == s.burning && Outlook(r, p, link) == Outlook(s, p, link)
  {
    hide Outgoing, DirtyPages, PendingPages, Store;
  }

  lemma OutlookElsewhere(s: State, e: Event, link: Link, p: nat)
    requires Valid(s) && Enabled(s, e) && p < |s.pages| && InOrder(s.phase) && Quiet(e) && !e.Snapshot? && !Busy(s, p)
    requires e.PassDone? ==> !s.burning
    ensures var r := Apply(s, e, link);
      |r.pages| == |s.pages| && InOrder(r.phase) && r.burning == s.burning && Outlook(r, p, link) == Outlook(s, p, link)
  {
    hide Outgoing, DirtyPages, PendingPages, Store;
  }

  lemma {:induction false} OutlookIsFinal(s: State, es: seq<Event>, link: Link, p: nat)
    requires Valid(s) && p < |s.pages| && Run(s, es, link)
    requires InOrder(s.phase) && !s.burning && AllQuiet(es)
    ensures |Final(s, es, link).pages| == |s.pages|
    ensures Final(s, es, link).phase.Idle? ==> ViewOf(Final(s, es, link), p) == Outlook(s, p, link)
    decreases |es|
  {
    if es == [] {
    } else {
      OutlookStep(s, es[0], link, p);
      OutlookIsFinal(Apply(s, es[0], link), es[1..], link, p);
    }
  }

  /** A pass sets out with every dirty page ahead of it. */
  lemma PassSetsOut(s: State, start: Event, link: Link, p: nat)
    requires Valid(s) && p < |s.pages| && s.phase.Idle? && (start.StartFlush? || start.StartBurn?)
    ensures var t := Apply(s, start, link);
      p < |t.pages| && InOrder(t.phase) && Outlook(t, p, link) == Pass(ViewOf(s, p), link)
  {
    var list := DirtyPages(s.pages);
    if p in list {
      var k :| 0 <= k < |list| && list[k] == p;
      assert Wanted(s.pages[list[k]], false);
    }
  }

  /** Every edit-free, fully answered pass does to every page what `Pass` says. */
  lemma PassRuns(s: State, es: seq<Event>, link: Link, p: nat)
    requires Valid(s) && p < |s.pages| && s.phase.Idle?
    requires Run(Apply(s, StartFlush, link), es, link) && AllQuiet(es)
    requires Final(Apply(s, StartFlush, link), es, link).phase.Idle?
    ensures p < |Final(Apply(s, StartFlush, link), es, link).pages|
    ensures ViewOf(Final(Apply(s, StartFlush, link), es, link), p) == Pass(ViewOf(s, p), link)
  {
    PassSetsOut(s, StartFlush, link, p);
    OutlookIsFinal(Apply(s, StartFlush, link), es, link, p);
  }

  // ----- what Pass achieves --------------------------------------------------

  lemma {:induction false} SendAllStores(v: View, chunks: seq<Chunk>, block: nat)
    requires v.Sized() && |v.ram| <= 0x1_0000
    requires forall k :: 0 <= k < |chunks| ==> CutFrom(chunks[k], v.pg.data, block)
    ensures SendAll(v, chunks) == View(v.pg.(ecu := StoreAll(v.pg.ecu, chunks)), StoreAll(v.ram, chunks))
    decreases |chunks|
  {
    if chunks == [] {
    } else {
      var c := chunks[0];
      assert CutFrom(c, v.pg.data, block) && Address(c) == c.off;
      assert v.pg.MarkSent(c.off, |c.bytes|) == v.pg.(ecu := Store(v.pg.ecu, c));
      SendAllStores(Send(v, c), chunks[1..], block);
    }
  }

  /** Outside the spans sent for `v`. */
  ghost predicate Skipped(v: View, i: nat) {
    !Inside(Spans(v.pg.data, v.pg.ecu, SPAN_MERGE_GAP), i)
  }

  /** RAM holds the wanted bytes outside the spans sent for `v`. */
  ghost predicate RightOutside(v: View)
    requires v.Sized()
  {
    forall i: nat :: i < |v.ram| && Skipped(v, i) ==> v.ram[i] == v.pg.data[i]
  }

  /** A visit leaves the shadow at the wanted bytes and RAM right inside the spans, before the check. */
  lemma SentView(v: View, link: Link)
    requires v.Sized() && |v.ram| <= 0x1_0000
    ensures var r := SendAll(v, Outgoing(v.pg.data, v.pg.ecu, SPAN_MERGE_GAP, link.block));
      && r.pg == v.pg.(ecu := v.pg.data)
      && forall i :: 0 <= i < |v.ram| ==> r.ram[i] == if Skipped(v, i) then v.ram[i] else v.pg.data[i]
  {
    var cs := Outgoing(v.pg.data, v.pg.ecu, SPAN_MERGE_GAP, link.block);
    ChunksOfSpansCut(v.pg.data, Spans(v.pg.data, v.pg.ecu, SPAN_MERGE_GAP), link.block);
    SendAllStores(v, cs, link.block);
    OutgoingCompletes(v.pg.data, v.pg.ecu, SPAN_MERGE_GAP, link.block);
    OutgoingStores(v.ram, v.pg.data, v.pg.ecu, SPAN_MERGE_GAP, link.block);
  }

  /** The page check of this visit tells the wanted bytes from what RAM then holds. */
  ghost predicate CheckHonest(v: View, link: Link)
    requires v.Sized()
  {
    var r := SendAll(v, Outgoing(v.pg.data, v.pg.ecu, SPAN_MERGE_GAP, link.block));
    link.checksum(r.pg.ecu) == link.checksum(r.ram) ==> r.pg.ecu == r.ram
  }

  /** After one pass over a dirty page the shadow is truthful, whatever it was before. */
  lemma PassMakesTruthful(v: View, link: Link)
    requires v.Sized() && |v.ram| <= 0x1_0000
    requires v.pg.Dirty() && CheckHonest(v, link)
    ensures Pass(v, link).pg.ecu == Pass(v, link).ram
    ensures Pass(v, link).pg.data == v.pg.data
  {
    SentView(v, link);
  }

  /**
   One pass is enough exactly when RAM already held the wanted bytes outside the
   spans. No checksum hypothesis: a mismatch is never missed in that case.
   */
  lemma OnePassConvergesIff(v: View, link: Link)
    requires v.Sized() && |v.ram| <= 0x1_0000 && v.pg.Dirty()
    ensures Pass(v, link).Converged() <==> RightOutside(v)
  {
    SentView(v, link);
    var r := SendAll(v, Outgoing(v.pg.data, v.pg.ecu, SPAN_MERGE_GAP, link.block));
    if RightOutside(v) {
      assert r.ram == v.pg.data;
    }
    if Pass(v, link).Converged() {
      forall i: nat | i < |v.ram| && Skipped(v, i) ensures v.ram[i] == v.pg.data[i] {
        assert r.ram[i] == v.ram[i];
      }
    }
  }

  /** In particular a truthful shadow converges in one pass. */
  lemma TruthfulConvergesInOne(v: View, link: Link)
    requires v.Sized() && |v.ram| <= 0x1_0000 && v.pg.ecu == v.ram
    ensures Pass(v, link).Converged()
  {
    if v.pg.Dirty() {
      CoalesceIsCoalescing(v.pg.data, v.pg.ecu, SPAN_MERGE_GAP, |v.ram|);
      forall i: nat | i < |v.ram| && Skipped(v, i) ensures v.ram[i] == v.pg.data[i] {
        assert Differ(v.pg.data, v.pg.ecu, i) ==> Inside(Spans(v.pg.data, v.pg.ecu, SPAN_MERGE_GAP), i);
      }
      OnePassConvergesIff(v, link);
    }
  }

  /**
   Self-stabilisation, exactly: two edit-free passes bring all three copies
   together if and only if the page starts dirty or its shadow was right.
   A clean page with a wrong shadow is never visited.
   */
  lemma TwoPassesConvergeIff(v: View, link: Link)
    requires v.Sized() && |v.ram| <= 0x1_0000 && CheckHonest(v, link)
    ensures Pass(Pass(v, link), link).Converged() <==> v.pg.Dirty() || v.pg.ecu == v.ram
  {
    if v.pg.Dirty() {
      PassMakesTruthful(v, link);
      TruthfulConvergesInOne(Pass(v, link), link);
    }
  }

  /**
   The same of the step system: after two edit-free, fully answered passes a page
   of at most 64 KiB has its wanted bytes in shadow and RAM if and only if it
   started dirty or its shadow was right.
   */
  lemma TwoRunsConvergeIff(s: State, first: seq<Event>, second: seq<Event>, link: Link, p: nat)
    requires Valid(s) && p < |s.pages| && s.phase.Idle? && |s.ram[p]| <= 0x1_0000 && CheckHonest(ViewOf(s, p), link)
    requires Run(Apply(s, StartFlush, link), first, link) && AllQuiet(first)
    requires var m := Final(Apply(s, StartFlush, link), first, link);
      && m.phase.Idle? && Run(Apply(m, StartFlush, link), second, link) && AllQuiet(second)
      && Final(Apply(m, StartFlush, link), second, link).phase.Idle?
    ensures var f := Final(Apply(Final(Apply(s, StartFlush, link), first, link), StartFlush, link), second, link);
      p < |f.pages| && (ViewOf(f, p).Converged() <==> s.pages[p].Dirty() || s.pages[p].ecu == s.ram[p])
  {
    hide Apply, Run, Final, Pass, CheckHonest;
    PassRuns(s, first, link, p);
    PassRuns(Final(Apply(s, StartFlush, link), first, link), second, link, p);
    TwoPassesConvergeIff(ViewOf(s, p), link);
  }

  // ----- the trap: clean but wrong -------------------------------------------

  /** Page `p` is neither being visited nor waiting for a visit. */
  predicate OffTheList(ph: Phase, p: nat) {
    match ph
    case PassPages(todo) => p !in todo
    case Idle => true
    case Burning(_, _) => true
    case BurnAcked(_, _, _) => true
    case _ => ph.page != p && p !in ph.todo
  }

  ghost predicate LeftAlone(s: State, v: View, p: nat)
    requires Valid(s) && p < |s.pages|
  {
    && s.pages[p].data == v.pg.data && s.pages[p].ecu == v.pg.ecu && s.ram[p] == v.ram
    && OffTheList(s.phase, p)
  }

  lemma OffTheListStep(s: State, e: Event, link: Link, p: nat)
    requires Valid(s) && Enabled(s, e) && p < |s.pages|
    requires OffTheList(s.phase, p) && !s.pages[p].Dirty()
    ensures OffTheList(Apply(s, e, link).phase, p)
  {
    hide Outgoing, Store, PhaseInRange, DirtyPages, PendingPages;
    CleanIsNotListed(s.pages, p);
  }

  lemma CleanIsNotListed(pages: seq<PageCopy>, p: nat)
    requires p < |pages| && !pages[p].Dirty()
    ensures p !in DirtyPages(pages)
  {
    var list := DirtyPages(pages);
    assert forall k :: 0 <= k < |list| ==> Wanted(pages[list[k]], false);
  }

  lemma LeftAloneStep(s: State, e: Event, link: Link, v: View, p: nat)
    requires Valid(s) && Enabled(s, e) && p < |s.pages|
    requires LeftAlone(s, v, p) && !v.pg.Dirty() && (e.Edit? ==> e.page != p)
    ensures |Apply(s, e, link).pages| == |s.pages| && LeftAlone(Apply(s, e, link), v, p)
  {
    OffTheListStep(s, e, link, p);
    StepFrame(s, e, link, p);
  }

  /**
   A page that is clean when the thread is idle keeps its shadow and its RAM
   through every run that does not edit it, whatever is answered or lost and
   however many passes and burns it contains. If its shadow is wrong, it stays wrong.
   */
  lemma {:induction false} CleanPageIsLeftAlone(s: State, es: seq<Event>, link: Link, v: View, p: nat)
    requires Valid(s) && p < |s.pages| && Run(s, es, link)
    requires LeftAlone(s, v, p) && !v.pg.Dirty()
    requires forall k :: 0 <= k < |es| && es[k].Edit? ==> es[k].page != p
    ensures |Final(s, es, link).pages| == |s.pages| && LeftAlone(Final(s, es, link), v, p)
    decreases |es|
  {
    if es == [] {
    } else {
      LeftAloneStep(s, es[0], link, v, p);
      CleanPageIsLeftAlone(Apply(s, es[0], link), es[1..], link, v, p);
    }
  }

  /** A one-byte page on the device and off it, at some point of a pass. */
  function Tiny(data: Byte, ecu: Byte, ram: Byte, ph: Phase): State {
    State([PageCopy([data], [ecu], [0])], [[ram]], [[0]], ph, false, NoBurn)
  }

  const FIRST_HALF: seq<Event> := [StartFlush] + ([Snapshot] + ([WriteOk] + []))
  const LOST_CHECK: seq<Event> := [Hash] + ([CrcFailed] + ([PassDone] + []))
  const SECOND_HALF: seq<Event> := [Edit(0, [2])] + ([Mark] + LOST_CHECK)

  lemma Prepend(s: State, e: Event, es: seq<Event>, link: Link)
    requires Valid(s) && Enabled(s, e) && Run(Apply(s, e, link), es, link)
    ensures Run(s, [e] + es, link) && Final(s, [e] + es, link) == Final(Apply(s, e, link), es, link)
  {
    assert ([e] + es)[1..] == es;
  }

  lemma OneByteOutgoing(block: nat)
    requires block > 0
    ensures Outgoing([1], [0], SPAN_MERGE_GAP, block) == [Chunk(0, [1])]
  {
    var data: Blob, ecu: Blob := [1], [0];
    assert Coalesce(data, ecu, SPAN_MERGE_GAP, 0) == [];
    assert Coalesce(data, ecu, SPAN_MERGE_GAP, 1) == [Span(0, 1)];
    assert data[0..1] == [1] && [Span(0, 1)][1..] == [];
    assert Chunks(0, [1], block) == [Chunk(0, [1])];
    assert ChunksOfSpans(data, [], block) == [];
  }

  lemma TinyFlush(link: Link)
    ensures Valid(Tiny(1, 0, 0, Idle))
    ensures Apply(Tiny(1, 0, 0, Idle), StartFlush, link) == Tiny(1, 0, 0, PassPages([0]))
  {
    var pages := Tiny(1, 0, 0, Idle).pages;
    assert PagesWanted(pages, 0, false) == [];
    assert Wanted(pages[0], false);
    assert DirtyPages(pages) == [0];
  }

  lemma TinySnapshot(link: Link)
    ensures Valid(Tiny(1, 0, 0, PassPages([0])))
    ensures Apply(Tiny(1, 0, 0, PassPages([0])), Snapshot, link) == Tiny(1, 0, 0, Writing(0, [Chunk(0, [1])], []))
  {
    OneByteOutgoing(link.block);
  }

  lemma TinyWrite(link: Link)
    ensures Valid(Tiny(1, 0, 0, Writing(0, [Chunk(0, [1])], [])))
    ensures Enabled(Tiny(1, 0, 0, Writing(0, [Chunk(0, [1])], [])), WriteOk)
    ensures Apply(Tiny(1, 0, 0, Writing(0, [Chunk(0, [1])], [])), WriteOk, link) == Tiny(1, 0, 1, Acked(0, Chunk(0, [1]), [], []))
  {
    assert Store([0], Chunk(0, [1])) == [1];
  }

  /** The pass up to the acknowledged write. */
  lemma TrapOpens(link: Link)
    ensures Valid(Tiny(1, 0, 0, Idle)) && Run(Tiny(1, 0, 0, Idle), FIRST_HALF, link)
    ensures Final(Tiny(1, 0, 0, Idle), FIRST_HALF, link) == Tiny(1, 0, 1, Acked(0, Chunk(0, [1]), [], []))
  {
    TinyWrite(link);
    Prepend(Tiny(1, 0, 0, Writing(0, [Chunk(0, [1])], [])), WriteOk, [], link);
    TinySnapshot(link);
    Prepend(Tiny(1, 0, 0, PassPages([0])), Snapshot, [WriteOk] + [], link);
    TinyFlush(link);
    Prepend(Tiny(1, 0, 0, Idle), StartFlush, [Snapshot] + ([WriteOk] + []), link);
  }

  lemma TinyMark(link: Link)
    ensures Valid(Tiny(2, 0, 1, Acked(0, Chunk(0, [1]), [], [])))
    ensures Apply(Tiny(2, 0, 1, Acked(0, Chunk(0, [1]), [], [])), Mark, link) == Tiny(2, 2, 1, Writing(0, [], []))
  {
    assert PageCopy([2], [0], [0]).MarkSent(0, 1) == PageCopy([2], [2], [0]);
  }

  lemma TinyGivesUp(link: Link, expected: nat)
    ensures Valid(Tiny(2, 2, 1, Checking(0, expected, [])))
    ensures Run(Tiny(2, 2, 1, Checking(0, expected, [])), [CrcFailed] + ([PassDone] + []), link)
    ensures Final(Tiny(2, 2, 1, Checking(0, expected, [])), [CrcFailed] + ([PassDone] + []), link) == Tiny(2, 2, 1, Idle)
  {
    Prepend(Tiny(2, 2, 1, PassPages([])), PassDone, [], link);
    Prepend(Tiny(2, 2, 1, Checking(0, expected, [])), CrcFailed, [PassDone] + [], link);
  }

  lemma TinyCheckLost(link: Link)
    ensures Valid(Tiny(2, 2, 1, Writing(0, [], []))) && Run(Tiny(2, 2, 1, Writing(0, [], [])), LOST_CHECK, link)
    ensures Final(Tiny(2, 2, 1, Writing(0, [], [])), LOST_CHECK, link) == Tiny(2, 2, 1, Idle)
  {
    TinyGivesUp(link, link.checksum([2]));
    Prepend(Tiny(2, 2, 1, Writing(0, [], [])), Hash, [CrcFailed] + ([PassDone] + []), link);
  }

  /** An edit before the mark, then a checksum reply that never arrives. */
  lemma TrapCloses(link: Link)
    ensures Valid(Tiny(1, 0, 1, Acked(0, Chunk(0, [1]), [], [])))
    ensures Run(Tiny(1, 0, 1, Acked(0, Chunk(0, [1]), [], [])), SECOND_HALF, link)
    ensures Final(Tiny(1, 0, 1, Acked(0, Chunk(0, [1]), [], [])), SECOND_HALF, link) == Tiny(2, 2, 1, Idle)
  {
    hide Run, Final, Outgoing, Store, DirtyPages, PendingPages;
    TinyCheckLost(link);
    TinyMark(link);
    Prepend(Tiny(2, 0, 1, Acked(0, Chunk(0, [1]), [], [])), Mark, LOST_CHECK, link);
    var s3 := Tiny(1, 0, 1, Acked(0, Chunk(0, [1]), [], []));
    assert Apply(s3, Edit(0, [2]), link) == Tiny(2, 0, 1, Acked(0, Chunk(0, [1]), [], []));
    Prepend(s3, Edit(0, [2]), [Mark] + LOST_CHECK, link);
  }

  /**
   The trap is real: from a truthful shadow, one edit between the acknowledgement
   and the mark together with a lost checksum reply ends idle and clean, with
   wanted byte 2 and RAM byte 1. Every later run without an edit keeps it so.
   */
  lemma LostReplyHidesTheRace(link: Link, later: seq<Event>)
    ensures Run(Tiny(1, 0, 0, Idle), FIRST_HALF, link) && Run(Final(Tiny(1, 0, 0, Idle), FIRST_HALF, link), SECOND_HALF, link)
    ensures var s := Final(Final(Tiny(1, 0, 0, Idle), FIRST_HALF, link), SECOND_HALF, link);
      && |s.pages| == 1 && s.phase.Idle? && !s.pages[0].Dirty() && s.ram[0] != s.pages[0].data
      && (Run(s, later, link) && (forall k :: 0 <= k < |later| ==> !later[k].Edit?) ==>
            |Final(s, later, link).pages| == 1 && LeftAlone(Final(s, later, link), View(PageCopy([2], [2], [0]), [1]), 0))
  {
    TrapOpens(link);
    TrapCloses(link);
    var s := Tiny(2, 2, 1, Idle);
    if Run(s, later, link) && (forall k :: 0 <= k < |later| ==> !later[k].Edit?) {
      CleanPageIsLeftAlone(s, later, link, View(PageCopy([2], [2], [0]), [1]), 0);
    }
  }
}
