/**
 The tune synchronisation protocol as a step system.

 One comms thread talks to the ECU; browser clients edit the wanted bytes of any
 page whenever the tune lock is free. A step is what happens under one hold of
 the lock or during one serial request, so every interleaving of edits with a
 flush or a burn is a sequence of events.
 */
module SyncMachine {
  import opened Bytes
  import opened DirtySpans

  const SPAN_MERGE_GAP: nat := 4

  /** A blocking factor; the configuration raises 0 to 1. */
  type Block = n: nat | n > 0 witness 1

  /** The INI's blocking factor and the checksum both ends compute over a page. */
  datatype Link = Link(block: Block, checksum: Blob -> nat)

  /** The three local copies of a page: wanted, shadow of RAM, shadow of EEPROM. */
  datatype PageCopy = PageCopy(data: Blob, ecu: Blob, burned: Blob)
  {
    predicate Dirty() { data != ecu }

    predicate BurnPending() { ecu != burned }

    /** A span was acknowledged: the shadow takes over the *current* wanted bytes. */
    function MarkSent(off: nat, len: nat): (r: PageCopy)
      requires |ecu| == |data|
      ensures SameLengths(r, this)
    {
      if off + len <= |data| then this.(ecu := Patch(ecu, off, data[off..off + len])) else this
    }
  }

  /** Where the comms thread stands; `todo` are the pages still to visit in this pass. */
  datatype Phase =
    | Idle
    | PassPages(todo: seq<nat>)
    | Writing(page: nat, chunks: seq<Chunk>, todo: seq<nat>)
    | Acked(page: nat, chunk: Chunk, chunks: seq<Chunk>, todo: seq<nat>)
    | Checking(page: nat, expected: nat, todo: seq<nat>)
    | Rereading(page: nat, todo: seq<nat>)
    | Installing(page: nat, bytes: Blob, todo: seq<nat>)
    | Burning(pending: seq<nat>, done: seq<nat>)
    | BurnAcked(page: nat, pending: seq<nat>, done: seq<nat>)

  datatype Outcome = NoBurn | BurnOk(pages: seq<nat>) | BurnErr(page: nat)

  /** `burning` says whether the pass in progress was started by a burn request. */
  datatype State = State(
    pages: seq<PageCopy>, ram: seq<Blob>, eeprom: seq<Blob>,
    phase: Phase, burning: bool, outcome: Outcome)

  datatype Event =
    | Edit(page: nat, data: Blob)
    | StartFlush
    | StartBurn
    | Snapshot
    | WriteOk
    | WriteFailed(applied: bool)
    | Mark
    | Hash
    | CrcReply
    | CrcFailed
    | PageRead
    | PageReadFailed
    | Resync
    | PassDone
    | BurnReply
    | BurnFailed(applied: bool)
    | MarkBurned
    | BurnDone

  // ----- the steps ---------------------------------------------------------

  /** What a flush (dirty) or a burn (RAM differs from EEPROM) looks for. */
  predicate Wanted(pg: PageCopy, burn: bool) {
    if burn then pg.BurnPending() else pg.Dirty()
  }

  /** The pages below `n` that are wanted, in order. */
  function PagesWanted(pages: seq<PageCopy>, n: nat, burn: bool): (r: seq<nat>)
    requires n <= |pages|
    ensures forall k :: 0 <= k < |r| ==> r[k] < n && Wanted(pages[r[k]], burn)
    ensures forall p :: 0 <= p < n && Wanted(pages[p], burn) ==> p in r
    ensures forall j, k :: 0 <= j < k < |r| ==> r[j] < r[k]
  {
    if n == 0 then []
    else
      var before := PagesWanted(pages, n - 1, burn);
      if Wanted(pages[n - 1], burn) then before + [n - 1] else before
  }

  function DirtyPages(pages: seq<PageCopy>): (r: seq<nat>)
    ensures InRange(r, |pages|)
  {
    PagesWanted(pages, |pages|, false)
  }

  function PendingPages(pages: seq<PageCopy>): (r: seq<nat>)
    ensures InRange(r, |pages|)
  {
    PagesWanted(pages, |pages|, true)
  }

  ghost predicate Increasing(list: seq<nat>) {
    forall j, k :: 0 <= j < k < |list| ==> list[j] < list[k]
  }

  predicate InRange(list: seq<nat>, n: nat) {
    forall k :: 0 <= k < |list| ==> list[k] < n
  }

  predicate PhaseInRange(ph: Phase, n: nat) {
    match ph
    case Idle => true
    case PassPages(todo) => InRange(todo, n)
    case Burning(pending, done) => InRange(pending, n) && InRange(done, n)
    case BurnAcked(page, pending, done) => page < n && InRange(pending, n) && InRange(done, n)
    case _ => ph.page < n && InRange(ph.todo, n)
  }

  /** All five copies of every page have one length and the thread is on a real page. */
  predicate Valid(s: State) {
    && |s.ram| == |s.pages| == |s.eeprom|
    && (forall p :: 0 <= p < |s.pages| ==>
      |s.pages[p].data| == |s.pages[p].ecu| == |s.pages[p].burned| == |s.ram[p]| == |s.eeprom[p]|)
    && PhaseInRange(s.phase, |s.pages|)
    && (s.phase.Installing? ==> |s.phase.bytes| == |s.ram[s.phase.page]|)
  }

  predicate SameLengths(a: PageCopy, b: PageCopy) {
    |a.data| == |b.data| && |a.ecu| == |b.ecu| && |a.burned| == |b.burned|
  }

  function SetPage(s: State, p: nat, pg: PageCopy): (r: State)
    requires Valid(s) && p < |s.pages| && SameLengths(pg, s.pages[p])
    ensures Valid(r)
  {
    s.(pages := s.pages[p := pg])
  }

  function SetRam(s: State, p: nat, image: Blob): (r: State)
    requires Valid(s) && p < |s.pages| && |image| == |s.ram[p]|
    ensures Valid(r)
  {
    s.(ram := s.ram[p := image])
  }

  function SetEeprom(s: State, p: nat, image: Blob): (r: State)
    requires Valid(s) && p < |s.pages| && |image| == |s.eeprom[p]|
    ensures Valid(r)
  {
    s.(eeprom := s.eeprom[p := image])
  }

  function Goto(s: State, ph: Phase): (r: State)
    requires Valid(s) && PhaseInRange(ph, |s.pages|)
    requires ph.Installing? ==> |ph.bytes| == |s.ram[ph.page]|
    ensures Valid(r)
  {
    s.(phase := ph)
  }

  predicate Enabled(s: State, e: Event)
    requires Valid(s)
  {
    match e
    case Edit(p, data) => p < |s.pages| && |data| == |s.pages[p].data|
    case StartFlush => s.phase.Idle?
    case StartBurn => s.phase.Idle?
    case Snapshot => s.phase.PassPages? && s.phase.todo != []
    case WriteOk => s.phase.Writing? && s.phase.chunks != [] && Accepts(s.ram[s.phase.page], s.phase.chunks[0])
    case WriteFailed(_) => s.phase.Writing? && s.phase.chunks != []
    case Mark => s.phase.Acked?
    case Hash => s.phase.Writing? && s.phase.chunks == []
    case CrcReply => s.phase.Checking?
    case CrcFailed => s.phase.Checking?
    case PageRead => s.phase.Rereading?
    case PageReadFailed => s.phase.Rereading?
    case Resync => s.phase.Installing?
    case PassDone => s.phase.PassPages? && s.phase.todo == []
    case BurnReply => s.phase.Burning? && s.phase.pending != []
    case BurnFailed(_) => s.phase.Burning? && s.phase.pending != []
    case MarkBurned => s.phase.BurnAcked?
    case BurnDone => s.phase.Burning? && s.phase.pending == []
  }

  /** A flush, or the flush inside a burn, lists the dirty pages. */
  function BeginPass(s: State, burning: bool): (r: State)
    requires Valid(s)
    ensures Valid(r)
  {
    Goto(s.(burning := burning), PassPages(DirtyPages(s.pages)))
  }

  function TakeSnapshot(s: State, link: Link): (r: State)
    requires Valid(s) && Enabled(s, Snapshot)
    ensures Valid(r)
  {
    var p, pg := s.phase.todo[0], s.pages[s.phase.todo[0]];
    Goto(s, Writing(p, Outgoing(pg.data, pg.ecu, SPAN_MERGE_GAP, link.block), s.phase.todo[1..]))
  }

  /** The next chunk reaches the ECU's RAM. */
  function StoreChunk(s: State): (r: State)
    requires Valid(s) && s.phase.Writing? && s.phase.chunks != []
    ensures Valid(r)
  {
    SetRam(s, s.phase.page, Store(s.ram[s.phase.page], s.phase.chunks[0]))
  }

  function MarkChunk(s: State): (r: State)
    requires Valid(s) && s.phase.Acked?
    ensures Valid(r)
  {
    var p, c := s.phase.page, s.phase.chunk;
    Goto(SetPage(s, p, s.pages[p].MarkSent(c.off, |c.bytes|)), Writing(p, s.phase.chunks, s.phase.todo))
  }

  function CompareCrc(s: State, link: Link): (r: State)
    requires Valid(s) && s.phase.Checking?
    ensures Valid(r)
  {
    var p, todo := s.phase.page, s.phase.todo;
    Goto(s, if link.checksum(s.ram[p]) == s.phase.expected then PassPages(todo) else Rereading(p, todo))
  }

  /** The re-read image replaces the shadow; wanted bytes stay. */
  function Install(s: State): (r: State)
    requires Valid(s) && s.phase.Installing?
    ensures Valid(r)
  {
    var p := s.phase.page;
    Goto(SetPage(s, p, s.pages[p].(ecu := s.phase.bytes)), PassPages(s.phase.todo))
  }

  /** The next pending page is copied from RAM to EEPROM on the device. */
  function BurnPage(s: State): (r: State)
    requires Valid(s) && s.phase.Burning? && s.phase.pending != []
    ensures Valid(r)
  {
    var p := s.phase.pending[0];
    SetEeprom(s, p, s.ram[p])
  }

  function NoteBurned(s: State): (r: State)
    requires Valid(s) && s.phase.BurnAcked?
    ensures Valid(r)
  {
    var p, pg := s.phase.page, s.pages[s.phase.page];
    Goto(SetPage(s, p, pg.(burned := pg.ecu)), Burning(s.phase.pending, s.phase.done + [p]))
  }

  predicate IsReplyEvent(e: Event) {
    e.CrcReply? || e.CrcFailed? || e.PageRead? || e.PageReadFailed? || e.Resync?
  }

  /** The verification half of a page's visit. */
  function ApplyCheck(s: State, e: Event, link: Link): (r: State)
    requires Valid(s) && Enabled(s, e) && IsReplyEvent(e)
    ensures Valid(r)
  {
    match e
    case CrcReply => CompareCrc(s, link)
    case CrcFailed => Goto(s, PassPages(s.phase.todo))
    case PageRead => Goto(s, Installing(s.phase.page, s.ram[s.phase.page], s.phase.todo))
    case PageReadFailed => Goto(s, PassPages(s.phase.todo))
    case Resync => Install(s)
  }

  predicate IsBurnEvent(e: Event) {
    e.BurnReply? || e.BurnFailed? || e.MarkBurned? || e.BurnDone?
  }

  /** The tail of a burn request, after its flush. */
  function ApplyBurn(s: State, e: Event): (r: State)
    requires Valid(s) && Enabled(s, e) && IsBurnEvent(e)
    ensures Valid(r)
  {
    match e
    case BurnReply => Goto(BurnPage(s), BurnAcked(s.phase.pending[0], s.phase.pending[1..], s.phase.done))
    case BurnFailed(applied) =>
      Goto(if applied then BurnPage(s) else s, Idle).(outcome := BurnErr(s.phase.pending[0]))
    case MarkBurned => NoteBurned(s)
    case BurnDone => Goto(s, Idle).(outcome := BurnOk(s.phase.done))
  }

  function Apply(s: State, e: Event, link: Link): (r: State)
    requires Valid(s) && Enabled(s, e)
    ensures Valid(r)
  {
    if IsReplyEvent(e) then ApplyCheck(s, e, link)
    else if IsBurnEvent(e) then ApplyBurn(s, e)
    else
      match e
      case Edit(p, data) => SetPage(s, p, s.pages[p].(data := data))
      case StartFlush => BeginPass(s, false)
      case StartBurn => BeginPass(s, true)
      case Snapshot => TakeSnapshot(s, link)
      case WriteOk => Goto(StoreChunk(s), Acked(s.phase.page, s.phase.chunks[0], s.phase.chunks[1..], s.phase.todo))
      // The pass is abandoned; whether the chunk reached RAM is unknown.
      case WriteFailed(applied) => Goto(if applied then StoreChunk(s) else s, PassPages([]))
      case Mark => MarkChunk(s)
      case Hash => Goto(s, Checking(s.phase.page, link.checksum(s.pages[s.phase.page].ecu), s.phase.todo))
      case PassDone => Goto(s, if s.burning then Burning(PendingPages(s.pages), []) else Idle)
  }

  /** `es` is a possible history from `s`. */
  predicate Run(s: State, es: seq<Event>, link: Link)
    requires Valid(s)
    decreases |es|
  {
    es == [] || (Enabled(s, es[0]) && Run(Apply(s, es[0], link), es[1..], link))
  }

  function Final(s: State, es: seq<Event>, link: Link): (r: State)
    requires Valid(s) && Run(s, es, link)
    ensures Valid(r)
    decreases |es|
  {
    if es == [] then s else Final(Apply(s, es[0], link), es[1..], link)
  }
}
