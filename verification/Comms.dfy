/**
 The comms thread itself: loops over pages, spans and chunks that update the
 shared tune and talk to the ECU, proved to perform only steps of SyncMachine.

 Other threads' edits and the fate of every request come from two scripts, so
 the methods are proved for every interleaving and every pattern of losses.
 */
module Comms {
  import opened Bytes
  import opened Options
  import opened DirtySpans
  import opened SyncMachine
  import opened SyncSafety
  import opened SyncConverge
  import opened SyncBurn

  /** What becomes of a request: answered, never delivered, or delivered but unanswered. */
  datatype Reply = Ok | Lost | Unanswered

  /** A wanted image for a page, as some browser client asks for it. */
  datatype ClientEdit = ClientEdit(page: nat, data: Blob)

  /** The reply to a burn request. */
  datatype BurnResult = AllBurned(pages: seq<nat>) | FailedAt(page: nat) | NotLoaded

  /** An event of the flush itself or of a client, between its start and its end. */
  predicate InsidePass(e: Event) {
    !e.StartFlush? && !e.StartBurn? && !e.PassDone? && !IsBurnEvent(e)
  }

  /** `after` continues `before` inside a pass, with no edit and no loss if it was `calm`. */
  ghost predicate Grown(before: seq<Event>, after: seq<Event>, calm: bool) {
    && before <= after
    && forall k :: |before| <= k < |after| ==> InsidePass(after[k]) && (calm ==> Quiet(after[k]))
  }

  /** What a flush adds to the history: a start, steps inside the pass, and its end. */
  ghost predicate Passed(before: seq<Event>, after: seq<Event>, start: Event, calm: bool) {
    && |before| + 2 <= |after|
    && before + [start] <= after[..|after| - 1]
    && Grown(before + [start], after[..|after| - 1], calm)
    && after[|after| - 1] == PassDone
  }

  /** A burn request has begun after `before` and not yet reported. */
  ghost predicate BurnUnderWay(before: seq<Event>, now: seq<Event>) {
    && before + [StartBurn] <= now
    && forall k :: |before| < k < |now| ==> InsideBurn(now[k])
  }

  /** `f` is the state in which a burn request that began in `s` and saw `es` reported with `last`. */
  ghost predicate BurnRequest(s: State, es: seq<Event>, last: Event, f: State, link: Link) {
    && SyncMachine.Valid(s) && Enabled(s, StartBurn) && AllInsideBurn(es)
    && Run(Apply(s, StartBurn, link), es, link)
    && Enabled(Requested(s, es, link), last)
    && f == Apply(Requested(s, es, link), last, link)
  }

  /** The request began with truthful shadows, its flush was answered, and no checksum lied. */
  ghost predicate Truthful(s: State, es: seq<Event>, link: Link) {
    && SyncMachine.Valid(s) && Ready(s) && AllAnswered(es)
    && Run(Apply(s, StartBurn, link), es, link)
    && NoCollisions(Apply(s, StartBurn, link), es, link)
  }

  ghost predicate Successful(f: State, eeprom: seq<Blob>) {
    SyncMachine.Valid(f) && Success(f, eeprom)
  }

  lemma TruthfulSuccess(s: State, es: seq<Event>, f: State, link: Link)
    requires Truthful(s, es, link) && BurnRequest(s, es, BurnDone, f, link)
    ensures Successful(f, s.eeprom)
  {
    hide Apply, Run, Final, SyncMachine.Valid, Success, Requested, Ready, NoCollisions;
    BurnSucceeds(s, es, link);
  }

  ghost predicate Failed(f: State, eeprom: seq<Blob>, applied: bool) {
    SyncMachine.Valid(f) && Failure(f, eeprom, applied)
  }

  lemma TruthfulFailure(s: State, es: seq<Event>, f: State, link: Link, applied: bool)
    requires Truthful(s, es, link) && BurnRequest(s, es, BurnFailed(applied), f, link)
    ensures Failed(f, s.eeprom, applied)
  {
    hide Apply, Run, Final, SyncMachine.Valid, Failure, Requested, Ready, NoCollisions;
    BurnStopsAtFailure(s, es, link, applied);
  }

  /** The report `r` is that of one burn request of the step system. */
  ghost predicate Requests(r: BurnResult, s: State, es: seq<Event>, f: State, link: Link) {
    && (r.AllBurned? ==> BurnRequest(s, es, BurnDone, f, link) && f.outcome == BurnOk(r.pages))
    && (r.FailedAt? ==> f.outcome == BurnErr(r.page) && exists applied :: BurnRequest(s, es, BurnFailed(applied), f, link))
  }

  /** What the report says of EEPROM. */
  ghost predicate Means(r: BurnResult, f: State, eeprom: seq<Blob>) {
    && (r.AllBurned? ==> Successful(f, eeprom))
    && (r.FailedAt? ==> exists applied :: Failed(f, eeprom, applied))
  }

  lemma RequestMeans(r: BurnResult, s: State, es: seq<Event>, f: State, link: Link)
    requires Requests(r, s, es, f, link)
    ensures Truthful(s, es, link) ==> Means(r, f, s.eeprom)
  {
    hide BurnRequest, Truthful, Successful, Failed;
    if Truthful(s, es, link) {
      if r.AllBurned? {
        TruthfulSuccess(s, es, f, link);
      }
      if r.FailedAt? {
        var applied :| BurnRequest(s, es, BurnFailed(applied), f, link);
        TruthfulFailure(s, es, f, link, applied);
      }
    }
  }

  lemma PassedInsideBurn(before: seq<Event>, after: seq<Event>, calm: bool)
    requires Passed(before, after, StartBurn, calm)
    ensures BurnUnderWay(before, after)
  {
    assert after[..|after| - 1] + [PassDone] == after;
  }

  class Comms {
    const link: Link
    ghost const sizes: seq<nat>

    // The shared tune.
    var pages: seq<PageCopy>
    var loaded: bool
    // The device.
    var ram: seq<Blob>
    var eeprom: seq<Blob>
    // The environment: edits waiting at each release of the lock, and replies.
    var edits: seq<seq<ClientEdit>>
    var replies: seq<Reply>

    // Where the thread stands in the step system, and the history since `origin`.
    ghost var phase: Phase
    ghost var burning: bool
    ghost var outcome: Outcome
    ghost var origin: State
    ghost var history: seq<Event>

    ghost function Now(): State
      reads this
    {
      State(pages, ram, eeprom, phase, burning, outcome)
    }

    /** The fields hold what the step system says after `history`. */
    ghost predicate Valid()
      reads this
    {
      && SyncMachine.Valid(origin)
      && Run(origin, history, link)
      && Final(origin, history, link) == Now()
      && |sizes| == |ram| && forall p :: 0 <= p < |ram| ==> |ram[p]| == sizes[p]
    }

    /** The tune before the first download: all three copies of every page are zeroes. */
    constructor (link: Link, ram: seq<Blob>, eeprom: seq<Blob>, edits: seq<seq<ClientEdit>>, replies: seq<Reply>)
      requires |ram| == |eeprom|
      requires forall p :: 0 <= p < |ram| ==> |ram[p]| == |eeprom[p]|
      ensures Valid() && phase.Idle? && !loaded && this.link == link
      ensures this.ram == ram && this.eeprom == eeprom && this.edits == edits && this.replies == replies
    {
      this.link := link;
      this.sizes := seq(|ram|, p requires 0 <= p < |ram| => |ram[p]|);
      this.ram, this.eeprom, this.edits, this.replies, this.loaded := ram, eeprom, edits, replies, false;
      this.pages := seq(|ram|, p requires 0 <= p < |ram| => Blank(|ram[p]|));
      this.phase, this.burning, this.outcome := Idle, false, NoBurn;
      this.origin := State(seq(|ram|, p requires 0 <= p < |ram| => Blank(|ram[p]|)), ram, eeprom, Idle, false, NoBurn);
      this.history := [];
    }

    static function Zeroes(n: nat): (b: Blob)
      ensures |b| == n
    {
      if n == 0 then [] else [0] + Zeroes(n - 1)
    }

    static function Blank(n: nat): PageCopy {
      PageCopy(Zeroes(n), Zeroes(n), Zeroes(n))
    }

    /** Enter event `e`, which led from `before` to the present state, into the history. */
    ghost method Record(before: State, e: Event)
      requires SyncMachine.Valid(origin) && Run(origin, history, link)
      requires |sizes| == |ram| && forall p :: 0 <= p < |ram| ==> |ram[p]| == sizes[p]
      requires Final(origin, history, link) == before && Enabled(before, e) && Apply(before, e, link) == Now()
      modifies this`history
      ensures history == old(history) + [e] && Valid()
    {
      RunAppend(origin, history, e, link);
      history := history + [e];
    }

    /** What happens to the next request; when the script runs out, all is answered. */
    method NextReply() returns (r: Reply)
      modifies this`replies
      ensures old(replies) == [] ==> r.Ok? && replies == []
      ensures old(replies) != [] ==> r == old(replies)[0] && replies == old(replies)[1..]
    {
      if replies == [] {
        r := Ok;
      } else {
        r, replies := replies[0], replies[1..];
      }
    }

    /** The delivered image matches the ECU's own checksum of the page. */
    predicate Good(p: nat, image: Option<Blob>)
      requires p < |ram|
      reads this`ram
    {
      image.Some? && |image.value| == |ram[p]| && link.checksum(image.value) == link.checksum(ram[p])
    }

    predicate Damaged(p: nat, image: Option<Blob>)
      requires p < |ram|
      reads this`ram
    {
      image.Some? && |image.value| == |ram[p]| && link.checksum(image.value) != link.checksum(ram[p])
    }

    /**
     Read one page and compare it with the ECU's own checksum, retrying once.
     `downloads` is what successive downloads deliver: nothing, or an image that
     may be damaged.
     */
    method DownloadPage(p: nat, downloads: seq<Option<Blob>>, from: nat) returns (bytes: Option<Blob>, next: nat)
      requires p < |ram| && from <= |downloads|
      modifies this`replies
      ensures from <= next <= |downloads| && next <= from + 2
      ensures bytes.Some? ==> |bytes.value| == |ram[p]| && link.checksum(bytes.value) == link.checksum(ram[p])
      ensures bytes.Some? ==> from < next && bytes == downloads[next - 1]
      ensures old(Calm()) ==> (bytes.Some? <==>
        || (from < |downloads| && Good(p, downloads[from]))
        || (from + 1 < |downloads| && Damaged(p, downloads[from]) && Good(p, downloads[from + 1])))
      ensures old(Calm()) ==> Calm()
    {
      next := from;
      bytes := None;
      for attempt := 0 to 2
        invariant next == from + attempt <= |downloads| && bytes.None?
        invariant forall k :: from <= k < next ==> Damaged(p, downloads[k])
        invariant old(Calm()) ==> Calm()
      {
        if next == |downloads| {
          return;
        }
        var image := downloads[next];
        next := next + 1;
        if image.None? || |image.value| != |ram[p]| {
          return;
        }
        var r := NextReply();
        if !r.Ok? {
          return;
        }
        if link.checksum(image.value) == link.checksum(ram[p]) {
          bytes := image;
          return;
        }
      }
    }

    /**
     Read every page into the tune. Only images that pass the page check are
     installed, as all three copies; the tune counts as loaded only when every
     page was.
     */
    method DownloadTune(downloads: seq<Option<Blob>>) returns (ok: bool)
      requires Valid() && phase.Idle?
      modifies this`pages, this`loaded, this`replies, this`origin, this`history
      ensures Valid() && phase.Idle?
      ensures loaded <==> old(loaded) || ok
      ensures ok ==> |pages| == |ram| && forall p :: 0 <= p < |pages| ==>
        pages[p].data == pages[p].ecu == pages[p].burned && link.checksum(pages[p].ecu) == link.checksum(ram[p])
      ensures forall p :: 0 <= p < |pages| && p < |old(pages)| ==>
        pages[p] == old(pages)[p] || (pages[p].data == pages[p].ecu == pages[p].burned && Some(pages[p].data) in downloads)
    {
      hide Run, Final;
      var next := 0;
      ok := true;
      for p := 0 to |pages|
        invariant Valid() && phase.Idle? && next <= |downloads| && |pages| == |old(pages)| && loaded == old(loaded)
        invariant forall q :: 0 <= q < p ==>
          pages[q].data == pages[q].ecu == pages[q].burned && link.checksum(pages[q].ecu) == link.checksum(ram[q])
          && Some(pages[q].data) in downloads
        invariant forall q :: p <= q < |pages| ==> pages[q] == old(pages)[q]
      {
        var bytes: Option<Blob>;
        bytes, next := DownloadPage(p, downloads, next);
        if bytes.None? {
          return false;
        }
        LoadPage(p, bytes.value);
      }
      loaded := true;
    }

    /** Install a downloaded page: all three copies agree, and the history starts afresh. */
    method LoadPage(p: nat, bytes: Blob)
      requires Valid() && phase.Idle? && p < |pages| && |bytes| == |ram[p]|
      modifies this`pages, this`origin, this`history
      ensures Valid() && pages == old(pages)[p := PageCopy(bytes, bytes, bytes)]
    {
      pages := pages[p := PageCopy(bytes, bytes, bytes)];
      origin, history := Now(), [];
    }

    /** No client is waiting and every request will be answered. */
    ghost predicate Calm()
      reads this
    {
      edits == [] && replies == []
    }

    /** The tune lock is free: clients replace wanted bytes, malformed requests are refused. */
    method Yield()
      requires Valid()
      modifies this`pages, this`edits, this`history
      ensures Valid() && Grown(old(history), history, old(Calm()))
      ensures old(Calm()) ==> Calm() && pages == old(pages)
      ensures |pages| == |old(pages)|
    {
      hide Run, Final;
      if edits != [] {
        var batch := edits[0];
        edits := edits[1..];
        for i := 0 to |batch|
          invariant Valid() && Grown(old(history), history, false)
          invariant |pages| == |old(pages)|
        {
          var c := batch[i];
          if c.page < |pages| && |c.data| == |pages[c.page].data| {
            ghost var before := Now();
            pages := pages[c.page := pages[c.page].(data := c.data)];
            Record(before, Edit(c.page, c.data));
          }
        }
      }
    }

    /** One `M` request: the device stores the chunk if it is in range and arrives. */
    method WriteChunk(p: nat, c: Chunk, ghost rest: seq<Chunk>, ghost todo: seq<nat>) returns (ok: bool)
      requires Valid() && phase == Writing(p, [c] + rest, todo)
      modifies this`ram, this`replies, this`phase, this`history
      ensures Valid() && phase == if ok then Acked(p, c, rest, todo) else PassPages([])
      ensures ok ==> history == old(history) + [WriteOk]
      ensures !ok ==> history == old(history) + [WriteFailed(true)] || history == old(history) + [WriteFailed(false)]
      ensures old(Calm()) ==> Calm()
      ensures old(CalmUpTo(p, c.off + |c.bytes|)) ==> ok
    {
      hide Apply, Run, Final;
      ghost var before := Now();
      WriteSteps(before, p, c, rest, todo, link);
      var r := NextReply();
      ok := r.Ok? && Accepts(ram[p], c);
      if !r.Lost? {
        ram := ram[p := Store(ram[p], c)];
      }
      phase := if ok then Acked(p, c, rest, todo) else PassPages([]);
      Record(before, if ok then WriteOk else WriteFailed(!r.Lost?));
    }

    /** No loss can happen to writes below `end` on page `p`. */
    ghost predicate CalmUpTo(p: nat, end: nat)
      reads this
    {
      Calm() && p < |sizes| && end <= sizes[p] <= 0x1_0000
    }

    /** The span was written: the shadow takes over the wanted bytes as they are now. */
    method MarkSent(p: nat, off: nat, len: nat)
      requires Valid() && phase.Acked? && phase.page == p && phase.chunk.off == off && |phase.chunk.bytes| == len
      modifies this`pages, this`phase, this`history
      ensures Valid() && phase == Writing(p, old(phase).chunks, old(phase).todo)
      ensures history == old(history) + [Mark]
      ensures |pages| == |old(pages)|
    {
      hide Run, Final;
      ghost var before := Now();
      var pg := pages[p];
      if off + len <= |pg.data| {
        pages := pages[p := pg.(ecu := Patch(pg.ecu, off, pg.data[off..off + len]))];
      }
      assert pages == before.pages[p := pg.MarkSent(off, len)];
      phase := Writing(p, phase.chunks, phase.todo);
      Record(before, Mark);
    }

    /** Write one chunk and, once it is acknowledged, mark it sent; clients may edit in between. */
    method SendChunk(p: nat, c: Chunk, ghost rest: seq<Chunk>, ghost todo: seq<nat>) returns (ok: bool)
      requires Valid() && phase == Writing(p, [c] + rest, todo)
      modifies this`pages, this`ram, this`edits, this`replies, this`phase, this`history
      ensures Valid() && phase == if ok then Writing(p, rest, todo) else PassPages([])
      ensures Grown(old(history), history, old(CalmUpTo(p, c.off + |c.bytes|)))
      ensures old(CalmUpTo(p, c.off + |c.bytes|)) ==> ok
      ensures old(Calm()) ==> Calm()
    {
      hide Comms.Valid, SyncMachine.Valid, Apply, Run, Final;
      ok := WriteChunk(p, c, rest, todo);
      if ok {
        Yield();
        MarkSent(p, c.off, |c.bytes|);
        Yield();
      }
    }

    /** Send one span in blocks; give up at the first failed write. */
    method SendSpan(p: nat, start: nat, bytes: Blob, ghost others: seq<Chunk>, ghost todo: seq<nat>) returns (ok: bool)
      requires Valid() && phase == Writing(p, Chunks(start, bytes, link.block) + others, todo)
      modifies this`pages, this`ram, this`edits, this`replies, this`phase, this`history
      ensures Valid() && phase == if ok then Writing(p, others, todo) else PassPages([])
      ensures Grown(old(history), history, old(CalmUpTo(p, start + |bytes|)))
      ensures old(CalmUpTo(p, start + |bytes|)) ==> ok
      ensures old(Calm()) ==> Calm()
    {
      hide Comms.Valid, SyncMachine.Valid, Apply, Run, Final, Comms.Calm;
      ghost var calm := CalmUpTo(p, start + |bytes|);
      assert bytes[0..] == bytes;
      var sent := 0;
      while sent < |bytes|
        invariant sent <= |bytes|
        invariant Valid() && phase == Writing(p, Chunks(start + sent, bytes[sent..], link.block) + others, todo)
        invariant Grown(old(history), history, calm)
        invariant old(Calm()) ==> Calm()
      {
        var n := if link.block <= |bytes| - sent then link.block else |bytes| - sent;
        var c := Chunk(start + sent, bytes[sent..sent + n]);
        NextChunk(start + sent, bytes[sent..], link.block, others);
        assert bytes[sent..][..n] == c.bytes && bytes[sent..][n..] == bytes[sent + n..];
        var written := SendChunk(p, c, Chunks(start + sent + n, bytes[sent + n..], link.block) + others, todo);
        if !written {
          return false;
        }
        sent := sent + n;
      }
      assert Chunks(start + sent, bytes[sent..], link.block) == [];
      assert [] + others == others;
      ok := true;
    }

    /** Send the spans of one snapshot. */
    method SendSpans(p: nat, data: Blob, spans: seq<Span>, ghost todo: seq<nat>) returns (ok: bool)
      requires Valid() && Within(spans, data)
      requires phase == Writing(p, ChunksOfSpans(data, spans, link.block), todo)
      modifies this`pages, this`ram, this`edits, this`replies, this`phase, this`history
      ensures Valid() && phase == if ok then Writing(p, [], todo) else PassPages([])
      ensures Grown(old(history), history, old(CalmUpTo(p, |data|)))
      ensures old(Calm()) ==> Calm()
      ensures old(CalmUpTo(p, |data|)) ==> ok
    {
      hide Comms.Valid, SyncMachine.Valid, Apply, Run, Final;
      ghost var calm := CalmUpTo(p, |data|);
      assert spans[0..] == spans;
      for k := 0 to |spans|
        invariant Valid() && phase == Writing(p, ChunksOfSpans(data, spans[k..], link.block), todo)
        invariant Grown(old(history), history, calm)
        invariant old(Calm()) ==> Calm()
      {
        assert spans[k..][1..] == spans[k + 1..];
        var sent := SendSpan(p, spans[k].start, data[spans[k].start..spans[k].end],
                             ChunksOfSpans(data, spans[k + 1..], link.block), todo);
        if !sent {
          return false;
        }
      }
      ok := true;
    }

    /** The checksum of the shadow, taken under the lock before the request goes out. */
    method HashShadow(p: nat) returns (expected: nat)
      requires Valid() && phase.Writing? && phase.page == p && phase.chunks == []
      modifies this`phase, this`history
      ensures Valid() && phase == Checking(p, expected, old(phase).todo) && history == old(history) + [Hash]
      ensures expected == link.checksum(pages[p].ecu)
    {
      hide Run, Final;
      ghost var before := Now();
      expected := link.checksum(pages[p].ecu);
      phase := Checking(p, expected, phase.todo);
      Record(before, Hash);
    }

    /** The `d` request and the comparison; `agreed` is None when no reply came. */
    method CompareWithDevice(p: nat, expected: nat) returns (answered: bool, agreed: bool)
      requires Valid() && phase.Checking? && phase.page == p && phase.expected == expected
      modifies this`replies, this`phase, this`history
      ensures Valid()
      ensures phase == if answered && !agreed then Rereading(p, old(phase).todo) else PassPages(old(phase).todo)
      ensures history == old(history) + [if answered then CrcReply else CrcFailed]
      ensures answered ==> (agreed <==> link.checksum(ram[p]) == expected)
      ensures old(Calm()) ==> answered && Calm()
    {
      hide Run, Final;
      ghost var before := Now();
      var r := NextReply();
      answered, agreed := r.Ok?, link.checksum(ram[p]) == expected;
      if answered && !agreed {
        phase := Rereading(p, phase.todo);
      } else {
        phase := PassPages(phase.todo);
      }
      Record(before, if answered then CrcReply else CrcFailed);
    }

    /** Download the page; `ok` is false when some reply was lost. */
    method ReadPage(p: nat) returns (ok: bool, bytes: Blob)
      requires Valid() && phase.Rereading? && phase.page == p
      modifies this`replies, this`phase, this`history
      ensures Valid()
      ensures phase == if ok then Installing(p, bytes, old(phase).todo) else PassPages(old(phase).todo)
      ensures history == old(history) + [if ok then PageRead else PageReadFailed]
      ensures old(Calm()) ==> ok && Calm()
    {
      hide Run, Final;
      ghost var before := Now();
      var r := NextReply();
      ok, bytes := r.Ok?, ram[p];
      phase := if ok then Installing(p, bytes, phase.todo) else PassPages(phase.todo);
      Record(before, if ok then PageRead else PageReadFailed);
    }

    /** The ECU disagreed: its image becomes the shadow, pending edits stay pending. */
    method ResyncEcu(p: nat, bytes: Blob)
      requires Valid() && phase.Installing? && phase.page == p && phase.bytes == bytes
      modifies this`pages, this`phase, this`history
      ensures Valid() && phase == PassPages(old(phase).todo) && history == old(history) + [Resync]
      ensures pages == old(pages)[p := old(pages)[p].(ecu := bytes)]
    {
      hide Run, Final;
      ghost var before := Now();
      pages := pages[p := pages[p].(ecu := bytes)];
      phase := PassPages(phase.todo);
      Record(before, Resync);
    }

    /** Re-download a page that failed verification; when a reply is lost the shadow stays as it is. */
    method RepairPage(p: nat)
      requires Valid() && phase.Rereading? && phase.page == p
      modifies this`pages, this`edits, this`replies, this`phase, this`history
      ensures Valid() && phase == PassPages(old(phase).todo)
      ensures Grown(old(history), history, old(Calm())) && (old(Calm()) ==> Calm())
    {
      hide Comms.Valid, SyncMachine.Valid, Apply, Run, Final;
      var ok, bytes := ReadPage(p);
      if ok {
        Yield();
        ResyncEcu(p, bytes);
      }
    }

    /** Verify a page after its writes; on a mismatch re-download it. */
    method VerifyPage(p: nat)
      requires Valid() && phase.Writing? && phase.page == p && phase.chunks == []
      modifies this`pages, this`edits, this`replies, this`phase, this`history
      ensures Valid() && phase == PassPages(old(phase).todo)
      ensures Grown(old(history), history, old(Calm())) && (old(Calm()) ==> Calm())
    {
      hide Comms.Valid, SyncMachine.Valid, Apply, Run, Final;
      var expected := HashShadow(p);
      Yield();
      var answered, agreed := CompareWithDevice(p, expected);
      if answered && !agreed {
        Yield();
        RepairPage(p);
      }
    }

    /** The pages that are dirty, or with `burn` the pages waiting to be burned. */
    method ListPages(burn: bool) returns (list: seq<nat>)
      ensures list == PagesWanted(pages, |pages|, burn)
    {
      hide Wanted, Comms.Valid;
      list := [];
      for i := 0 to |pages|
        invariant list == PagesWanted(pages, i, burn)
      {
        if Wanted(pages[i], burn) {
          list := list + [i];
        }
      }
    }

    /** Take the dirty spans of the next page under the lock. */
    method TakeSpans(p: nat) returns (data: Blob, spans: seq<Span>)
      requires Valid() && phase.PassPages? && phase.todo != [] && phase.todo[0] == p
      modifies this`phase, this`history
      ensures Valid() && Within(spans, data) && history == old(history) + [Snapshot]
      ensures p < |pages| && data == pages[p].data && IsCoalescing(spans, data, pages[p].ecu, SPAN_MERGE_GAP, 0, |data|)
      ensures phase == Writing(p, ChunksOfSpans(data, spans, link.block), old(phase).todo[1..])
      ensures p < |sizes| && sizes[p] == |data|
    {
      hide Run, Final;
      ghost var before := Now();
      data := pages[p].data;
      spans := ScanSpans(data, pages[p].ecu, SPAN_MERGE_GAP);
      phase := Writing(p, ChunksOfSpans(data, spans, link.block), phase.todo[1..]);
      Record(before, Snapshot);
    }

    /** List the pages to visit and begin a pass over them. */
    method BeginFlush(ghost burn: bool) returns (dirty: seq<nat>)
      requires Valid() && phase.Idle?
      modifies this`phase, this`burning, this`history
      ensures Valid() && phase == PassPages(dirty) && burning == burn
      ensures history == old(history) + [if burn then StartBurn else StartFlush]
    {
      hide Run, Final;
      ghost var before := Now();
      dirty := ListPages(false);
      phase, burning := PassPages(dirty), burn;
      Record(before, if burn then StartBurn else StartFlush);
    }

    /** The pass is over; a burn request goes on with the pages waiting for EEPROM. */
    ghost method EndFlush()
      requires Valid() && phase == PassPages([])
      modifies this`phase, this`history
      ensures Valid() && phase == if burning then Phase.Burning(PendingPages(pages), []) else Idle
      ensures history == old(history) + [PassDone]
    {
      var before := Now();
      phase := if burning then Phase.Burning(PendingPages(pages), []) else Idle;
      Record(before, PassDone);
    }

    /** Visit one page: write its spans, then verify it. */
    method FlushPage(p: nat) returns (ok: bool)
      requires Valid() && phase.PassPages? && phase.todo != [] && phase.todo[0] == p
      modifies this`pages, this`ram, this`edits, this`replies, this`phase, this`history
      ensures Valid() && phase == PassPages(if ok then old(phase).todo[1..] else [])
      ensures Grown(old(history), history, old(CalmUpTo(p, 0)))
      ensures old(Calm()) ==> Calm()
      ensures old(CalmUpTo(p, 0)) ==> ok
    {
      hide Comms.Valid, SyncMachine.Valid, Apply, Run, Final;
      var data, spans := TakeSpans(p);
      Yield();
      ok := SendSpans(p, data, spans, phase.todo);
      if ok {
        VerifyPage(p);
      }
    }

    /** No page is too long for 16-bit offsets. */
    ghost predicate AllSmall() {
      forall p :: 0 <= p < |sizes| ==> sizes[p] <= 0x1_0000
    }

    /**
     Send every dirty page and verify it. Whatever clients and the line do, the
     thread performs exactly one pass of the step system; if nothing interferes,
     every page ends up as `Pass` says.
     */
    method FlushDirty(ghost burn: bool)
      requires Valid() && phase.Idle?
      modifies this`pages, this`ram, this`edits, this`replies, this`phase, this`burning, this`history
      ensures Valid()
      ensures !loaded ==> Now() == old(Now()) && history == old(history)
      ensures loaded ==> Passed(old(history), history, if burn then StartBurn else StartFlush, old(Calm()) && AllSmall())
      ensures loaded ==> phase == if burn then Phase.Burning(PendingPages(pages), []) else Idle
      ensures loaded && !burn && old(Calm()) && AllSmall() ==>
        |pages| == |old(pages)| && forall p :: 0 <= p < |pages| ==> ViewOf(Now(), p) == Pass(old(ViewOf(Now(), p)), link)
    {
      if loaded {
        Sound();
        ghost var before, earlier := Now(), history;
        RunPass(burn);
        if !burn && old(Calm()) && AllSmall() {
          CalmFlush(before, earlier);
        }
      }
    }

    method RunPass(ghost burn: bool)
      requires Valid() && phase.Idle?
      modifies this`pages, this`ram, this`edits, this`replies, this`phase, this`burning, this`history
      ensures Valid()
      ensures Passed(old(history), history, if burn then StartBurn else StartFlush, old(Calm()) && AllSmall())
      ensures phase == if burn then Phase.Burning(PendingPages(pages), []) else Idle
    {
      hide Comms.Valid, SyncMachine.Valid, Apply, Run, Final;
      var dirty := BeginFlush(burn);
      VisitPages(dirty);
      ghost var during := history;
      EndFlush();
      assert history[..|history| - 1] == during;
    }

    lemma CalmFlush(before: State, earlier: seq<Event>)
      requires Valid() && Run(origin, earlier, link) && Final(origin, earlier, link) == before
      requires Passed(earlier, history, StartFlush, true) && before.phase.Idle? && phase.Idle?
      ensures SyncMachine.Valid(before) && SyncMachine.Valid(Now())
      ensures |pages| == |before.pages|
      ensures forall p :: 0 <= p < |pages| ==> ViewOf(Now(), p) == Pass(ViewOf(before, p), link)
    {
      hide Comms.Valid, SyncMachine.Valid, Apply, Run, Final, Pass, ViewOf;
      Sound();
      assert history[..|history| - 1] + [PassDone] == history;
      forall p | 0 <= p < |before.pages|
        ensures p < |pages| && ViewOf(Now(), p) == Pass(ViewOf(before, p), link)
      {
        FlushIsPass(origin, earlier, history, link, p);
      }
      SameCount(origin, earlier, history, link);
    }

    lemma Sound()
      requires Valid()
      ensures SyncMachine.Valid(origin) && Run(origin, history, link) && Final(origin, history, link) == Now()
      ensures SyncMachine.Valid(Now())
    {
    }

    /** The loop over the dirty pages; the first failed write abandons the rest. */
    method VisitPages(dirty: seq<nat>)
      requires Valid() && phase == PassPages(dirty)
      modifies this`pages, this`ram, this`edits, this`replies, this`phase, this`history
      ensures Valid() && phase == PassPages([])
      ensures Grown(old(history), history, old(Calm()) && AllSmall())
    {
      ghost var calm := Calm() && AllSmall();
      assert dirty[0..] == dirty;
      for i := 0 to |dirty|
        invariant Valid() && phase == PassPages(dirty[i..])
        invariant Grown(old(history), history, calm)
        invariant calm ==> Calm()
      {
        InRangeOfSizes(i, dirty);
        Yield();
        var ok := FlushPage(dirty[i]);
        assert dirty[i..][1..] == dirty[i + 1..];
        if !ok {
          return;
        }
      }
      assert dirty[|dirty|..] == [];
      Yield();
    }

    lemma InRangeOfSizes(i: nat, dirty: seq<nat>)
      requires Valid() && i < |dirty| && phase == PassPages(dirty[i..])
      ensures dirty[i] < |sizes|
    {
      assert dirty[i..][0] == dirty[i];
    }

    /** One burn request; the device copies RAM to EEPROM if it arrives. */
    method BurnPage(p: nat) returns (ok: bool)
      requires Valid() && phase.Burning? && phase.pending != [] && phase.pending[0] == p
      modifies this`eeprom, this`replies, this`phase, this`outcome, this`history
      ensures Valid()
      ensures phase == if ok then BurnAcked(p, old(phase).pending[1..], old(phase).done) else Idle
      ensures ok ==> history == old(history) + [BurnReply] && outcome == old(outcome)
      ensures !ok ==> outcome == BurnErr(p)
      ensures !ok ==> history == old(history) + [BurnFailed(true)] || history == old(history) + [BurnFailed(false)]
    {
      hide Run, Final, Outgoing, Store, DirtyPages, PendingPages;
      ghost var before := Now();
      var r := NextReply();
      ok := r.Ok?;
      if !r.Lost? {
        eeprom := eeprom[p := ram[p]];
      }
      if ok {
        phase := BurnAcked(p, phase.pending[1..], phase.done);
        Record(before, BurnReply);
      } else {
        phase, outcome := Idle, BurnErr(p);
        Record(before, BurnFailed(!r.Lost?));
      }
    }

    /** EEPROM now matches RAM: the third copy takes over the shadow. */
    method MarkBurned(p: nat)
      requires Valid() && phase.BurnAcked? && phase.page == p
      modifies this`pages, this`phase, this`history
      ensures Valid() && phase == Phase.Burning(old(phase).pending, old(phase).done + [p])
      ensures history == old(history) + [Event.MarkBurned]
    {
      hide Run, Final;
      ghost var before := Now();
      pages := pages[p := pages[p].(burned := pages[p].ecu)];
      phase := Phase.Burning(phase.pending, phase.done + [p]);
      Record(before, Event.MarkBurned);
    }

    ghost method FinishBurn()
      requires Valid() && phase.Burning? && phase.pending == []
      modifies this`phase, this`outcome, this`history
      ensures Valid() && phase == Idle && outcome == BurnOk(old(phase).done) && history == old(history) + [BurnDone]
    {
      var before := Now();
      phase, outcome := Idle, BurnOk(phase.done);
      Record(before, BurnDone);
    }

    /** Burn the pending pages in order, stopping at the first failure. */
    method BurnPages(pending: seq<nat>, ghost before: seq<Event>) returns (r: BurnResult)
      requires Valid() && phase == Phase.Burning(pending, []) && BurnUnderWay(before, history)
      modifies this`pages, this`eeprom, this`edits, this`replies, this`phase, this`outcome, this`history
      ensures Valid() && phase.Idle? && !r.NotLoaded?
      ensures |history| > 0 && BurnUnderWay(before, history[..|history| - 1])
      ensures r.AllBurned? ==> history[|history| - 1] == BurnDone && outcome == BurnOk(r.pages)
      ensures r.FailedAt? ==> history[|history| - 1].BurnFailed? && outcome == BurnErr(r.page)
    {
      hide Comms.Valid, SyncMachine.Valid, Apply, Run, Final;
      var burned: seq<nat> := [];
      assert pending[0..] == pending;
      for i := 0 to |pending|
        invariant Valid() && phase == Phase.Burning(pending[i..], burned)
        invariant BurnUnderWay(before, history)
      {
        assert pending[i..][1..] == pending[i + 1..];
        Yield();
        var ok := BurnPage(pending[i]);
        if !ok {
          return FailedAt(pending[i]);
        }
        Yield();
        MarkBurned(pending[i]);
        burned := burned + [pending[i]];
      }
      assert pending[|pending|..] == [];
      FinishBurn();
      r := AllBurned(burned);
    }

    /**
     Flush, then burn every page whose RAM differs from EEPROM. The thread
     performs exactly the steps of one burn request; if shadows were truthful,
     every flush reply came and no checksum lied, success means that EEPROM, RAM
     and both shadows agree everywhere and the report names the changed pages, and
     failure means that the pages before the failing one are burned and the pages
     after it untouched.
     */
    method DoBurn() returns (r: BurnResult, ghost es: seq<Event>)
      requires Valid() && phase.Idle?
      modifies this`pages, this`ram, this`eeprom, this`edits, this`replies, this`phase, this`burning, this`outcome, this`history
      ensures Valid() && phase.Idle? && (r.NotLoaded? <==> !loaded)
      ensures r.NotLoaded? ==> Now() == old(Now())
      ensures !r.NotLoaded? ==> Requests(r, old(Now()), es, Now(), link)
      ensures !r.NotLoaded? && Truthful(old(Now()), es, link) ==> Means(r, Now(), old(eeprom))
    {
      hide Comms.Valid, SyncMachine.Valid, Apply, Run, Final, BurnRequest, Truthful, Means, Passed, BurnUnderWay, PagesWanted, Comms.Calm, Comms.AllSmall;
      Sound();
      es := [];
      if !loaded {
        return NotLoaded, es;
      }
      ghost var before, earlier := Now(), history;
      RunPass(true);
      PassedInsideBurn(earlier, history, old(Calm()) && AllSmall());
      var pending := ListPages(true);
      r := BurnPages(pending, earlier);
      es := BurnReport(before, earlier);
      RequestMeans(r, before, es, Now(), link);
    }

    /** The history since `before` is one burn request, cut at its report. */
    lemma BurnReport(before: State, earlier: seq<Event>) returns (es: seq<Event>)
      requires Valid() && Run(origin, earlier, link) && Final(origin, earlier, link) == before
      requires |history| > 0 && BurnUnderWay(earlier, history[..|history| - 1])
      ensures BurnRequest(before, es, history[|history| - 1], Now(), link)
    {
      hide Comms.Valid, SyncMachine.Valid, Apply, Run, Final, BurnRequest;
      Sound();
      RequestSlices(earlier, history);
      es := history[|earlier| + 1..|history| - 1];
      RequestOf(origin, earlier, history, link);
    }
  }

  lemma WriteSteps(s: State, p: nat, c: Chunk, rest: seq<Chunk>, todo: seq<nat>, link: Link)
    requires SyncMachine.Valid(s) && s.phase == Writing(p, [c] + rest, todo)
    ensures Enabled(s, WriteFailed(false)) && Apply(s, WriteFailed(false), link) == s.(phase := PassPages([]))
    ensures Enabled(s, WriteFailed(true))
    ensures Apply(s, WriteFailed(true), link) == s.(ram := s.ram[p := Store(s.ram[p], c)], phase := PassPages([]))
    ensures Accepts(s.ram[p], c) ==> Enabled(s, WriteOk)
    ensures Accepts(s.ram[p], c) ==>
      Apply(s, WriteOk, link) == s.(ram := s.ram[p := Store(s.ram[p], c)], phase := Acked(p, c, rest, todo))
  {
    assert ([c] + rest)[0] == c && ([c] + rest)[1..] == rest;
  }

  lemma NextChunk(off: nat, bytes: Blob, block: nat, others: seq<Chunk>)
    requires block > 0 && bytes != []
    ensures var n := if block <= |bytes| then block else |bytes|;
      Chunks(off, bytes, block) + others == [Chunk(off, bytes[..n])] + (Chunks(off + n, bytes[n..], block) + others)
  {
    if |bytes| <= block {
      assert bytes[..|bytes|] == bytes && bytes[|bytes|..] == [];
    }
  }

  lemma {:induction false} RunSplit(s: State, a: seq<Event>, b: seq<Event>, link: Link)
    requires SyncMachine.Valid(s) && Run(s, a + b, link)
    ensures Run(s, a, link) && Run(Final(s, a, link), b, link)
    ensures Final(s, a + b, link) == Final(Final(s, a, link), b, link)
    decreases |a|
  {
    if a == [] {
      assert a + b == b;
    } else {
      assert (a + b)[1..] == a[1..] + b && (a + b)[0] == a[0];
      RunSplit(Apply(s, a[0], link), a[1..], b, link);
    }
  }

  /** A calm flush leaves every page as `Pass` says. */
  lemma FlushIsPass(origin: State, before: seq<Event>, after: seq<Event>, link: Link, p: nat)
    requires SyncMachine.Valid(origin) && Run(origin, after, link) && Run(origin, before, link)
    requires |before| + 2 <= |after| && before + [StartFlush] <= after
    requires forall k :: |before| < k < |after| ==> Quiet(after[k])
    requires Final(origin, before, link).phase.Idle? && Final(origin, after, link).phase.Idle?
    requires p < |Final(origin, before, link).pages|
    ensures p < |Final(origin, after, link).pages|
    ensures ViewOf(Final(origin, after, link), p) == Pass(ViewOf(Final(origin, before, link), p), link)
  {
    var s, es := Final(origin, before, link), after[|before| + 1..];
    StartsWith(origin, before, StartFlush, after, link);
    hide Apply, Run, Final, Pass, ViewOf, SyncMachine.Valid;
    PassRuns(s, es, link, p);
  }

  lemma SameCount(origin: State, before: seq<Event>, after: seq<Event>, link: Link)
    requires SyncMachine.Valid(origin) && Run(origin, before, link) && Run(origin, after, link)
    ensures |Final(origin, before, link).pages| == |Final(origin, after, link).pages|
  {
    RunKeepsPages(origin, before, link);
    RunKeepsPages(origin, after, link);
  }

  lemma RequestSlices(earlier: seq<Event>, history: seq<Event>)
    requires |history| > 0 && BurnUnderWay(earlier, history[..|history| - 1])
    ensures |earlier| + 2 <= |history| && earlier + [StartBurn] <= history
    ensures AllInsideBurn(history[|earlier| + 1..|history| - 1])
  {
    var inner, es := history[..|history| - 1], history[|earlier| + 1..|history| - 1];
    assert inner <= history;
    forall k | 0 <= k < |es| ensures InsideBurn(es[k]) {
      assert es[k] == inner[|earlier| + 1 + k];
    }
  }

  lemma RequestOf(origin: State, earlier: seq<Event>, history: seq<Event>, link: Link)
    requires SyncMachine.Valid(origin) && Run(origin, earlier, link) && Run(origin, history, link)
    requires |earlier| + 2 <= |history| && earlier + [StartBurn] <= history
    requires AllInsideBurn(history[|earlier| + 1..|history| - 1])
    ensures BurnRequest(Final(origin, earlier, link), history[|earlier| + 1..|history| - 1], history[|history| - 1],
                        Final(origin, history, link), link)
  {
    hide Apply, Run, Final, SyncMachine.Valid;
    var before, es, last := Final(origin, earlier, link), history[|earlier| + 1..|history| - 1], history[|history| - 1];
    StartsWith(origin, earlier, StartBurn, history, link);
    assert history[|earlier| + 1..] == es + [last];
    RunSplit(Apply(before, StartBurn, link), es, [last], link);
    LastStep(Final(Apply(before, StartBurn, link), es, link), last, link);
  }

  lemma LastStep(s: State, e: Event, link: Link)
    requires SyncMachine.Valid(s) && Run(s, [e], link)
    ensures Enabled(s, e) && Final(s, [e], link) == Apply(s, e, link)
  {
    assert [e][1..] == [];
  }

  /** Cut a history after `before` and its next event. */
  lemma StartsWith(origin: State, before: seq<Event>, e: Event, after: seq<Event>, link: Link)
    requires SyncMachine.Valid(origin) && Run(origin, after, link) && before + [e] <= after
    ensures Run(origin, before, link)
    ensures var s, es := Final(origin, before, link), after[|before| + 1..];
      && Enabled(s, e) && Run(Apply(s, e, link), es, link)
      && Final(origin, after, link) == Final(Apply(s, e, link), es, link)
  {
    var es := after[|before| + 1..];
    assert after == before + ([e] + es);
    RunSplit(origin, before, [e] + es, link);
    assert ([e] + es)[1..] == es;
  }

  lemma {:induction false} RunKeepsPages(s: State, es: seq<Event>, link: Link)
    requires SyncMachine.Valid(s) && Run(s, es, link)
    ensures |Final(s, es, link).pages| == |s.pages|
    decreases |es|
  {
    if es == [] {
    } else {
      StepKeepsPages(s, es[0], link);
      RunKeepsPages(Apply(s, es[0], link), es[1..], link);
    }
  }

  lemma {:induction false} RunAppend(s: State, es: seq<Event>, e: Event, link: Link)
    requires SyncMachine.Valid(s) && Run(s, es, link) && Enabled(Final(s, es, link), e)
    ensures Run(s, es + [e], link) && Final(s, es + [e], link) == Apply(Final(s, es, link), e, link)
    decreases |es|
  {
    if es == [] {
      assert [] + [e] == [e] && [e][1..] == [];
    } else {
      assert (es + [e])[1..] == es[1..] + [e];
      RunAppend(Apply(s, es[0], link), es[1..], e, link);
    }
  }
}
