/**
 A whole burn request: flush, then copy every pending page to EEPROM, with edits
 landing at any point in between.
 */
module SyncBurn {
  import opened Bytes
  import opened SyncMachine
  import opened SyncSafety

  /** Events inside a burn request, before it reports success or failure. */
  predicate InsideBurn(e: Event) {
    !e.StartFlush? && !e.StartBurn? && !e.BurnDone? && !e.BurnFailed?
  }

  predicate AllInsideBurn(es: seq<Event>) {
    forall k :: 0 <= k < |es| ==> InsideBurn(es[k])
  }

  /** The four copies of page `p` other than the wanted bytes agree. */
  ghost predicate Burned(s: State, p: nat)
    requires Valid(s) && p < |s.pages|
  {
    s.eeprom[p] == s.ram[p] == s.pages[p].ecu == s.pages[p].burned
  }

  /** Page `p` has the EEPROM contents it had when the request came in, and the shadow says so. */
  ghost predicate Untouched(s: State, p: nat, eeprom: seq<Blob>)
    requires Valid(s) && p < |s.pages| <= |eeprom|
  {
    s.eeprom[p] == eeprom[p] == s.pages[p].burned
  }

  /** The pages of this request: those whose RAM differs from the old EEPROM. */
  ghost predicate IsWorkList(s: State, list: seq<nat>, eeprom: seq<Blob>)
    requires Valid(s) && |s.pages| <= |eeprom|
  {
    && Increasing(list)
    && InRange(list, |s.pages|)
    && forall p :: 0 <= p < |s.pages| ==> (p in list <==> s.pages[p].ecu != eeprom[p])
  }

  function WorkList(ph: Phase): seq<nat>
    requires ph.Burning? || ph.BurnAcked?
  {
    if ph.Burning? then ph.done + ph.pending else ph.done + [ph.page] + ph.pending
  }

  /** Nothing has been burned yet, or exactly the pages on the done list have. */
  ghost predicate Progress(s: State, eeprom: seq<Blob>)
    requires Valid(s) && |s.pages| <= |eeprom|
  {
    && !s.phase.Idle? && s.burning
    && if s.phase.Burning? || s.phase.BurnAcked? then
         && IsWorkList(s, WorkList(s.phase), eeprom)
         && (forall p :: 0 <= p < |s.pages| && p in s.phase.done ==> s.eeprom[p] == s.ram[p] && s.pages[p].burned == s.pages[p].ecu)
         && (forall p :: 0 <= p < |s.pages| && p !in s.phase.done ==>
           && s.pages[p].burned == eeprom[p]
           && s.eeprom[p] == if s.phase.BurnAcked? && s.phase.page == p then s.ram[p] else eeprom[p])
       else
         forall p :: 0 <= p < |s.pages| ==> Untouched(s, p, eeprom)
  }

  lemma PendingIsWorkList(s: State, eeprom: seq<Blob>)
    requires Valid(s) && |s.pages| <= |eeprom|
    requires forall p :: 0 <= p < |s.pages| ==> Untouched(s, p, eeprom)
    ensures IsWorkList(s, PendingPages(s.pages), eeprom)
  {
    var list := PendingPages(s.pages);
    forall p | 0 <= p < |s.pages| ensures p in list <==> s.pages[p].ecu != eeprom[p] {
      assert Untouched(s, p, eeprom);
      assert s.pages[p].BurnPending() ==> Wanted(s.pages[p], true);
      if p in list {
        var k :| 0 <= k < |list| && list[k] == p;
        assert Wanted(s.pages[list[k]], true);
      }
    }
  }

  lemma FlushKeepsUntouched(s: State, e: Event, link: Link, eeprom: seq<Blob>, p: nat)
    requires Valid(s) && Enabled(s, e) && p < |s.pages| == |eeprom|
    requires !s.phase.Burning? && !s.phase.BurnAcked? && Untouched(s, p, eeprom)
    ensures |Apply(s, e, link).pages| == |s.pages| && Untouched(Apply(s, e, link), p, eeprom)
  {
  }

  lemma FlushKeepsPhase(s: State, e: Event, link: Link)
    requires Valid(s) && Enabled(s, e) && InsideBurn(e)
    requires !s.phase.Idle? && !s.phase.Burning? && !s.phase.BurnAcked? && s.burning
    ensures var r := Apply(s, e, link);
      && |r.pages| == |s.pages| && !r.phase.Idle? && r.burning
      && (e.PassDone? ==> r.phase == Burning(PendingPages(s.pages), []) && r.pages == s.pages)
      && (!e.PassDone? ==> !r.phase.Burning? && !r.phase.BurnAcked?)
  {
  }

  lemma Sizes(s: State)
    requires Valid(s)
    ensures |s.eeprom| == |s.pages|
  {
  }

  lemma FlushKeepsProgress(s: State, e: Event, link: Link, eeprom: seq<Blob>)
    requires Valid(s) && Enabled(s, e) && |s.pages| == |eeprom|
    requires !s.phase.Burning? && !s.phase.BurnAcked? && Progress(s, eeprom) && InsideBurn(e)
    ensures |Apply(s, e, link).pages| == |eeprom| && Progress(Apply(s, e, link), eeprom)
  {
    hide Apply, Valid, Enabled, PhaseInRange, DirtyPages;
    FlushKeepsPhase(s, e, link);
    forall p | 0 <= p < |s.pages| ensures Untouched(Apply(s, e, link), p, eeprom) {
      assert Untouched(s, p, eeprom);
      FlushKeepsUntouched(s, e, link, eeprom, p);
    }
    if e.PassDone? {
      PendingIsWorkList(s, eeprom);
      var r := Apply(s, e, link);
      assert WorkList(r.phase) == PendingPages(s.pages);
      assert IsWorkList(r, WorkList(r.phase), eeprom);
      Sizes(r);
      forall p | 0 <= p < |r.pages| ensures r.pages[p].burned == eeprom[p] && r.eeprom[p] == eeprom[p] {
        assert Untouched(r, p, eeprom);
      }
    }
  }

  lemma BurnKeepsProgress(s: State, e: Event, link: Link, eeprom: seq<Blob>)
    requires Valid(s) && Enabled(s, e) && |s.pages| == |eeprom|
    requires (s.phase.Burning? || s.phase.BurnAcked?) && Progress(s, eeprom) && InsideBurn(e)
    ensures |Apply(s, e, link).pages| == |eeprom| && Progress(Apply(s, e, link), eeprom)
  {
    hide Apply, Progress, Valid;
    match e
    case BurnReply => ReplyKeepsProgress(s, link, eeprom);
    case MarkBurned => MarkKeepsProgress(s, link, eeprom);
    case Edit(p, data) => EditKeepsProgress(s, p, data, link, eeprom);
  }

  lemma ReplyKeepsProgress(s: State, link: Link, eeprom: seq<Blob>)
    requires Valid(s) && Enabled(s, BurnReply) && |s.pages| == |eeprom| && Progress(s, eeprom)
    ensures |Apply(s, BurnReply, link).pages| == |eeprom| && Progress(Apply(s, BurnReply, link), eeprom)
  {
    var r, list := Apply(s, BurnReply, link), WorkList(s.phase);
    assert WorkList(r.phase) == list && list[|s.phase.done|] == s.phase.pending[0];
    assert IsWorkList(r, list, eeprom);
  }

  lemma MarkKeepsProgress(s: State, link: Link, eeprom: seq<Blob>)
    requires Valid(s) && Enabled(s, MarkBurned) && |s.pages| == |eeprom| && Progress(s, eeprom)
    ensures |Apply(s, MarkBurned, link).pages| == |eeprom| && Progress(Apply(s, MarkBurned, link), eeprom)
  {
    var r, list := Apply(s, MarkBurned, link), WorkList(s.phase);
    assert WorkList(r.phase) == list && list[|s.phase.done|] == s.phase.page;
    assert IsWorkList(r, list, eeprom);
  }

  lemma EditKeepsProgress(s: State, p: nat, data: Blob, link: Link, eeprom: seq<Blob>)
    requires Valid(s) && Enabled(s, Edit(p, data)) && |s.pages| == |eeprom|
    requires (s.phase.Burning? || s.phase.BurnAcked?) && Progress(s, eeprom)
    ensures var r := Apply(s, Edit(p, data), link); |r.pages| == |eeprom| && Progress(r, eeprom)
  {
    assert IsWorkList(Apply(s, Edit(p, data), link), WorkList(s.phase), eeprom);
  }

  /** Progress and truthful shadows hold at every point of a request whose flush is answered. */
  lemma {:induction false} ProgressAlways(s: State, es: seq<Event>, link: Link, eeprom: seq<Blob>)
    requires Valid(s) && Run(s, es, link) && |s.pages| == |eeprom|
    requires Progress(s, eeprom) && AllInsideBurn(es)
    ensures |Final(s, es, link).pages| == |eeprom| && Progress(Final(s, es, link), eeprom)
    decreases |es|
  {
    if es == [] {
    } else {
      if s.phase.Burning? || s.phase.BurnAcked? {
        BurnKeepsProgress(s, es[0], link, eeprom);
      } else {
        FlushKeepsProgress(s, es[0], link, eeprom);
      }
      ProgressAlways(Apply(s, es[0], link), es[1..], link, eeprom);
    }
  }

  /** The shadows tell the truth about the device and no request is under way. */
  ghost predicate Ready(s: State)
    requires Valid(s)
  {
    s.phase.Idle? && AllInSync(s) && forall p :: 0 <= p < |s.pages| ==> s.pages[p].burned == s.eeprom[p]
  }

  /** The state in which a request that started in `s` and saw `es` reports. */
  function Requested(s: State, es: seq<Event>, link: Link): (r: State)
    requires Valid(s) && Enabled(s, StartBurn)
    requires Run(Apply(s, StartBurn, link), es, link)
    ensures Valid(r)
  {
    Final(Apply(s, StartBurn, link), es, link)
  }

  lemma RequestProgress(s: State, es: seq<Event>, link: Link)
    requires Valid(s) && Ready(s)
    requires Run(Apply(s, StartBurn, link), es, link) && AllInsideBurn(es) && AllAnswered(es)
    requires NoCollisions(Apply(s, StartBurn, link), es, link)
    ensures var r := Requested(s, es, link);
      |r.pages| == |s.pages| && Progress(r, s.eeprom) && OthersInSync(r)
  {
    var t := Apply(s, StartBurn, link);
    forall p | 0 <= p < |t.pages| ensures InSync(t, p) {
      assert InSync(s, p);
    }
    AnsweredPassesStayInSync(t, es, link);
    ProgressAlways(t, es, link, s.eeprom);
  }

  /** With nothing pending, every page is burned and the done list tells which ones changed. */
  lemma NothingPending(r: State, eeprom: seq<Blob>)
    requires Valid(r) && |r.pages| == |eeprom|
    requires Progress(r, eeprom) && OthersInSync(r) && r.phase.Burning? && r.phase.pending == []
    ensures Increasing(r.phase.done)
    ensures forall p :: 0 <= p < |r.pages| ==> Burned(r, p)
    ensures forall p: nat :: p in r.phase.done <==> p < |r.pages| && r.eeprom[p] != eeprom[p]
  {
    assert WorkList(r.phase) == r.phase.done;
    forall p | 0 <= p < |r.pages|
      ensures Burned(r, p) && (p in r.phase.done <==> r.eeprom[p] != eeprom[p])
    {
      assert InSync(r, p);
      assert p in r.phase.done <==> r.pages[p].ecu != eeprom[p];
    }
  }

  /** Whatever is pending, the pages before the next one are burned and those after it untouched. */
  lemma NextPending(r: State, eeprom: seq<Blob>, p: nat)
    requires Valid(r) && |r.pages| == |eeprom| && p < |r.pages|
    requires Progress(r, eeprom) && OthersInSync(r) && r.phase.Burning? && r.phase.pending != []
    ensures p < r.phase.pending[0] ==> Burned(r, p)
    ensures p >= r.phase.pending[0] ==> Untouched(r, p, eeprom)
  {
    var list, n := WorkList(r.phase), |r.phase.done|;
    assert list[n] == r.phase.pending[0];
    assert InSync(r, p);
    assert forall i :: 0 <= i < n ==> list[i] in r.phase.done by {
      assert forall i :: 0 <= i < n ==> list[i] == r.phase.done[i];
    }
    if p in r.phase.done {
      var k :| 0 <= k < n && r.phase.done[k] == p;
      assert list[k] == p;
    } else if p in list {
      var k :| 0 <= k < |list| && list[k] == p;
      assert k >= n;
    }
  }

  /** What a successful burn request that began with EEPROM contents `eeprom` leaves behind. */
  ghost predicate Success(f: State, eeprom: seq<Blob>)
    requires Valid(f)
  {
    && f.outcome.BurnOk? && Increasing(f.outcome.pages)
    && |f.pages| == |eeprom|
    && (forall p :: 0 <= p < |f.pages| ==> Burned(f, p))
    && (forall p: nat :: p in f.outcome.pages <==> p < |f.pages| && f.eeprom[p] != eeprom[p])
  }

  /**
   A burn request that succeeds: EEPROM, RAM and both shadows agree on every
   page, and the pages it reports are, in order, exactly those whose EEPROM
   contents it changed.
   */
  lemma BurnSucceeds(s: State, es: seq<Event>, link: Link)
    requires Valid(s) && Ready(s)
    requires Run(Apply(s, StartBurn, link), es, link) && AllInsideBurn(es) && AllAnswered(es)
    requires NoCollisions(Apply(s, StartBurn, link), es, link)
    requires Enabled(Requested(s, es, link), BurnDone)
    ensures Success(Apply(Requested(s, es, link), BurnDone, link), s.eeprom)
  {
    RequestProgress(s, es, link);
    SuccessFrom(Requested(s, es, link), s.eeprom, link);
  }

  lemma SuccessFrom(r: State, eeprom: seq<Blob>, link: Link)
    requires Valid(r) && |r.pages| == |eeprom|
    requires Progress(r, eeprom) && OthersInSync(r) && Enabled(r, BurnDone)
    ensures Success(Apply(r, BurnDone, link), eeprom)
  {
    NothingPending(r, eeprom);
    var f := Apply(r, BurnDone, link);
    forall p | 0 <= p < |f.pages| ensures Burned(f, p) {
      assert Burned(r, p);
    }
  }

  /** What a burn request that failed at some page leaves behind. */
  ghost predicate Failure(f: State, eeprom: seq<Blob>, applied: bool)
    requires Valid(f)
  {
    && f.outcome.BurnErr? && f.outcome.page < |f.pages| == |eeprom|
    && var q := f.outcome.page;
    && (forall p :: 0 <= p < q ==> Burned(f, p))
    && (forall p :: q < p < |f.pages| ==> Untouched(f, p, eeprom))
    && f.pages[q].burned == eeprom[q]
    && f.eeprom[q] == if applied then f.ram[q] else eeprom[q]
  }

  /**
   A burn request that fails at a page: every page before it is burned, every
   page after it keeps its EEPROM contents and its shadow of them.
   */
  lemma BurnStopsAtFailure(s: State, es: seq<Event>, link: Link, applied: bool)
    requires Valid(s) && Ready(s)
    requires Run(Apply(s, StartBurn, link), es, link) && AllInsideBurn(es) && AllAnswered(es)
    requires NoCollisions(Apply(s, StartBurn, link), es, link)
    requires Enabled(Requested(s, es, link), BurnFailed(applied))
    ensures Failure(Apply(Requested(s, es, link), BurnFailed(applied), link), s.eeprom, applied)
  {
    RequestProgress(s, es, link);
    FailureFrom(Requested(s, es, link), s.eeprom, link, applied);
  }

  lemma FailureFrom(r: State, eeprom: seq<Blob>, link: Link, applied: bool)
    requires Valid(r) && |r.pages| == |eeprom|
    requires Progress(r, eeprom) && OthersInSync(r) && Enabled(r, BurnFailed(applied))
    ensures Failure(Apply(r, BurnFailed(applied), link), eeprom, applied)
  {
    var f, q := Apply(r, BurnFailed(applied), link), r.phase.pending[0];
    NextPending(r, eeprom, q);
    forall p | 0 <= p < |f.pages| && p != q
      ensures p < q ==> Burned(f, p)
      ensures p > q ==> Untouched(f, p, eeprom)
    {
      NextPending(r, eeprom, p);
    }
  }
}
