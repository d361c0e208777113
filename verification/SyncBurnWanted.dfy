/**
 Burn requests and the wanted bytes: what a success means when nobody edits, and
 what it still means when the flush inside was cut short.
 */
module SyncBurnWanted {
  import opened Bytes
  import opened SyncMachine
  import opened SyncSafety
  import opened SyncBurn
  import opened SyncLosses
  import opened DirtySpans
  import opened SyncConverge

  /** Progress holds when the request reports, whatever happened to its flush. */
  lemma ReportProgress(s: State, es: seq<Event>, link: Link)
    requires Valid(s) && Ready(s)
    requires Run(Apply(s, StartBurn, link), es, link) && AllInsideBurn(es)
    ensures var r := Requested(s, es, link); |r.pages| == |s.pages| && Progress(r, s.eeprom)
  {
    ProgressAlways(Apply(s, StartBurn, link), es, link, s.eeprom);
  }

  /** A page when nothing is pending any more: burned in this request, or never in need of it. */
  lemma DonePage(r: State, eeprom: seq<Blob>, p: nat)
    requires Valid(r) && p < |r.pages| == |eeprom|
    requires Progress(r, eeprom) && r.phase.Burning? && r.phase.pending == []
    ensures p in r.phase.done ==> r.eeprom[p] == r.ram[p] && r.pages[p].burned == r.pages[p].ecu != eeprom[p]
    ensures p !in r.phase.done ==> r.eeprom[p] == eeprom[p] == r.pages[p].ecu == r.pages[p].burned
  {
    assert WorkList(r.phase) == r.phase.done;
  }

  /**
   A success whose flush may have been cut short at any point, with edits, lost
   checks and half-lost writes: every page it reports has its RAM in EEPROM, and
   the others keep their EEPROM contents, which are what their shadows say. RAM
   itself may differ from the shadows then.
   */
  ghost predicate Reported(f: State, eeprom: seq<Blob>)
    requires Valid(f)
  {
    && f.outcome.BurnOk? && Increasing(f.outcome.pages) && |f.pages| == |eeprom|
    && (forall p :: 0 <= p < |f.pages| && p in f.outcome.pages ==>
      f.eeprom[p] == f.ram[p] && f.pages[p].burned == f.pages[p].ecu != eeprom[p])
    && (forall p :: 0 <= p < |f.pages| && p !in f.outcome.pages ==>
      f.eeprom[p] == eeprom[p] == f.pages[p].ecu == f.pages[p].burned)
  }

  lemma BurnSuccessReports(s: State, es: seq<Event>, link: Link)
    requires Valid(s) && Ready(s)
    requires Run(Apply(s, StartBurn, link), es, link) && AllInsideBurn(es)
    requires Enabled(Requested(s, es, link), BurnDone)
    ensures Reported(Apply(Requested(s, es, link), BurnDone, link), s.eeprom)
  {
    hide Run, Final, Progress;
    ReportProgress(s, es, link);
    ReportedAtEnd(Requested(s, es, link), s.eeprom, link);
  }

  lemma ReportedAtEnd(r: State, eeprom: seq<Blob>, link: Link)
    requires Valid(r) && |r.pages| == |eeprom| && Progress(r, eeprom) && Enabled(r, BurnDone)
    ensures Reported(Apply(r, BurnDone, link), eeprom)
  {
    assert WorkList(r.phase) == r.phase.done;
    forall p | 0 <= p < |r.pages|
      ensures p in r.phase.done ==> r.eeprom[p] == r.ram[p] && r.pages[p].burned == r.pages[p].ecu != eeprom[p]
      ensures p !in r.phase.done ==> r.eeprom[p] == eeprom[p] == r.pages[p].ecu == r.pages[p].burned
    {
      DonePage(r, eeprom, p);
    }
  }

  // ----- what a success has stored ---------------------------------------------

  /** The state in which the request reports, seen from where it began. */
  lemma ReportTracks(s: State, es: seq<Event>, link: Link, p: nat)
    requires Valid(s) && Ready(s) && p < |s.pages| && |s.ram[p]| <= 0x1_0000
    requires Run(Apply(s, StartBurn, link), es, link) && NoEdits(es)
    ensures var t, r := Apply(s, StartBurn, link), Requested(s, es, link);
      && |t.pages| == |r.pages| == |s.pages| && Tracked(t, p, link.block) && Tracked(r, p, link.block)
      && |t.ram[p]| <= 0x1_0000 && r.pages[p].data == s.pages[p].data
  {
    hide Tracked, Run, Final, Apply;
    assert InSync(s, p);
    TruthfulIsTracked(s, p, link.block);
    TrackedStep(s, StartBurn, link, p);
    TrackedRun(Apply(s, StartBurn, link), es, link, p);
  }

  /**
   What a success has stored when nobody edits, exactly, whatever was lost on the
   way: EEPROM holds the wanted bytes of a page of at most 64 KiB if and only if
   the page is clean at the report, or is reported burned with RAM already right
   (only the reply to its write was lost). On a clean page all copies agree. No
   checksum hypothesis.
   */
  lemma BurnStoresIff(s: State, es: seq<Event>, link: Link, p: nat)
    requires Valid(s) && Ready(s) && p < |s.pages| && |s.ram[p]| <= 0x1_0000
    requires Run(Apply(s, StartBurn, link), es, link) && AllInsideBurn(es) && NoEdits(es)
    requires Enabled(Requested(s, es, link), BurnDone)
    ensures var f := Apply(Requested(s, es, link), BurnDone, link);
      && |f.pages| == |s.pages| && f.pages[p].data == s.pages[p].data && f.outcome.BurnOk?
      && (f.eeprom[p] == f.pages[p].data <==>
            !f.pages[p].Dirty() || (p in f.outcome.pages && f.ram[p] == f.pages[p].data))
      && (!f.pages[p].Dirty() ==>
            f.eeprom[p] == f.ram[p] == f.pages[p].ecu == f.pages[p].burned == f.pages[p].data)
  {
    hide Tracked, Run, Final, Progress;
    ReportTracks(s, es, link, p);
    ReportProgress(s, es, link);
    var r := Requested(s, es, link);
    DonePage(r, s.eeprom, p);
    if !r.pages[p].Dirty() {
      CleanIsRight(r, p, link.block);
    }
  }

  /**
   The only loss that matters is a failed chunk write: with no edits and no failed
   write, and however many checks and re-reads are lost, a burn that succeeds has
   stored the wanted bytes of every page of at most 64 KiB.
   */
  lemma BurnStoresWanted(s: State, es: seq<Event>, link: Link, p: nat)
    requires Valid(s) && Ready(s) && p < |s.pages| && |s.ram[p]| <= 0x1_0000
    requires Run(Apply(s, StartBurn, link), es, link) && AllInsideBurn(es) && NoEdits(es) && NoFailedWrites(es)
    requires Enabled(Requested(s, es, link), BurnDone)
    ensures var f := Apply(Requested(s, es, link), BurnDone, link);
      && p < |f.pages| && f.pages[p].data == s.pages[p].data
      && f.eeprom[p] == f.ram[p] == f.pages[p].ecu == f.pages[p].burned == f.pages[p].data
  {
    hide Tracked, Run, Final, Settling;
    ReportTracks(s, es, link, p);
    PassSettles(s, StartBurn, link, p);
    SettlingRun(Apply(s, StartBurn, link), es, link, p);
    SettledAtReport(Requested(s, es, link), p);
    BurnStoresIff(s, es, link, p);
  }

  lemma SettledAtReport(r: State, p: nat)
    requires Valid(r) && Enabled(r, BurnDone) && p < |r.pages| && Settling(r.phase, r.pages[p], p)
    ensures !r.pages[p].Dirty()
  {
  }

  /** A burn whose one chunk write never arrives: it succeeds, and has stored nothing. */
  const LOST_WRITE: seq<Event> := [Snapshot] + ([WriteFailed(false)] + ([PassDone] + []))

  /** `Tiny` inside a burn request. */
  function Burning1(ram: Byte, ph: Phase): State {
    Tiny(1, 0, ram, ph).(burning := true)
  }

  lemma TinyBurnStarts(link: Link)
    ensures Valid(Tiny(1, 0, 0, Idle)) && Ready(Tiny(1, 0, 0, Idle))
    ensures Apply(Tiny(1, 0, 0, Idle), StartBurn, link) == Burning1(0, PassPages([0]))
  {
    hide DirtyPages, PagesWanted;
    TinyFlush(link);
    assert Apply(Tiny(1, 0, 0, Idle), StartFlush, link).phase == PassPages([0]);
  }

  lemma TinyBurnSnapshot(link: Link)
    ensures Valid(Burning1(0, PassPages([0]))) && Enabled(Burning1(0, PassPages([0])), Snapshot)
    ensures Apply(Burning1(0, PassPages([0])), Snapshot, link) == Burning1(0, Writing(0, [Chunk(0, [1])], []))
  {
    hide Outgoing;
    OneByteOutgoing(link.block);
  }

  lemma TinyLosesWrite(link: Link)
    ensures var s := Burning1(0, Writing(0, [Chunk(0, [1])], []));
      Valid(s) && Enabled(s, WriteFailed(false)) && Apply(s, WriteFailed(false), link) == Burning1(0, PassPages([]))
  {
  }

  lemma TinyPassAbandoned(link: Link)
    ensures Valid(Burning1(0, PassPages([0]))) && Run(Burning1(0, PassPages([0])), LOST_WRITE, link)
    ensures Final(Burning1(0, PassPages([0])), LOST_WRITE, link) == Burning1(0, Burning([], []))
  {
    hide Apply, Final, Run, Enabled, Valid;
    TinyAbandoned(link);
    TinyLosesWrite(link);
    Prepend(Burning1(0, Writing(0, [Chunk(0, [1])], [])), WriteFailed(false), [PassDone] + [], link);
    TinyBurnSnapshot(link);
    Prepend(Burning1(0, PassPages([0])), Snapshot, [WriteFailed(false)] + ([PassDone] + []), link);
  }

  lemma TinyAbandoned(link: Link)
    ensures Valid(Burning1(0, PassPages([]))) && Run(Burning1(0, PassPages([])), [PassDone] + [], link)
    ensures Final(Burning1(0, PassPages([])), [PassDone] + [], link) == Burning1(0, Burning([], []))
  {
    var pages := Burning1(0, Idle).pages;
    assert PagesWanted(pages, 0, true) == [];
    assert PendingPages(pages) == [];
    Prepend(Burning1(0, PassPages([])), PassDone, [], link);
  }

  lemma LostWriteStillSucceeds(link: Link)
    ensures var s := Tiny(1, 0, 0, Idle);
      && Valid(s) && Ready(s) && Run(Apply(s, StartBurn, link), LOST_WRITE, link)
      && AllInsideBurn(LOST_WRITE) && NoEdits(LOST_WRITE) && Enabled(Requested(s, LOST_WRITE, link), BurnDone)
    ensures var f := Apply(Requested(Tiny(1, 0, 0, Idle), LOST_WRITE, link), BurnDone, link);
      f.outcome == BurnOk([]) && f.eeprom == [[0]] && |f.pages| == 1 && f.pages[0].data == [1]
  {
    hide Run, Final, Outgoing, Store, DirtyPages, PendingPages, PhaseInRange;
    TinyBurnStarts(link);
    TinyPassAbandoned(link);
  }
}
