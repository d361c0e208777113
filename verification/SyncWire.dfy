/**
 Where the step system meets the wire: each request, made through the page
 commands against the simulated device, moves the device as the corresponding
 step moves the model's RAM and EEPROM, and brings back what the step sees.
 */
module SyncWire {
  import opened Bytes
  import Crc32
  import DirtySpans
  import Device
  import Session
  import Pages
  import opened SyncMachine

  /** The device holds the RAM and EEPROM of the state; its pages are numbered from one. */
  ghost predicate Mirrors(d: Device.Store, s: State)
    requires Valid(s)
  {
    Device.Ready(d) && |s.ram| <= 255 && forall p :: 0 <= p < |s.ram| ==> SamePage(d, s, p)
  }

  ghost predicate SamePage(d: Device.Store, s: State, p: nat)
    requires |s.eeprom| == |s.ram| && p < |s.ram|
  {
    && p + 1 in d.working && d.working[p + 1] == s.ram[p]
    && p + 1 in d.burned && d.burned[p + 1] == s.eeprom[p]
  }

  lemma PageOn(d: Device.Store, s: State, p: nat)
    requires Valid(s) && Mirrors(d, s) && p < |s.ram|
    ensures Device.Ready(d) && p + 1 <= 255 && p + 1 in d.working && p + 1 in d.burned
    ensures d.working[p + 1] == s.ram[p] && d.burned[p + 1] == s.eeprom[p]
  {
    assert SamePage(d, s, p);
  }

  /** Nothing happened on either side. */
  lemma SameDevice(d: Device.Store, s: State, t: State)
    requires Valid(s) && Mirrors(d, s) && Valid(t) && t.ram == s.ram && t.eeprom == s.eeprom
    ensures Mirrors(d, t)
  {
    forall p | 0 <= p < |t.ram| ensures SamePage(d, t, p) {
      assert SamePage(d, s, p);
    }
  }

  /** A chunk was stored in one page on both sides, or refused on both. */
  lemma StoredAlike(d: Device.Store, s: State, p: nat, c: DirtySpans.Chunk, t: State)
    requires Valid(s) && Mirrors(d, s) && p < |s.ram| && Valid(t)
    requires t.ram == s.ram[p := DirtySpans.Store(s.ram[p], c)] && t.eeprom == s.eeprom
    ensures p + 1 <= 255 && Mirrors(Pages.Written(d, p + 1, c), t)
  {
    hide DirtySpans.Store;
    PageOn(d, s, p);
    var r := Pages.Written(d, p + 1, c);
    assert r.working.Keys == d.working.Keys;
    forall q | 0 <= q < |t.ram| ensures SamePage(r, t, q) {
      assert SamePage(d, s, q);
    }
  }

  lemma AcceptedAlike(d: Device.Store, s: State, p: nat, c: DirtySpans.Chunk)
    requires Valid(s) && Mirrors(d, s) && p < |s.ram|
    ensures p + 1 <= 255 && (Pages.Accepted(d, p + 1, c) <==> DirtySpans.Accepts(s.ram[p], c))
    ensures !DirtySpans.Accepts(s.ram[p], c) ==> Pages.Written(d, p + 1, c) == d
  {
    PageOn(d, s, p);
    assert d.working[p + 1 := d.working[p + 1]] == d.working;
  }

  /**
   What a chunk write does on both sides: a success is the step `WriteOk`, a
   refusal leaves the device as a write that never arrived, and a reply lost on
   the way back leaves it as one that did.
   */
  ghost predicate WriteMoves(r: (Device.Store, Session.Result<()>), s: State, link: Link)
    requires Valid(s) && s.phase.Writing? && s.phase.chunks != []
  {
    && (r.1.Ok? <==> Enabled(s, WriteOk))
    && (Enabled(s, WriteOk) ==> Mirrors(r.0, Apply(s, WriteOk, link)))
    && (r.1.Err? ==> Mirrors(r.0, Apply(s, WriteFailed(false), link)))
    && Mirrors(r.0, Apply(s, WriteFailed(true), link))
  }

  lemma WriteIsAStep(d: Device.Store, s: State, p: nat, def: Pages.PageDef, canId: Byte, n: Byte, link: Link, fixed: Device.Fixed)
    requires Valid(s) && s.phase.Writing? && s.phase.chunks != [] && s.phase.page == p < |s.ram|
    requires Device.Ready(d) && Mirrors(d, s) && n == p + 1 && Pages.Standard(def, canId, n)
    requires 0 < |s.phase.chunks[0].bytes| <= Device.BLOCKING_FACTOR
    ensures WriteMoves(Pages.WriteOver(d, def, canId, s.phase.chunks[0], fixed), s, link)
  {
    hide Pages.WriteOver, Pages.Standard, DirtySpans.Store, Pages.Written, Mirrors, DirtySpans.Accepts, Device.Answers, Pages.Accepted;
    var c := s.phase.chunks[0];
    PageOn(d, s, p);
    Pages.StandardWrite(d, def, canId, n, c, fixed);
    AcceptedAlike(d, s, p, c);
    StoredAlike(d, s, p, c, Apply(s, WriteFailed(true), link));
    if Enabled(s, WriteOk) {
      StoredAlike(d, s, p, c, Apply(s, WriteOk, link));
    } else {
      SameDevice(d, s, Apply(s, WriteFailed(false), link));
    }
  }

  /** The step `CrcReply` compares `crc`, and the device mirrors it. */
  ghost predicate CrcMoves(d: Device.Store, crc: nat, s: State, link: Link)
    requires Valid(s) && Enabled(s, CrcReply)
  {
    var t := Apply(s, CrcReply, link);
    (t.phase.PassPages? <==> crc == s.phase.expected) && Mirrors(d, t)
  }

  /** A checksum request brings the checksum of the page's RAM, and that is what the step compares. */
  lemma CrcIsAStep(d: Device.Store, s: State, p: nat, def: Pages.PageDef, canId: Byte, n: Byte, block: Block, fixed: Device.Fixed)
    requires Valid(s) && Enabled(s, CrcReply) && s.phase.page == p < |s.ram|
    requires Device.Ready(d) && Mirrors(d, s) && n == p + 1 && Pages.Standard(def, canId, n)
    ensures Pages.CrcOver(d, def, canId, fixed) == (d, Session.Ok(Crc32.Crc(s.ram[p])))
    ensures CrcMoves(d, Crc32.Crc(s.ram[p]), s, Link(block, Crc32.Crc))
  {
    hide Pages.CrcOver, Pages.Standard, Crc32.Crc, Mirrors;
    PageOn(d, s, p);
    Pages.StandardCrc(d, def, canId, n, fixed);
    SameDevice(d, s, Apply(s, CrcReply, Link(block, Crc32.Crc)));
  }

  /** The step `PageRead` sees `page`, and the device mirrors it. */
  ghost predicate ReadMoves(d: Device.Store, page: Blob, s: State, link: Link)
    requires Valid(s) && Enabled(s, PageRead)
  {
    var t := Apply(s, PageRead, link);
    t.phase == Installing(s.phase.page, page, s.phase.todo) && Mirrors(d, t)
  }

  /** A download of a page that fits its frames brings the page's RAM, and that is what the step sees. */
  lemma ReadIsAStep(d: Device.Store, s: State, p: nat, def: Pages.PageDef, canId: Byte, n: Byte, bf: Pages.BlockingFactor, link: Link,
                    fixed: Device.Fixed)
    requires Valid(s) && Enabled(s, PageRead) && s.phase.page == p < |s.ram|
    requires Device.Ready(d) && Mirrors(d, s) && n == p + 1 && Pages.Standard(def, canId, n)
    requires def.size == |s.ram[p]| <= 0x1_0000 && Pages.Min(def.size, bf) <= 2047
    ensures Pages.ReadAll(d, def, bf, canId, 0, fixed) == (d, Session.Ok(s.ram[p]))
    ensures ReadMoves(d, s.ram[p], s, link)
  {
    hide Pages.ReadAll, Pages.Standard, Mirrors;
    PageOn(d, s, p);
    Pages.StandardReadAll(d, def, bf, canId, n, 0, fixed);
    WholePage(Pages.ReadAll(d, def, bf, canId, 0, fixed).1, d, n, bf, def.size);
    SameDevice(d, s, Apply(s, PageRead, link));
  }

  lemma WholePage(r: Session.Result<Blob>, d: Device.Store, n: Byte, bf: Pages.BlockingFactor, size: nat)
    requires n in d.working && |d.working[n]| == size && Pages.Min(size, bf) <= 2047
    requires Pages.IsDownload(r, d, n, bf, 0, size)
    ensures r == Session.Ok(d.working[n])
  {
    assert d.working[n][0..size] == d.working[n];
  }

  ghost predicate BurnMoves(d: Device.Store, s: State, e: Event, link: Link)
    requires Valid(s) && Enabled(s, e)
  {
    Mirrors(d, Apply(s, e, link))
  }

  /** A burn request is the step `BurnReply`, and if its reply is lost the step `BurnFailed` that took effect. */
  lemma BurnIsAStep(d: Device.Store, s: State, p: nat, def: Pages.PageDef, canId: Byte, n: Byte, link: Link, fixed: Device.Fixed)
    requires Valid(s) && Enabled(s, BurnReply) && Enabled(s, BurnFailed(true)) && s.phase.pending[0] == p < |s.ram|
    requires Device.Ready(d) && Mirrors(d, s) && n == p + 1 && Pages.Standard(def, canId, n)
    ensures Pages.BurnOver(d, def, canId, fixed).1.Ok?
    ensures BurnMoves(Pages.BurnOver(d, def, canId, fixed).0, s, BurnReply, link)
    ensures BurnMoves(Pages.BurnOver(d, def, canId, fixed).0, s, BurnFailed(true), link)
  {
    hide Pages.BurnOver, Pages.Standard, Mirrors;
    PageOn(d, s, p);
    Pages.StandardBurn(d, def, canId, n, fixed);
    BurnedAlike(d, s, p, Apply(s, BurnReply, link));
    BurnedAlike(d, s, p, Apply(s, BurnFailed(true), link));
  }

  lemma BurnedAlike(d: Device.Store, s: State, p: nat, t: State)
    requires Valid(s) && Mirrors(d, s) && p < |s.ram| && Valid(t)
    requires t.ram == s.ram && t.eeprom == s.eeprom[p := s.ram[p]]
    ensures p + 1 in d.working && Mirrors(Device.Burn(d, p + 1), t)
  {
    PageOn(d, s, p);
    var r := Device.Burn(d, p + 1);
    assert r.burned.Keys == d.burned.Keys;
    forall q | 0 <= q < |t.ram| ensures SamePage(r, t, q) {
      assert SamePage(d, s, q);
    }
  }
}
