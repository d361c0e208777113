/**
 Saving one tune and applying the file to another: every bit of every saved
 number, bit field and array comes back.
 */
module MsqRestore {
  import opened Options
  import opened Bytes
  import opened BitFields
  import opened TuneModel
  import opened TuneState
  import opened Msq
  import opened MsqApply
  import opened MsqSave

  /** The two tunes have the same bits wherever some slot covers them. */
  ghost predicate SameOn(u: World, v: World, slots: set<Slot>) {
    && SameShape(u, v)
    && forall p: nat, k: nat :: p < |u.pages| && k < 8 * |u.pages[p]| && AnyCovers(slots, p, k) ==>
         Bit(u.pages[p], k) == Bit(v.pages[p], k)
  }

  /** The formula reads nothing but these bits, and none of these variables. */
  ghost predicate Grounded(f: Formula, slots: set<Slot>, names: set<string>) {
    forall u, v :: SameOn(u, v, slots) && SamePc(u, v, names) ==> f(u) == f(v)
  }

  ghost predicate GroundedScale(c: Constant, slots: set<Slot>, names: set<string>) {
    Grounded(c.scale, slots, names) && Grounded(c.translate, slots, names)
  }

  lemma SameOnUnion(u: World, v: World, s: set<Slot>, t: set<Slot>)
    requires SameOn(u, v, s) && SameOn(u, v, t)
    ensures SameOn(u, v, s + t)
  {
    hide Bit, Covers;
    forall p: nat, k: nat | p < |u.pages| && k < 8 * |u.pages[p]| && AnyCovers(s + t, p, k)
      ensures Bit(u.pages[p], k) == Bit(v.pages[p], k)
    {
      assert AnyCovers(s, p, k) || AnyCovers(t, p, k);
    }
  }

  /** A change outside some slots keeps the agreement on slots apart from them. */
  lemma SameOnIsKept(w: World, u: World, v: World, slots: set<Slot>, touched: set<Slot>)
    requires SameOn(w, u, slots) && SameOutside(u, v, touched) && forall s <- touched :: Apart(s, slots)
    ensures SameOn(w, v, slots)
  {
    hide Bit;
    forall p: nat, k: nat | p < |w.pages| && k < 8 * |w.pages[p]| && AnyCovers(slots, p, k)
      ensures Bit(w.pages[p], k) == Bit(v.pages[p], k)
    {
      assert !AnyCovers(touched, p, k);
    }
  }

  /** Reading earlier bits only, a scale does not move with the bits of the constant itself. */
  lemma GroundedIsSteady(c: Constant, earlier: set<Slot>, names: set<string>)
    requires BitsOrdered(c) && Location(c).Some? && GroundedScale(c, earlier, names) && Apart(Footprint(c), earlier)
    ensures Steady(c, {Footprint(c)}, {})
  {
    hide SamePc, Bit, Footprint;
    var own := {Footprint(c)};
    forall u, v | SameOutside(u, v, own) && SamePc(u, v, {})
      ensures SameOn(u, v, earlier) && SamePc(u, v, names)
    {
      SameOnIsKept(u, u, v, earlier, own);
      SamePcWeakens(u, v, names);
    }
  }

  lemma SamePcWeakens(u: World, v: World, names: set<string>)
    requires SamePc(u, v, {})
    ensures SamePc(u, v, names)
  {
  }

  // ----- raw values and bits ------------------------------------------------------

  lemma SameRawSameBits(c: Constant, w: World, r: World, at: Place, index: nat)
    requires Location(c) == Some(at) && SameShape(w, r) && RawAt(c, w, index).Some? && RawAt(c, r, index) == RawAt(c, w, index)
    ensures SameOn(w, r, {ElementSlot(c, at, index)})
  {
    hide Bit, BitOf, ReadRaw;
    var off := at.offset + index * Size(c.ty);
    var s := ElementSlot(c, at, index);
    forall p: nat, k: nat | p < |w.pages| && k < 8 * |w.pages[p]| && AnyCovers({s}, p, k)
      ensures Bit(w.pages[p], k) == Bit(r.pages[p], k)
    {
      assert Covers(s, p, k);
      ReadBits(w.pages[p], off, c.ty, k - 8 * off);
      ReadBits(r.pages[p], off, c.ty, k - 8 * off);
    }
  }

  lemma SameFieldSameBits(c: Constant, w: World, r: World)
    requires c.cls == Bits && BitsOrdered(c) && BitsFit(c) && Location(c).Some? && SameShape(w, r)
    requires ConstantRaw(c, w).Some? && ConstantRaw(c, r) == ConstantRaw(c, w)
    ensures SameOn(w, r, {Footprint(c)})
  {
    hide Bit, BitOf, ReadRaw, Field;
    var at, lo, width := Location(c).value, c.shape.value.lo, Width(c);
    var m, n := RawAt(c, w, 0).value, RawAt(c, r, 0).value;
    var s := Footprint(c);
    forall p: nat, k: nat | p < |w.pages| && k < 8 * |w.pages[p]| && AnyCovers({s}, p, k)
      ensures Bit(w.pages[p], k) == Bit(r.pages[p], k)
    {
      assert Covers(s, p, k);
      var i := k - 8 * at.offset - lo;
      FieldBits(m, lo, width, i);
      FieldBits(n, lo, width, i);
      ReadBits(w.pages[p], at.offset, c.ty, lo + i);
      ReadBits(r.pages[p], at.offset, c.ty, lo + i);
    }
  }

  // ----- one entry ------------------------------------------------------------------

  /** The scale in the other tune is the one the value was saved with, and large enough. */
  ghost predicate SameScale(c: Constant, w: World, u: World) {
    && c.scale(u) == c.scale(w) && c.translate(u) == c.translate(w)
    && SafeScale(c, w) && c.scale(w) != Some(0.0)
  }

  /** Encoding a saved number in the other tune gives the raw value it was saved from. */
  lemma SavedEncodes(c: Constant, w: World, u: World, index: nat)
    requires SameScale(c, w, u) && RawAt(c, w, index).Some? && c.scale(w).Some? && c.translate(w).Some?
    ensures var v := Decode(RawAt(c, w, index).value, c.scale(w).value, c.translate(w).value);
      EncodeUser(c, u, SixDecimals(v), false) == Ok(RawAt(c, w, index).value)
  {
    hide SixDecimals, Decode, Encode, ReadRaw, RawAt;
    NumberReadsBack(c, w, index);
  }

  lemma ScalarRestores(c: Constant, w: World, u: World)
    requires Defined(c, |u.pages|) && c.cls == Scalar && SameShape(w, u) && SameScale(c, w, u) && SavedBody(c, w).Some?
    ensures Location(c).Some?
    ensures var r := ApplyOne(c, u, Read(SavedBody(c, w).value)); r.refused == None && SameOn(w, r.world, {Footprint(c)})
  {
    hide SixDecimals, EncodeUser, RawAt, SameOutside, SameOn, Decode;
    var at := PlaceOf(c, w, 0);
    var v := SixDecimals(ScalarValue(c, w).value);
    SavedEncodes(c, w, u, 0);
    RawPresence(c, w, u, 0);
    var r := SetConstant(c, u, v, false).value;
    SetConstantTouches(c, u, v, false);
    ShapeKept(w, u, r, {Footprint(c)});
    ScalarReadsBack(c, u, v, false);
    SameRawSameBits(c, w, r, at, 0);
  }

  lemma PlaceOf(c: Constant, w: World, index: nat) returns (at: Place)
    requires RawAt(c, w, index).Some?
    ensures Location(c) == Some(at)
  {
    at := Location(c).value;
  }

  lemma ShapeKept(w: World, u: World, r: World, slots: set<Slot>)
    requires SameShape(w, u) && SameOutside(u, r, slots)
    ensures SameShape(w, r)
  {
  }

  lemma BitsRestore(c: Constant, w: World, u: World)
    requires Defined(c, |u.pages|) && BitsFit(c) && c.cls == Bits && SameShape(w, u) && LabelsTellApart(c.labels)
    requires Defined(c, |w.pages|) && SavedBody(c, w).Some?
    ensures Location(c).Some?
    ensures var r := ApplyOne(c, u, Read(SavedBody(c, w).value)); r.refused == None && SameOn(w, r.world, {Footprint(c)})
  {
    hide Field, ReadRaw, WriteRaw, Selected, SameOutside, SameOn, SavedBody, LabelsTellApart;
    SavedBits(c, w);
    BitsReadBackTheSame(c, w);
    RawPresence(c, w, u, 0);
    var index := ConstantRaw(c, w).value;
    RawFits(c, w);
    assert index < Pow2(Width(c));
    var r := SetConstant(c, u, index as real, false).value;
    SetConstantTouches(c, u, index as real, false);
    ShapeKept(w, u, r, {Footprint(c)});
    BitsReadBack(c, u, index as real, false);
    SelectedIndex(index, Width(c));
    SameFieldSameBits(c, w, r);
  }

  lemma SavedBits(c: Constant, w: World)
    requires c.cls == Bits && SavedBody(c, w).Some?
    ensures ConstantRaw(c, w).Some? && Location(c).Some? && c.shape.Some? && c.shape.value.BitRange?
  {
    hide ReadRaw, Field;
  }

  lemma ArrayRestores(c: Constant, w: World, u: World)
    requires Defined(c, |u.pages|) && c.cls == Array && SameShape(w, u) && SameScale(c, w, u) && SavedBody(c, w).Some?
    requires ElementCount(c) >= 2 && (Location(c).Some? ==> Steady(c, {Footprint(c)}, {}))
    ensures Location(c).Some?
    ensures var r := ApplyOne(c, u, Read(SavedBody(c, w).value)); r.refused == None && SameOn(w, r.world, {Footprint(c)})
  {
    hide SixDecimals, EncodeUser, RawAt, SameOutside, SameOn, Element, Steady, SetAll, ElementsFrom, Footprint, Matches, ElementCount;
    ElementsAreRead(c, w, 0);
    var vs := ElementsFrom(c, w, 0).value;
    ElementOf(c, w, 0);
    var at := PlaceOf(c, w, 0);
    var r := SetAll(c, u, vs, 0);
    SetAllTouches(c, u, vs, 0);
    ShapeKept(w, u, r.world, {Footprint(c)});
    EncodesAlikeNow(c, u, r.world);
    forall j: nat | j < |vs| ensures EncodeUser(c, r.world, vs[j], false) == Ok(RawOr0(c, w, j)) && RawAt(c, w, j).Some? {
      ElementOf(c, w, j);
      SavedEncodes(c, w, r.world, j);
    }
    SetAllMatches(c, u, vs, 0);
    forall j: nat | j < |vs| ensures SameOn(w, r.world, {ElementSlot(c, at, j)}) {
      assert Matches(c, r.world, vs, j);
      RawPresence(c, w, r.world, j);
      MatchedRaw(c, w, r.world, vs, j);
      SameRawSameBits(c, w, r.world, at, j);
    }
    ElementsCoverArray(c, w, r.world, at);
  }

  function RawOr0(c: Constant, w: World, j: nat): int {
    match RawAt(c, w, j) case Some(raw) => raw case None => 0
  }

  lemma MatchedRaw(c: Constant, w: World, r: World, values: seq<real>, j: nat)
    requires j < |values| && Matches(c, r, values, j)
    requires RawAt(c, w, j).Some? && RawAt(c, r, j).Some? && EncodeUser(c, r, values[j], false) == Ok(RawOr0(c, w, j))
    ensures RawAt(c, r, j) == RawAt(c, w, j)
  {
    hide RawAt, EncodeUser;
  }

  /** Writing an array does not move its own scale. */
  lemma EncodesAlikeNow(c: Constant, u: World, r: World)
    requires Location(c).Some? && BitsOrdered(c) && Steady(c, {Footprint(c)}, {})
    requires SameOutside(u, r, {Footprint(c)}) && u.pc == r.pc
    ensures c.scale(u) == c.scale(r) && c.translate(u) == c.translate(r)
  {
    hide SameOutside, Footprint;
    assert SamePc(u, r, {});
  }

  lemma ElementOf(c: Constant, w: World, j: nat)
    requires Element(c, w, j).Some?
    ensures RawAt(c, w, j).Some? && c.scale(w).Some? && c.translate(w).Some?
    ensures Element(c, w, j).value == Decode(RawAt(c, w, j).value, c.scale(w).value, c.translate(w).value)
  {
    hide RawAt, Decode;
  }

  lemma ElementsCoverArray(c: Constant, w: World, r: World, at: Place)
    requires c.cls == Array && Location(c) == Some(at) && SameShape(w, r)
    requires forall j: nat :: j < ElementCount(c) ==> SameOn(w, r, {ElementSlot(c, at, j)})
    ensures SameOn(w, r, {Footprint(c)})
  {
    hide Bit, ElementCount;
    var z := Size(c.ty);
    forall p: nat, k: nat | p < |w.pages| && k < 8 * |w.pages[p]| && AnyCovers({Footprint(c)}, p, k)
      ensures Bit(w.pages[p], k) == Bit(r.pages[p], k)
    {
      assert Covers(Footprint(c), p, k);
      var j := ElementAt(k - 8 * at.offset, z, ElementCount(c));
      assert Covers(ElementSlot(c, at, j), p, k);
      assert AnyCovers({ElementSlot(c, at, j)}, p, k);
      assert SameOn(w, r, {ElementSlot(c, at, j)});
    }
  }

  lemma ElementAt(i: nat, z: nat, count: nat) returns (j: nat)
    requires (z == 1 || z == 2 || z == 4) && i < 8 * (count * z)
    ensures j < count && 8 * (j * z) <= i < 8 * (j * z) + 8 * z
  {
    if z == 1 {
      j := i / 8;
    } else if z == 2 {
      j := i / 16;
    } else {
      j := i / 32;
    }
  }

  // ----- the whole file -------------------------------------------------------------

  /**
   What an entry needs to come back: a usable scale that reads nothing but the
   entries before it, two elements for an array, distinct labels, and bits of its own.
   */
  ghost predicate Replays(cs: Constants, w: World, front: seq<Entry>, e: Entry, names: set<string>)
    requires e.name in cs && forall x <- front :: x.name in cs && BitsOrdered(cs[x.name])
  {
    var c, earlier := cs[e.name], AllOwned(cs, front, None);
    c.cls != Text ==>
      && BitsOrdered(c) && BitsFit(c)
      && (c.cls == Bits ==> LabelsTellApart(c.labels))
      && (c.cls == Array ==> ElementCount(c) >= 2)
      && (c.cls != Bits ==> SafeScale(c, w) && c.scale(w) != Some(0.0) && GroundedScale(c, earlier, names))
      && (Location(c).Some? ==> Apart(Footprint(c), earlier))
  }

  /** The entry is what saving wrote for its constant, read back. */
  ghost predicate IsSaved(cs: Constants, w: World, e: Entry) {
    e.name in cs && SavedBody(cs[e.name], w).Some? && e.value == Read(SavedBody(cs[e.name], w).value)
  }

  ghost predicate Replayable(cs: Constants, w: World, es: seq<Entry>, names: set<string>) {
    && (forall e <- es :: e.name in cs && BitsOrdered(cs[e.name]))
    && forall i :: 0 <= i < |es| ==> Replays(cs, w, es[..i], es[i], names)
  }

  lemma ReplayableFront(cs: Constants, w: World, es: seq<Entry>, names: set<string>)
    requires es != [] && Replayable(cs, w, es, names)
    ensures Replayable(cs, w, es[..|es| - 1], names) && Replays(cs, w, es[..|es| - 1], es[|es| - 1], names)
  {
    hide Replays;
    var front := es[..|es| - 1];
    forall i | 0 <= i < |front| ensures Replays(cs, w, front[..i], front[i], names) {
      assert front[..i] == es[..i] && front[i] == es[i];
      assert Replays(cs, w, es[..i], es[i], names);
    }
  }

  lemma EntryRestores(cs: Constants, w: World, u: World, front: seq<Entry>, e: Entry, names: set<string>)
    requires e.name in cs && (forall x <- front :: x.name in cs && BitsOrdered(cs[x.name]))
    requires Defined(cs[e.name], |u.pages|) && Defined(cs[e.name], |w.pages|) && cs[e.name].cls != Text
    requires IsSaved(cs, w, e) && Replays(cs, w, front, e, names) && SameOn(w, u, AllOwned(cs, front, None)) && SamePc(w, u, names)
    ensures var r := ApplyOne(cs[e.name], u, e.value);
      r.refused == None && SameOn(w, r.world, AllOwned(cs, front, None) + Owned(cs[e.name]))
  {
    hide SameOn, SamePc, SameOutside, ApplyOne, SavedBody, AllOwned, Apart, Footprint, GroundedScale, SafeScale, LabelsTellApart, Disjoint;
    var c, earlier := cs[e.name], AllOwned(cs, front, None);
    ShapesAgree(w, u, earlier);
    if c.cls != Bits {
      ScaleCarries(c, w, u, earlier, names);
    }
    match c.cls {
      case Scalar => ScalarRestores(c, w, u);
      case Bits => BitsRestore(c, w, u);
      case Array =>
        if Location(c).Some? { GroundedIsSteady(c, earlier, names); }
        ArrayRestores(c, w, u);
    }
    var r := ApplyOne(c, u, e.value).world;
    ApplyOneTouches(c, u, e.value);
    SameOnIsKept(w, u, r, earlier, {Footprint(c)});
    SameOnUnion(w, r, earlier, {Footprint(c)});
  }

  lemma ShapesAgree(u: World, v: World, slots: set<Slot>)
    requires SameOn(u, v, slots)
    ensures SameShape(u, v)
  {
  }

  lemma ScaleCarries(c: Constant, w: World, u: World, earlier: set<Slot>, names: set<string>)
    requires GroundedScale(c, earlier, names) && SameOn(w, u, earlier) && SamePc(w, u, names)
    requires SafeScale(c, w) && c.scale(w) != Some(0.0)
    ensures SameScale(c, w, u)
  {
    hide SameOn, SamePc;
  }

  /**
   Applying the saved entries one after the other to another tune of the same page
   sizes: after each of them everything restored so far agrees with the saved tune.
   */
  lemma {:induction false} EntriesRestore(cs: Constants, w: World, u: World, es: seq<Entry>, names: set<string>)
    requires AllDefined(cs, |w.pages|) && Replayable(cs, w, es, names) && SameShape(w, u) && SamePc(w, u, names)
    requires forall e <- es :: IsSaved(cs, w, e)
    ensures var r := ApplyConstants(cs, u, es, None).world;
      SameOn(w, r, AllOwned(cs, es, None)) && SamePc(w, r, names)
    decreases |es|
  {
    hide SameOn, SamePc, ApplyOne, Replays, Owned, IsSaved;
    if es == [] {
      NothingYet(w, u);
    } else {
      var front, last := es[..|es| - 1], es[|es| - 1];
      ReplayableFront(cs, w, es, names);
      EntriesRestore(cs, w, u, front, names);
      var m := ApplyConstants(cs, u, front, None).world;
      ApplyOneTouches(cs[last.name], m, last.value);
      SamePcCarries(w, m, ApplyOne(cs[last.name], m, last.value).world, names);
      if cs[last.name].cls == Text {
        TextIsNotWritten(cs[last.name], m, last.value);
        NoTextOwned(cs, es);
      } else {
        EntryRestores(cs, w, m, front, last, names);
      }
    }
  }

  lemma NoTextOwned(cs: Constants, es: seq<Entry>)
    requires es != [] && (forall x <- es :: x.name in cs && BitsOrdered(cs[x.name])) && cs[es[|es| - 1].name].cls == Text
    ensures AllOwned(cs, es, None) == AllOwned(cs, es[..|es| - 1], None)
  {
  }

  lemma NothingYet(w: World, u: World)
    requires SameShape(w, u)
    ensures SameOn(w, u, {})
  {
  }

  lemma SamePcCarries(w: World, u: World, v: World, names: set<string>)
    requires SamePc(w, u, names) && v.pc == u.pc
    ensures SamePc(w, v, names)
  {
  }

  /**
   Saving a tune and applying the file to another one of the same page sizes, a
   blank one for instance, brings back every bit of every saved constant that is
   not a string.
   */
  lemma SaveThenApply(order: seq<string>, cs: Constants, vs: Variables, w: World, u: World, variables: seq<Entry>, names: set<string>)
    requires AllDefined(cs, |w.pages|) && (forall n <- order :: n in cs) && SameShape(w, u) && SamePc(w, u, names)
    requires Replayable(cs, w, Loaded(SavePages(order, cs, w, 0)), names)
    ensures var es := Loaded(SavePages(order, cs, w, 0));
      SameOn(w, ApplyFile(cs, vs, u, File(es, variables), None).world, AllOwned(cs, es, None))
  {
    hide SameOn, SavePages, ApplyConstants, AllOwned, Replays, SavedBody;
    PagesEntries(order, cs, w, 0);
    LoadedIsSaved(cs, w, SavePages(order, cs, w, 0));
    var es := Loaded(SavePages(order, cs, w, 0));
    EntriesRestore(cs, w, u, es, names);
    var p := ApplyConstants(cs, u, es, None);
    SameOnPages(w, p.world, ApplyFile(cs, vs, u, File(es, variables), None).world, AllOwned(cs, es, None));
  }

  lemma LoadedIsSaved(cs: Constants, w: World, s: Saved)
    requires forall x <- s :: x.0 in cs && SavedBody(cs[x.0], w) == Some(x.1)
    ensures forall e <- Loaded(s) :: IsSaved(cs, w, e)
  {
    hide SavedBody;
    forall e | e in Loaded(s) ensures IsSaved(cs, w, e) {
      var i :| 0 <= i < |s| && e == Entry(s[i].0, Read(s[i].1));
      assert s[i] in s;
    }
  }

  lemma SameOnPages(w: World, u: World, v: World, slots: set<Slot>)
    requires SameOn(w, u, slots) && v.pages == u.pages
    ensures SameOn(w, v, slots)
  {
  }

  /** A saved array of one element never comes back: its one number is no array. */
  lemma OneElementStays(c: Constant, w: World, u: World)
    requires Defined(c, |u.pages|) && c.cls == Array && ElementCount(c) == 1 && SavedBody(c, w).Some?
    ensures ApplyOne(c, u, Read(SavedBody(c, w).value)) == Applied(u, Some(ShapeMismatch))
  {
    hide Element, SixDecimals;
    ElementsAreRead(c, w, 0);
  }
}
