/** Applying tune files: the loop, and what a diff says before and after. */
module MsqApply {
  import opened Options
  import opened Bytes
  import opened BitFields
  import opened TuneModel
  import opened TuneState
  import opened Msq

  // ----- one entry -------------------------------------------------------------

  /** The index a bits entry names does not fit its field. */
  predicate TooWide(c: Constant, value: Value) {
    && c.cls == Bits && BitsOrdered(c) && c.shape.Some? && c.shape.value.BitRange?
    && FileIndex(c.labels, value).Some?
    && !(0 <= FileIndex(c.labels, value).value < Pow2(Width(c)))
  }

  /** The file's text is not the string in the tune. */
  predicate OtherText(c: Constant, w: World, value: Value) {
    c.cls == Text && value.Words? && TextValue(c, w).Some? && TextValue(c, w).value != value.text
  }

  /**
   What no amount of applying removes from the diff, seen before the call: an index too wide for a field that
   can be read, and a string that differs, which is compared but never written.
   */
  predicate Stubborn(c: Constant, w: World, value: Value) {
    (TooWide(c, value) && ConstantRaw(c, w).Some?) || OtherText(c, w, value)
  }

  lemma RoundWhole(n: int)
    ensures Round(n as real) == n
  {}

  lemma SelectedIndex(n: int, width: nat)
    requires n <= U64_MAX
    ensures Selected(n as real, width) == n <==> 0 <= n < Pow2(width)
  {
    RoundWhole(n);
    if 0 <= n < Pow2(width) { DivMod(n, Pow2(width), 0, n); }
  }

  lemma IndexBound(labels: seq<string>, value: Value)
    requires |labels| <= U64_MAX
    ensures FileIndex(labels, value).Some? ==> FileIndex(labels, value).value <= U64_MAX
  {}

  lemma BitsSettle(c: Constant, w: World, value: Value)
    requires Defined(c, |w.pages|) && BitsFit(c) && c.cls == Bits && |c.labels| <= U64_MAX
    ensures var r := ApplyOne(c, w, value).world;
      Listed(c, r, value) <==> TooWide(c, value) && ConstantRaw(c, w).Some?
  {
    hide Field, ReadRaw, WriteRaw, Selected;
    var index := FileIndex(c.labels, value);
    if index.Some? {
      IndexBound(c.labels, value);
      var s := SetConstant(c, w, index.value as real, false);
      if s.Ok? {
        BitsReadBack(c, w, index.value as real, false);
        SelectedIndex(index.value, Width(c));
      }
    }
  }

  lemma ScalarSettles(c: Constant, w: World, value: Value)
    requires Defined(c, |w.pages|) && c.cls == Scalar && (Location(c).Some? ==> Steady(c, {Footprint(c)}, {}))
    ensures !Listed(c, ApplyOne(c, w, value).world, value)
  {
    hide EncodeUser, ReadRaw, WriteRaw, Footprint, Steady, SameOutside;
    if value.Num? {
      var s := SetConstant(c, w, value.n, false);
      if s.Ok? {
        SetConstantTouches(c, w, value.n, false);
        EncodesAlike(c, w, s.value, {Footprint(c)}, {}, value.n);
        Lengths(w, s.value, {Footprint(c)});
        RawPresence(c, w, s.value, 0);
        if RawAt(c, w, 0).Some? { ScalarReadsBack(c, w, value.n, false); }
      }
    }
  }

  /** Whether there is something to read depends on page sizes only. */
  lemma RawPresence(c: Constant, u: World, v: World, index: nat)
    requires SameShape(u, v)
    ensures RawAt(c, u, index).Some? == RawAt(c, v, index).Some?
  {}

  lemma ElementsApart(c: Constant, at: Place, i: nat, j: nat)
    requires i != j
    ensures Disjoint(ElementSlot(c, at, i), ElementSlot(c, at, j))
  {
    var z := Size(c.ty);
    if i < j { assert i * z + z == (i + 1) * z <= j * z; } else { assert j * z + z == (j + 1) * z <= i * z; }
  }

  /** Writing one element leaves every other one as it was. */
  lemma OthersAreKept(c: Constant, w: World, i: nat, user: real, j: nat)
    requires Defined(c, |w.pages|) && SetElement(c, w, i, user, false).Ok? && i != j
    ensures RawAt(c, SetElement(c, w, i, user, false).value, j) == RawAt(c, w, j)
  {
    hide EncodeUser, ReadRaw, WriteRaw, SameOutside, Disjoint, ElementSlot;
    var at := Location(c).value;
    var raw := EncodeUser(c, w, user, false).value;
    PutTouches(c, w, at, i, raw);
    ElementsApart(c, at, j, i);
    RawIsKept(c, w, PutRaw(c, w, at, i, raw), at, j, {ElementSlot(c, at, i)});
  }

  ghost predicate Matches(c: Constant, w: World, values: seq<real>, j: nat)
    requires j < |values|
  {
    match (RawAt(c, w, j), EncodeUser(c, w, values[j], false))
    case (Some(now), Ok(raw)) => now == raw
    case _ => true
  }

  /**
   After the elements from `i` on were set, each holds its value or cannot be compared, unless encoding
   failed; the ones before `i` are as they were.
   */
  lemma {:induction false} SetAllMatches(c: Constant, w: World, values: seq<real>, i: nat)
    requires Defined(c, |w.pages|) && c.cls == Array && Location(c).Some? && Steady(c, {Footprint(c)}, {})
    requires |values| == ElementCount(c) && i <= |values|
    ensures var r := SetAll(c, w, values, i);
      && (r.refused.Some? ==> exists j :: i <= j < |values| && EncodeUser(c, r.world, values[j], false).Err?)
      && (r.refused.None? ==> forall j :: i <= j < |values| ==> Matches(c, r.world, values, j))
      && (forall j: nat :: j < i ==> RawAt(c, r.world, j) == RawAt(c, w, j))
    decreases |values| - i
  {
    hide EncodeUser, RawAt, Footprint, Steady, SameOutside, Location;
    if i == |values| {
    } else {
      var s := SetElement(c, w, i, values[i], false);
      if s.Ok? {
        SetAllMatches(c, s.value, values, i + 1);
        var r := SetAll(c, s.value, values, i + 1);
        forall j: nat | j < i ensures RawAt(c, r.world, j) == RawAt(c, w, j) {
          OthersAreKept(c, w, i, values[i], j);
        }
        if r.refused.None? { FirstMatches(c, w, values, i, r.world); }
      } else {
        SetElementFails(c, w, i, values[i]);
      }
    }
  }

  lemma SetElementFails(c: Constant, w: World, i: nat, user: real)
    requires Defined(c, |w.pages|) && c.cls == Array && Location(c).Some? && i < ElementCount(c)
    requires SetElement(c, w, i, user, false).Err?
    ensures EncodeUser(c, w, user, false).Err?
  {}

  lemma FirstMatches(c: Constant, w: World, values: seq<real>, i: nat, after: World)
    requires Defined(c, |w.pages|) && c.cls == Array && Location(c).Some? && Steady(c, {Footprint(c)}, {})
    requires i < |values| == ElementCount(c) && SetElement(c, w, i, values[i], false).Ok?
    requires after == SetAll(c, SetElement(c, w, i, values[i], false).value, values, i + 1).world
    requires RawAt(c, after, i) == RawAt(c, SetElement(c, w, i, values[i], false).value, i)
    ensures Matches(c, after, values, i)
  {
    hide EncodeUser, RawAt, Footprint, Steady, SameOutside;
    var s := SetElement(c, w, i, values[i], false).value;
    var own := {Footprint(c)};
    SetElementTouches(c, w, i, values[i], false);
    SetAllTouches(c, s, values, i + 1);
    SameOutsideChain(w, s, after, own, own, own);
    EncodesAlike(c, w, after, own, {}, values[i]);
    Lengths(w, s, own);
    RawPresence(c, w, s, i);
    if RawAt(c, w, i).Some? { ElementReadsBack(c, w, i, values[i], false); }
  }

  lemma {:induction false} AllMatching(c: Constant, w: World, values: seq<real>, i: nat)
    requires i <= |values|
    requires (forall j :: i <= j < |values| ==> Matches(c, w, values, j)) ||
             (exists j :: i <= j < |values| && EncodeUser(c, w, values[j], false).Err?)
    ensures ChangedFrom(c, w, values, i) == None || ChangedFrom(c, w, values, i) == Some([])
    decreases |values| - i
  {
    hide EncodeUser, RawAt;
    if i < |values| && EncodeUser(c, w, values[i], false).Ok? {
      if forall j :: i <= j < |values| ==> Matches(c, w, values, j) {
        assert Matches(c, w, values, i);
        AllMatching(c, w, values, i + 1);
      } else {
        SomeFails(c, w, values, i);
      }
    }
  }

  /** One element that does not encode spoils the comparison of the array. */
  lemma {:induction false} SomeFails(c: Constant, w: World, values: seq<real>, i: nat)
    requires i <= |values| && exists j :: i <= j < |values| && EncodeUser(c, w, values[j], false).Err?
    ensures ChangedFrom(c, w, values, i) == None
    decreases |values| - i
  {
    hide EncodeUser, RawAt;
    if EncodeUser(c, w, values[i], false).Ok? { SomeFails(c, w, values, i + 1); }
  }

  lemma ArraySettles(c: Constant, w: World, value: Value)
    requires Defined(c, |w.pages|) && c.cls == Array && (Location(c).Some? ==> Steady(c, {Footprint(c)}, {}))
    ensures !Listed(c, ApplyOne(c, w, value).world, value)
  {
    hide EncodeUser, RawAt, Footprint, Steady, SetAll, ChangedFrom;
    if value.Numbers? && |value.values| == ElementCount(c) {
      var r := SetAll(c, w, value.values, 0);
      if Location(c).Some? {
        SetAllMatches(c, w, value.values, 0);
        AllMatching(c, r.world, value.values, 0);
      } else {
        NowhereToRead(c, r.world, value.values);
      }
    }
  }

  lemma NowhereToRead(c: Constant, w: World, values: seq<real>)
    requires Location(c).None?
    ensures ChangedFrom(c, w, values, 0) == None || ChangedFrom(c, w, values, 0) == Some([])
  {}

  /** Once applied, an entry is no longer listed, whatever it was, except for the ones that were stubborn before. */
  lemma EntrySettles(c: Constant, w: World, value: Value)
    requires Defined(c, |w.pages|) && BitsFit(c) && |c.labels| <= U64_MAX
    requires Location(c).Some? && c.cls != Text ==> Steady(c, {Footprint(c)}, {})
    ensures Listed(c, ApplyOne(c, w, value).world, value) <==> Stubborn(c, w, value)
  {
    hide ConstantRaw, Footprint, Steady, FileIndex, Width, Pow2, TextValue;
    match c.cls
    case Scalar => ScalarSettles(c, w, value);
    case Bits => BitsSettle(c, w, value);
    case Array => ArraySettles(c, w, value);
    case Text =>
  }

  // ----- one entry: listed exactly when it would change bytes ------------------

  lemma ScalarListedIffChanges(c: Constant, w: World, value: Value)
    requires Defined(c, |w.pages|) && c.cls == Scalar
    ensures Listed(c, w, value) <==> ApplyOne(c, w, value).world != w
  {
    hide EncodeUser, ReadRaw, WriteRaw;
    if value.Num? {
      var s := SetConstant(c, w, value.n, false);
      if s.Ok? { PutChanges(c, w, 0, EncodeUser(c, w, value.n, false).value); }
    }
  }

  /** A raw value of the type changes the page exactly when it is not the one there. */
  lemma PutChanges(c: Constant, w: World, index: nat, raw: int)
    requires Defined(c, |w.pages|) && Location(c).Some? && InRange(c.ty, raw)
    ensures PutRaw(c, w, Location(c).value, index, raw) != w <==>
            RawAt(c, w, index).Some? && RawAt(c, w, index).value != raw
  {
    hide ReadRaw, InRange;
    var at := Location(c).value;
    var page, off := w.pages[at.page], at.offset + index * Size(c.ty);
    var now := WriteRaw(page, off, c.ty, raw);
    assert PutRaw(c, w, at, index, raw).pages[at.page] == now;
    assert w.pages[at.page := page] == w.pages;
    if InPage(page, off, c.ty) {
      ReadAfterWrite(page, off, c.ty, raw);
      WriteWhatIsThere(page, off, c.ty);
    }
  }

  /**
   For a bit field this is so exactly when the index fits or applying it changes the field all the same; an
   index that is cut down to the value already there is listed although applying it does nothing.
   */
  lemma BitsListedIffChanges(c: Constant, w: World, value: Value)
    requires Defined(c, |w.pages|) && BitsFit(c) && c.cls == Bits && |c.labels| <= U64_MAX
    ensures (Listed(c, w, value) <==> ApplyOne(c, w, value).world != w) <==>
            (TooWide(c, value) && ConstantRaw(c, w).Some? ==>
               Selected(FileIndex(c.labels, value).value as real, Width(c)) != ConstantRaw(c, w).value)
  {
    hide ReadRaw, WriteRaw, Field, WithField, Selected, Pow2;
    var index := FileIndex(c.labels, value);
    if index.Some? {
      IndexBound(c.labels, value);
      var user := index.value as real;
      var s := SetConstant(c, w, user, false);
      if s.Ok? {
        SelectedIndex(index.value, Width(c));
        FieldChanges(c, w, user);
      }
    }
  }

  /**
   A one-bit field holding 0 and a file that says 2: cut to one bit the index is 0 again, so the entry is listed
   although applying it changes nothing.
   */
  lemma CutIndexExample()
    ensures Listed(OneBit(), OneByte(), Num(2.0)) && ApplyOne(OneBit(), OneByte(), Num(2.0)).world == OneByte()
  {
    hide ConstantRaw, Selected, Field, ReadRaw, WriteRaw, RawAt;
    OneBitIsOff();
    CutToOneBit();
    FieldChanges(OneBit(), OneByte(), 2.0);
  }

  /** A one-bit field on a page of one zero byte. */
  function OneBit(): Constant {
    Constant(Bits, U08, Some(1), Some(0), Some(BitRange(0, 0)), w => Some(1.0), w => Some(0.0), None, None, ["off", "on"], None, false)
  }

  function OneByte(): World {
    World([[0]], map[])
  }

  lemma OneBitIsOff()
    ensures RawAt(OneBit(), OneByte(), 0) == Some(0) && ConstantRaw(OneBit(), OneByte()) == Some(0)
  {
    assert [0][0..1] == [0] && [0][1..] == [];
    assert FromLe([0]) == 0;
    assert Pow2(0) == 1 && Pow2(1) == 2;
  }

  lemma CutToOneBit()
    ensures Selected(2.0, 1) == 0
  {
    assert Pow2(0) == 1 && Pow2(1) == 2;
    assert Round(2.0) == 2;
  }

  lemma FieldChanges(c: Constant, w: World, user: real)
    requires Defined(c, |w.pages|) && BitsFit(c) && c.cls == Bits && SetConstant(c, w, user, false).Ok?
    ensures SetConstant(c, w, user, false).value != w <==> ConstantRaw(c, w) != Some(Selected(user, Width(c)))
  {
    hide ReadRaw, WriteRaw, Field, Selected, Pow2;
    var at := Location(c).value;
    BitsReadBack(c, w, user, false);
    if ConstantRaw(c, w) == Some(Selected(user, Width(c))) {
      var raw := RawAt(c, w, 0).value;
      assert WithField(raw, c.shape.value.lo, Width(c), Selected(user, Width(c))) == raw;
      WriteWhatIsThere(w.pages[at.page], at.offset, c.ty);
      assert w.pages[at.page := w.pages[at.page]] == w.pages;
    }
  }

  ghost predicate AllInPage(c: Constant, w: World, count: nat) {
    forall j: nat :: j < count ==> RawAt(c, w, j).Some?
  }

  lemma {:induction false} ChangedMeans(c: Constant, w: World, values: seq<real>, i: nat)
    requires i <= |values|
    ensures match ChangedFrom(c, w, values, i)
      case None => true
      case Some(s) => s == [] <==> forall j :: i <= j < |values| ==> Matches(c, w, values, j)
    decreases |values| - i
  {
    hide EncodeUser, RawAt;
    if i == |values| {
    } else {
      ChangedMeans(c, w, values, i + 1);
      assert (forall j :: i <= j < |values| ==> Matches(c, w, values, j)) <==>
             Matches(c, w, values, i) && forall j :: i + 1 <= j < |values| ==> Matches(c, w, values, j);
    }
  }

  lemma {:induction false} ChangedExists(c: Constant, w: World, values: seq<real>, i: nat)
    requires i <= |values| && AllInPage(c, w, |values|)
    requires forall j :: i <= j < |values| ==> EncodeUser(c, w, values[j], false).Ok?
    ensures ChangedFrom(c, w, values, i).Some?
    decreases |values| - i
  {
    hide EncodeUser, RawAt;
    if i == |values| {
    } else {
      ChangedExists(c, w, values, i + 1);
    }
  }

  lemma {:induction false} NothingToSet(c: Constant, w: World, values: seq<real>, i: nat)
    requires Defined(c, |w.pages|) && c.cls == Array && Location(c).Some?
    requires i <= |values| == ElementCount(c)
    requires forall j :: i <= j < |values| ==> Matches(c, w, values, j)
    ensures SetAll(c, w, values, i).world == w
    decreases |values| - i
  {
    hide EncodeUser, RawAt;
    if i == |values| {
    } else {
      var s := SetElement(c, w, i, values[i], false);
      assert Matches(c, w, values, i);
      if s.Ok? {
        PutChanges(c, w, i, EncodeUser(c, w, values[i], false).value);
        NothingToSet(c, w, values, i + 1);
      }
    }
  }

  /** For an array within its page whose scale does not depend on its own bytes. */
  lemma ArrayListedIffChanges(c: Constant, w: World, value: Value)
    requires Defined(c, |w.pages|) && c.cls == Array && Location(c).Some? && Steady(c, {Footprint(c)}, {})
    requires AllInPage(c, w, ElementCount(c))
    ensures Listed(c, w, value) <==> ApplyOne(c, w, value).world != w
  {
    hide EncodeUser, RawAt, Footprint, Steady, SetAll, ChangedFrom, Matches;
    if value.Numbers? && |value.values| == ElementCount(c) {
      var values := value.values;
      var r := SetAll(c, w, values, 0);
      EncodesOrNot(c, w, values);
      ChangedMeans(c, w, values, 0);
      if ChangedFrom(c, w, values, 0).None? {
        // The scale does not resolve: neither compared nor written.
        if forall j: nat :: j < |values| ==> EncodeUser(c, w, values[j], false).Ok? {
          ChangedExists(c, w, values, 0);
        } else {
          NothingEncodes(c, w, values);
        }
      } else if forall j :: 0 <= j < |values| ==> Matches(c, w, values, j) {
        NothingToSet(c, w, values, 0);
      } else {
        var j: nat :| j < |values| && !Matches(c, w, values, j);
        SetChanges(c, w, values, j);
      }
    }
  }

  lemma EncodesOrNot(c: Constant, w: World, values: seq<real>)
    ensures forall i, j :: 0 <= i < |values| && 0 <= j < |values| ==>
      EncodeUser(c, w, values[i], false).Ok? == EncodeUser(c, w, values[j], false).Ok?
  {
    hide Encode;
  }

  lemma NothingEncodes(c: Constant, w: World, values: seq<real>)
    requires Defined(c, |w.pages|) && c.cls == Array
    requires values != [] && EncodeUser(c, w, values[0], false).Err?
    ensures SetAll(c, w, values, 0).world == w
  {
    hide EncodeUser;
  }

  lemma SetChanges(c: Constant, w: World, values: seq<real>, j: nat)
    requires Defined(c, |w.pages|) && c.cls == Array && Location(c).Some? && Steady(c, {Footprint(c)}, {})
    requires |values| == ElementCount(c) && j < |values| && !Matches(c, w, values, j)
    ensures SetAll(c, w, values, 0).world != w
  {
    hide EncodeUser, RawAt, Footprint, Steady, SetAll;
    var r := SetAll(c, w, values, 0);
    SetAllMatches(c, w, values, 0);
    EncodesOrNot(c, w, values);
  }

  /** An array that runs past its page: the diff stays silent, although applying writes the part inside. */
  lemma PastThePageIsSilent(c: Constant, w: World, value: Value)
    requires c.cls == Array && !AllInPage(c, w, ElementCount(c))
    ensures !Listed(c, w, value)
  {
    hide RawAt, EncodeUser;
    if value.Numbers? && |value.values| == ElementCount(c) {
      var j: nat :| j < ElementCount(c) && RawAt(c, w, j).None?;
      SomeUnread(c, w, value.values, 0, j);
    }
  }

  lemma {:induction false} SomeUnread(c: Constant, w: World, values: seq<real>, i: nat, j: nat)
    requires i <= j < |values| && RawAt(c, w, j).None?
    ensures ChangedFrom(c, w, values, i) == None
    decreases |values| - i
  {
    hide EncodeUser, RawAt;
    if i < j { SomeUnread(c, w, values, i + 1, j); }
  }

  /**
   So for every array the diff and the write agree exactly when the array lies in its page, or every element
   that can be compared holds its value already, or there is nothing to compare.
   */
  lemma ArrayListedIffChangesIff(c: Constant, w: World, value: Value)
    requires Defined(c, |w.pages|) && c.cls == Array
    requires Location(c).Some? ==> Steady(c, {Footprint(c)}, {})
    ensures (Listed(c, w, value) <==> ApplyOne(c, w, value).world != w) <==>
            || AllInPage(c, w, ElementCount(c))
            || !value.Numbers? || |value.values| != ElementCount(c)
            || forall j :: 0 <= j < |value.values| ==> Matches(c, w, value.values, j)
  {
    hide EncodeUser, RawAt, Footprint, Steady, SetAll, ChangedFrom, Matches, AllInPage;
    if value.Numbers? && |value.values| == ElementCount(c) {
      if Location(c).None? {
        NowhereToRead(c, w, value.values);
        NowhereToWrite(c, w, value.values);
        NowhereMatches(c, w, value.values);
      } else if AllInPage(c, w, ElementCount(c)) {
        ArrayListedIffChanges(c, w, value);
      } else {
        PastThePageIsSilent(c, w, value);
        if forall j :: 0 <= j < |value.values| ==> Matches(c, w, value.values, j) {
          NothingToSet(c, w, value.values, 0);
        } else {
          var j: nat :| j < |value.values| && !Matches(c, w, value.values, j);
          SetChanges(c, w, value.values, j);
        }
      }
    }
  }

  lemma NowhereMatches(c: Constant, w: World, values: seq<real>)
    requires Location(c).None?
    ensures forall j :: 0 <= j < |values| ==> Matches(c, w, values, j)
  {}

  lemma PastThePageExample()
    ensures var c := Constant(Array, U08, Some(1), Some(0), Some(Array1D(2)), w => Some(1.0), w => Some(0.0),
                              None, None, [], None, false);
      var w := World([[0]], map[]);
      var value := Numbers([5.0, 6.0]);
      !Listed(c, w, value) && ApplyOne(c, w, value).world != w
  {
    var c := Constant(Array, U08, Some(1), Some(0), Some(Array1D(2)), w => Some(1.0), w => Some(0.0),
                      None, None, [], None, false);
    var w := World([[0]], map[]);
    var values := [5.0, 6.0];
    assert RawAt(c, w, 1).None?;
    PastThePageIsSilent(c, w, Numbers(values));
    assert EncodeUser(c, w, 5.0, false) == Ok(5);
    SetAllMatches(c, w, values, 0);
    assert !Matches(c, w, values, 0);
    SetChanges(c, w, values, 0);
  }

  // ----- a whole file ----------------------------------------------------------

  datatype Report = Report(applied: nat, skipped: seq<(string, Refusal)>)

  datatype Progress = Progress(world: World, report: Report)

  predicate Selects(names: Option<set<string>>, name: string) {
    names.None? || name in names.value
  }

  function Count(r: Report, name: string, refused: Option<Refusal>): Report {
    match refused
    case None => r.(applied := r.applied + 1)
    case Some(why) => r.(skipped := r.skipped + [(name, why)])
  }

  function ApplyConstant(cs: Constants, p: Progress, e: Entry, names: Option<set<string>>): (r: Progress)
    requires AllDefined(cs, |p.world.pages|)
    ensures |r.world.pages| == |p.world.pages|
  {
    if !Selects(names, e.name) then p
    else if e.name !in cs then p.(report := Count(p.report, e.name, Some(UnknownConstant)))
    else
      ApplyOneTouches(cs[e.name], p.world, e.value);
      var a := ApplyOne(cs[e.name], p.world, e.value);
      Progress(a.world, Count(p.report, e.name, a.refused))
  }

  function ApplyConstants(cs: Constants, w: World, es: seq<Entry>, names: Option<set<string>>): (r: Progress)
    requires AllDefined(cs, |w.pages|)
    ensures |r.world.pages| == |w.pages|
    decreases |es|
  {
    if es == [] then Progress(w, Report(0, []))
    else ApplyConstant(cs, ApplyConstants(cs, w, es[..|es| - 1], names), es[|es| - 1], names)
  }

  type Variables = map<string, Variable>

  function VariableNumber(v: Variable, value: Value): Option<real> {
    match (v.cls, value)
    case (Scalar, Num(n)) => Some(n)
    case (Bits, Num(n)) => Some(n)
    case (Bits, Words(text)) =>
      (match Position(v.labels, text) case None => None case Some(i) => Some(i as real))
    case _ => None
  }

  function ApplyVariable(vs: Variables, p: Progress, e: Entry, names: Option<set<string>>): (r: Progress)
    ensures r.world.pages == p.world.pages
  {
    if !Selects(names, e.name) || e.name !in vs then p else
    var v := vs[e.name];
    match VariableNumber(v, e.value)
    case None => p
    case Some(user) =>
      Progress(p.world.(pc := p.world.pc[e.name := Limited(v.low, v.high, p.world, user)]),
               Count(p.report, e.name, None))
  }

  function ApplyVariables(vs: Variables, p: Progress, es: seq<Entry>, names: Option<set<string>>): (r: Progress)
    ensures r.world.pages == p.world.pages
    decreases |es|
  {
    if es == [] then p
    else ApplyVariable(vs, ApplyVariables(vs, p, es[..|es| - 1], names), es[|es| - 1], names)
  }

  function ApplyFile(cs: Constants, vs: Variables, w: World, f: File, names: Option<set<string>>): Progress
    requires AllDefined(cs, |w.pages|)
  {
    ApplyVariables(vs, ApplyConstants(cs, w, f.constants, names), f.variables, names)
  }

  // ----- the loop of the source ------------------------------------------------

  method Apply(t: Tune, f: File, names: Option<set<string>>) returns (report: Report)
    requires t.Valid()
    modifies t
    ensures t.Valid()
    ensures Progress(t.Now(), report) == ApplyFile(t.constants, t.variables, old(t.Now()), f, names)
  {
    hide SetConstant, SetElement;
    report := Report(0, []);
    ghost var w, cs := t.Now(), t.constants;
    for n := 0 to |f.constants|
      invariant t.Valid() && |t.pages| == |w.pages|
      invariant Progress(t.Now(), report) == ApplyConstants(cs, w, f.constants[..n], names)
    {
      var e := f.constants[n];
      assert f.constants[..n + 1][..n] == f.constants[..n];
      if names.Some? && e.name !in names.value { continue; }
      if e.name !in t.constants {
        report := report.(skipped := report.skipped + [(e.name, UnknownConstant)]);
        continue;
      }
      var refused := ApplyEntry(t, e);
      match refused {
        case None => report := report.(applied := report.applied + 1);
        case Some(why) => report := report.(skipped := report.skipped + [(e.name, why)]);
      }
    }
    assert f.constants[..|f.constants|] == f.constants;
    ghost var p := Progress(t.Now(), report);
    for n := 0 to |f.variables|
      invariant t.Valid()
      invariant Progress(t.Now(), report) == ApplyVariables(t.variables, p, f.variables[..n], names)
    {
      var e := f.variables[n];
      assert f.variables[..n + 1][..n] == f.variables[..n];
      if names.Some? && e.name !in names.value { continue; }
      if e.name !in t.variables { continue; }
      var user := VariableNumber(t.variables[e.name], e.value);
      if user.Some? {
        var refused := t.WriteVariable(e.name, user.value);
        report := report.(applied := report.applied + 1);
      }
    }
    assert f.variables[..|f.variables|] == f.variables;
  }

  method ApplyEntry(t: Tune, e: Entry) returns (refused: Option<Refusal>)
    requires t.Valid() && e.name in t.constants
    modifies t`pages
    ensures t.Valid() && |t.pages| == |old(t.pages)|
    ensures Applied(t.Now(), refused) == ApplyOne(t.constants[e.name], old(t.Now()), e.value)
  {
    hide SetConstant, SetElement;
    var c := t.constants[e.name];
    match (c.cls, e.value) {
      case (Scalar, Num(user)) =>
        refused := t.WriteConstant(e.name, user, false);
      case (Bits, _) =>
        var index := FileIndex(c.labels, e.value);
        if index.None? { return Some(LabelNotFound); }
        refused := t.WriteConstant(e.name, index.value as real, false);
      case (Array, Numbers(values)) =>
        if |values| != ElementCount(c) { return Some(LengthMismatch); }
        ghost var goal := SetAll(c, t.Now(), values, 0);
        for i := 0 to |values|
          invariant t.Valid() && |t.pages| == |old(t.pages)|
          invariant goal == SetAll(c, t.Now(), values, i)
        {
          refused := t.WriteElement(e.name, i, values[i], false);
          if refused.Some? { return; }
        }
        refused := None;
      case (Text, _) =>
        refused := Some(StringConstant);
      case _ =>
        refused := Some(ShapeMismatch);
    }
  }

  // ----- apply, then diff ------------------------------------------------------

  predicate Writes(cs: Constants, e: Entry, names: Option<set<string>>) {
    Selects(names, e.name) && e.name in cs && cs[e.name].cls != Text
  }

  /**
   Each written constant's scale depends on earlier or untouched constants only, and no two written
   constants share a bit.
   */
  ghost predicate Orderly(cs: Constants, es: seq<Entry>, names: Option<set<string>>) {
    && (forall e <- es :: Writes(cs, e, names) ==> BitsOrdered(cs[e.name]) && BitsFit(cs[e.name]))
    && forall i, j :: 0 <= i <= j < |es| && Writes(cs, es[i], names) && Writes(cs, es[j], names) ==>
         OrderlyPair(cs[es[i].name], cs[es[j].name], i == j)
  }

  ghost predicate OrderlyPair(earlier: Constant, later: Constant, same: bool)
    requires BitsOrdered(earlier) && BitsOrdered(later)
  {
    && Steady(earlier, Owned(later), {})
    && (!same && Location(earlier).Some? ==> Apart(Footprint(earlier), Owned(later)))
  }

  lemma OrderlyFront(cs: Constants, es: seq<Entry>, names: Option<set<string>>)
    requires Orderly(cs, es, names) && es != []
    ensures Orderly(cs, es[..|es| - 1], names)
  {
    hide OrderlyPair, Writes;
    var front := es[..|es| - 1];
    assert forall i :: 0 <= i < |front| ==> front[i] == es[i];
  }

  /** All the bits a file may write. */
  function AllOwned(cs: Constants, es: seq<Entry>, names: Option<set<string>>): set<Slot>
    requires forall e <- es :: Writes(cs, e, names) ==> BitsOrdered(cs[e.name])
    decreases |es|
  {
    if es == [] then {}
    else
      var last := es[|es| - 1];
      AllOwned(cs, es[..|es| - 1], names) + if Writes(cs, last, names) then Owned(cs[last.name]) else {}
  }

  lemma TextIsNotWritten(c: Constant, w: World, value: Value)
    requires Defined(c, |w.pages|)
    ensures c.cls == Text ==> ApplyOne(c, w, value).world == w
  {}

  /** Applying a file changes no bit outside the constants it selects: everything else keeps its value. */
  lemma {:induction false} ConstantsTouch(cs: Constants, w: World, es: seq<Entry>, names: Option<set<string>>)
    requires AllDefined(cs, |w.pages|)
    ensures var r := ApplyConstants(cs, w, es, names).world;
      SameOutside(w, r, AllOwned(cs, es, names)) && r.pc == w.pc
    decreases |es|
  {
    hide SameOutside, ApplyOne, Footprint;
    if es == [] {
      SameOutsideItself(w, {});
    } else {
      var front, last := es[..|es| - 1], es[|es| - 1];
      ConstantsTouch(cs, w, front, names);
      var u, v := ApplyConstants(cs, w, front, names).world, ApplyConstants(cs, w, es, names).world;
      var before, all := AllOwned(cs, front, names), AllOwned(cs, es, names);
      if Selects(names, last.name) && last.name in cs {
        ApplyOneTouches(cs[last.name], u, last.value);
        SameOutsideChain(w, u, v, before, Owned(cs[last.name]), all);
      } else {
        SameOutsideItself(u, {});
        SameOutsideChain(w, u, v, before, {}, all);
      }
    }
  }

  /** The verdict on a written entry, or any verdict on another. */
  ghost predicate Settled(cs: Constants, w: World, e: Entry) {
    e.name in cs && cs[e.name].cls != Text ==>
      (Listed(cs[e.name], w, e.value) <==> TooWide(cs[e.name], e.value) && ConstantRaw(cs[e.name], w).Some?)
  }

  lemma SettledIsKept(cs: Constants, u: World, v: World, slots: set<Slot>, names: set<string>, e: Entry)
    requires AllDefined(cs, |u.pages|) && Settled(cs, u, e) && SameOutside(u, v, slots) && SamePc(u, v, names)
    requires e.name in cs && cs[e.name].cls != Text ==>
      && BitsFit(cs[e.name]) && Steady(cs[e.name], slots, names)
      && (Location(cs[e.name]).Some? ==> Apart(Footprint(cs[e.name]), slots))
    ensures Settled(cs, v, e)
  {
    hide Steady, Apart, SameOutside, SamePc, Compare, ConstantRaw, Footprint, TooWide;
    if e.name in cs && cs[e.name].cls != Text {
      VerdictIsKept(cs[e.name], u, v, slots, names, e.value);
      ReadableAlike(cs[e.name], u, v, slots);
    }
  }

  lemma {:induction false} ConstantsSettle(cs: Constants, w: World, es: seq<Entry>, names: Option<set<string>>)
    requires AllDefined(cs, |w.pages|) && Orderly(cs, es, names)
    requires forall name <- cs :: |cs[name].labels| <= U64_MAX
    ensures forall e <- es :: Selects(names, e.name) ==> Settled(cs, ApplyConstants(cs, w, es, names).world, e)
    decreases |es|
  {
    hide Settled, Orderly, AllDefined;
    if es == [] {
    } else {
      var front, last := es[..|es| - 1], es[|es| - 1];
      OrderlyFront(cs, es, names);
      ConstantsSettle(cs, w, front, names);
      var u := ApplyConstants(cs, w, front, names).world;
      var v := ApplyConstants(cs, w, es, names).world;
      forall e | e in es && Selects(names, e.name) ensures Settled(cs, v, e) {
        var i :| 0 <= i < |es| && es[i] == e;
        StepSettles(cs, u, es, names, i);
      }
    }
  }

  /** What the last entry does to the verdict on entry `i`. */
  lemma StepSettles(cs: Constants, u: World, es: seq<Entry>, names: Option<set<string>>, i: nat)
    requires es != [] && i < |es| && AllDefined(cs, |u.pages|) && Orderly(cs, es, names)
    requires forall name <- cs :: |cs[name].labels| <= U64_MAX
    requires Selects(names, es[i].name)
    requires i < |es| - 1 ==> Settled(cs, u, es[i])
    ensures Settled(cs, ApplyConstant(cs, Progress(u, Report(0, [])), es[|es| - 1], names).world, es[i])
  {
    hide ApplyOne, TooWide, Steady, Apart, SameOutside, Footprint, Compare, ConstantRaw;
    var last, e := es[|es| - 1], es[i];
    if e.name in cs && Selects(names, last.name) && last.name in cs {
      var c, d := cs[e.name], cs[last.name];
      ApplyOneTouches(d, u, last.value);
      var v := ApplyOne(d, u, last.value).world;
      TextIsNotWritten(d, u, last.value);
      if Writes(cs, last, names) && Writes(cs, e, names) {
        assert OrderlyPair(c, d, i == |es| - 1);
        if i < |es| - 1 {
          SettledIsKept(cs, u, v, Owned(d), {}, e);
        } else {
          EntrySettles(d, u, last.value);
          ReadableAlike(d, u, v, Owned(d));
        }
      }
    }
  }

  function VariableNames(es: seq<Entry>): set<string> {
    set e <- es :: e.name
  }

  lemma {:induction false} VariablesTouch(vs: Variables, p: Progress, es: seq<Entry>, names: Option<set<string>>)
    ensures SamePc(p.world, ApplyVariables(vs, p, es, names).world, VariableNames(es))
    decreases |es|
  {
    hide VariableNumber, Limited;
    if es == [] {
    } else {
      var front, last := es[..|es| - 1], es[|es| - 1];
      VariablesTouch(vs, p, front, names);
      assert es == front + [last];
      assert last.name in VariableNames(es) && VariableNames(front) <= VariableNames(es);
    }
  }

  /** The strings of the file share no bit with what it writes. */
  ghost predicate StringsApart(cs: Constants, es: seq<Entry>, names: Option<set<string>>)
    requires forall e <- es :: Writes(cs, e, names) ==> BitsOrdered(cs[e.name])
  {
    forall e <- es :: Selects(names, e.name) && e.name in cs && cs[e.name].cls == Text && Location(cs[e.name]).Some? ==>
      Apart(Footprint(cs[e.name]), AllOwned(cs, es, names))
  }

  /** Footprints are disjoint, and each scale depends on earlier or untouched constants only. */
  ghost predicate Restorable(cs: Constants, f: File, names: Option<set<string>>) {
    && Orderly(cs, f.constants, names) && StringsApart(cs, f.constants, names)
    && forall e <- f.constants :: Writes(cs, e, names) ==> Steady(cs[e.name], {}, VariableNames(f.variables))
  }

  lemma SamePages(u: World, v: World)
    requires u.pages == v.pages
    ensures SameOutside(u, v, {})
  {}

  /**
   After a file was applied, a diff lists exactly those of its selected entries that were stubborn before: bit
   indices too wide for their field, and strings that differ.
   */
  lemma ApplyThenDiff(cs: Constants, vs: Variables, w: World, f: File, names: Option<set<string>>, e: Entry)
    requires AllDefined(cs, |w.pages|) && Restorable(cs, f, names)
    requires forall name <- cs :: |cs[name].labels| <= U64_MAX
    requires e in f.constants && Selects(names, e.name) && e.name in cs
    ensures Listed(cs[e.name], ApplyFile(cs, vs, w, f, names).world, e.value) <==> Stubborn(cs[e.name], w, e.value)
  {
    hide Orderly, Compare, Steady, TooWide, ConstantRaw, AllOwned, TextValue, SameOutside, Footprint, Apart;
    var p := ApplyConstants(cs, w, f.constants, names);
    var r := ApplyFile(cs, vs, w, f, names).world;
    var c, all := cs[e.name], AllOwned(cs, f.constants, names);
    ConstantsTouch(cs, w, f.constants, names);
    VariablesTouch(vs, p, f.variables, names);
    SamePages(p.world, r);
    SameOutsideChain(w, p.world, r, all, {}, all);
    if c.cls == Text {
      TextIsKept(c, w, r, all);
      TextListed(c, r, e.value);
    } else {
      assert Writes(cs, e, names);
      NothingApart(c);
      ConstantsSettle(cs, w, f.constants, names);
      FitOf(cs, f.constants, names, e);
      SettledIsKept(cs, p.world, r, {}, VariableNames(f.variables), e);
      ReadableAlike(c, w, r, all);
    }
  }

  lemma TextListed(c: Constant, w: World, value: Value)
    requires c.cls == Text
    ensures Listed(c, w, value) <==> OtherText(c, w, value)
    ensures !TooWide(c, value)
  {}

  /** A string `b` in the tune and `a` in the file: applied and compared again, it is still listed. */
  lemma StringExample()
    ensures var c := Constant(Text, Ascii, Some(1), Some(0), None, w => None, w => None, None, None, [], Some(1), false);
      var w := World([[98]], map[]);
      ApplyOne(c, w, Words("a")).world == w && Listed(c, w, Words("a"))
  {
    var c := Constant(Text, Ascii, Some(1), Some(0), None, w => None, w => None, None, None, [], Some(1), false);
    var w := World([[98]], map[]);
    var page: Blob := [98];
    assert page[0..1] == page && Chars(page) == "b";
    assert TextValue(c, w) == Some("b");
  }

  lemma NothingApart(c: Constant)
    requires BitsOrdered(c)
    ensures Location(c).Some? ==> Apart(Footprint(c), {})
  {}

  lemma FitOf(cs: Constants, es: seq<Entry>, names: Option<set<string>>, e: Entry)
    requires Orderly(cs, es, names) && e in es && Writes(cs, e, names)
    ensures BitsFit(cs[e.name])
  {}

  /** The entries a filter selects. */
  function Chosen(es: seq<Entry>, names: Option<set<string>>): (r: seq<Entry>)
    ensures forall e :: e in r <==> e in es && Selects(names, e.name)
    ensures names.None? ==> r == es
    decreases |es|
  {
    if es == [] then []
    else
      var last := es[|es| - 1];
      Chosen(es[..|es| - 1], names) + if Selects(names, last.name) then [last] else []
  }

  /** Apply, then diff what was applied: nothing is left exactly when nothing was stubborn before the call. */
  lemma ApplyMakesDiffEmptyIff(cs: Constants, vs: Variables, w: World, f: File, names: Option<set<string>>)
    requires AllDefined(cs, |w.pages|) && Restorable(cs, f, names)
    requires forall name <- cs :: |cs[name].labels| <= U64_MAX
    ensures DiffOf(cs, ApplyFile(cs, vs, w, f, names).world, Chosen(f.constants, names)).entries == [] <==>
            forall e <- f.constants :: Selects(names, e.name) && e.name in cs ==> !Stubborn(cs[e.name], w, e.value)
  {
    hide Restorable, Compare, Steady, Stubborn, ApplyFile, DiffOf;
    var r := ApplyFile(cs, vs, w, f, names).world;
    var es := Chosen(f.constants, names);
    var d := DiffOf(cs, r, es);
    forall e | e in es && e.name in cs
      ensures Listed(cs[e.name], r, e.value) <==> Stubborn(cs[e.name], w, e.value)
    {
      ApplyThenDiff(cs, vs, w, f, names, e);
    }
    if d.entries != [] {
      var name := d.entries[0].0;
      EntriesAreListed(cs, r, es, name);
      var e :| e in es && e.name == name && Listed(cs[name], r, e.value);
      assert Stubborn(cs[e.name], w, e.value);
    } else {
      forall e | e in f.constants && Selects(names, e.name) && e.name in cs ensures !Stubborn(cs[e.name], w, e.value) {
        EntriesAreListed(cs, r, es, e.name);
        assert !Lists(d, e.name);
        assert e in es;
      }
    }
  }
}
