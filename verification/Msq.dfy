/** Tune files: comparing a file with the tune and applying it.  Values are given as read from the XML. */
module Msq {
  import opened Options
  import opened Bytes
  import opened BitFields
  import opened TuneModel
  import opened TuneState

  datatype Value = Num(n: real) | Words(text: string) | Numbers(values: seq<real>)

  datatype Entry = Entry(name: string, value: Value)

  datatype File = File(constants: seq<Entry>, variables: seq<Entry>)

  type Constants = map<string, Constant>

  // ----- combo labels ----------------------------------------------------------

  const INVALID: string := "INVALID"

  const I64_MAX: int := 0x7fff_ffff_ffff_ffff
  const I64_MIN: int := -0x8000_0000_0000_0000

  /** Toward zero, saturating at 64 bits. */
  function Truncated(x: real): int {
    var n := if x >= 0.0 then x.Floor else -((-x).Floor);
    if n < I64_MIN then I64_MIN else if n > I64_MAX then I64_MAX else n
  }

  function Position(labels: seq<string>, text: string): (r: Option<nat>)
    ensures r.Some? ==> r.value < |labels| && labels[r.value] == text
    ensures r.Some? ==> forall i :: 0 <= i < r.value ==> labels[i] != text
    ensures r.None? ==> text !in labels
  {
    if labels == [] then None
    else if labels[0] == text then Some(0)
    else match Position(labels[1..], text) case None => None case Some(i) => Some(i + 1)
  }

  /** `INVALID` stands for many slots, so it names none. */
  function FileIndex(labels: seq<string>, value: Value): Option<int> {
    match value
    case Num(n) => Some(Truncated(n))
    case Words(text) =>
      if text == INVALID then None
      else (match Position(labels, text) case None => None case Some(i) => Some(i))
    case Numbers(_) => None
  }

  datatype LabelText = Named(text: string) | Numbered(index: int)

  function Label(labels: seq<string>, index: int): LabelText {
    if 0 <= index < |labels| then Named(labels[index]) else Numbered(index)
  }

  // ----- string constants ------------------------------------------------------

  function Chars(bytes: Blob): string {
    seq(|bytes|, i requires 0 <= i < |bytes| => bytes[i] as char)
  }

  function TrimEnd(s: string, dropped: set<char>): string {
    if s != [] && s[|s| - 1] in dropped then TrimEnd(s[..|s| - 1], dropped) else s
  }

  function TextValue(c: Constant, w: World): Option<string> {
    match (Location(c), c.textLength)
    case (Some(at), Some(len)) =>
      if at.page < |w.pages| && at.offset + len <= |w.pages[at.page]| then
        Some(TrimEnd(Chars(w.pages[at.page][at.offset..at.offset + len]), {'\0', ' '}))
      else None
    case _ => None
  }

  // ----- diff ------------------------------------------------------------------

  datatype Difference =
    | ScalarDiff(ecu: Option<real>, file: real)
    | BitsDiff(current: LabelText, wanted: LabelText)
    | ArrayDiff(changed: seq<nat>, len: nat)

  datatype Reason = ScaleDidNotResolve | LabelNotInList | ArrayLengthMismatch | ValueShapeMismatch

  datatype Verdict = Same | Differs(how: Difference) | Uncompared(why: Reason)

  /** Elements from `i` on whose raw value differs; `None` when one of them cannot be compared. */
  function ChangedFrom(c: Constant, w: World, values: seq<real>, i: nat): Option<seq<nat>>
    requires i <= |values|
    decreases |values| - i
  {
    if i == |values| then Some([]) else
    match (RawAt(c, w, i), EncodeUser(c, w, values[i], false))
    case (Some(now), Ok(raw)) =>
      (match ChangedFrom(c, w, values, i + 1)
       case None => None
       case Some(more) => Some(if now != raw then [i] + more else more))
    case _ => None
  }

  function Compare(c: Constant, w: World, value: Value): Verdict {
    match (c.cls, value)
    case (Scalar, Num(user)) =>
      (match (ConstantRaw(c, w), EncodeUser(c, w, user, false))
       case (Some(now), Ok(raw)) => if now == raw then Same else Differs(ScalarDiff(ScalarValue(c, w), user))
       case _ => Uncompared(ScaleDidNotResolve))
    case (Bits, _) =>
      (match (ConstantRaw(c, w), FileIndex(c.labels, value))
       case (Some(now), Some(index)) =>
         if now == index then Same else Differs(BitsDiff(Label(c.labels, now), Label(c.labels, index)))
       case _ => Uncompared(LabelNotInList))
    case (Array, Numbers(values)) =>
      if |values| != ElementCount(c) then Uncompared(ArrayLengthMismatch) else
      (match ChangedFrom(c, w, values, 0)
       case None => Same
       case Some(changed) => if changed == [] then Same else Differs(ArrayDiff(changed, |values|)))
    case (Text, Words(text)) =>
      (match TextValue(c, w)
       case Some(now) => if now == text then Same else Differs(BitsDiff(Named(now), Named(text)))
       case None => Same)
    case _ => Uncompared(ValueShapeMismatch)
  }

  datatype Diff = Diff(entries: seq<(string, Difference)>, onlyInFile: seq<string>, unresolved: seq<(string, Reason)>)

  function Noted(d: Diff, cs: Constants, w: World, e: Entry): Diff {
    if e.name !in cs then d.(onlyInFile := d.onlyInFile + [e.name]) else
    match Compare(cs[e.name], w, e.value)
    case Same => d
    case Differs(how) => d.(entries := d.entries + [(e.name, how)])
    case Uncompared(why) => d.(unresolved := d.unresolved + [(e.name, why)])
  }

  function DiffOf(cs: Constants, w: World, es: seq<Entry>): Diff {
    if es == [] then Diff([], [], []) else Noted(DiffOf(cs, w, es[..|es| - 1]), cs, w, es[|es| - 1])
  }

  predicate Listed(c: Constant, w: World, value: Value) {
    Compare(c, w, value).Differs?
  }

  predicate Lists(d: Diff, name: string) {
    exists x <- d.entries :: x.0 == name
  }

  predicate HasDiffering(cs: Constants, w: World, es: seq<Entry>, name: string) {
    name in cs && exists e <- es :: e.name == name && Listed(cs[name], w, e.value)
  }

  /** The diff lists the names of entries that differ, and no others. */
  lemma {:induction false} EntriesAreListed(cs: Constants, w: World, es: seq<Entry>, name: string)
    ensures Lists(DiffOf(cs, w, es), name) <==> HasDiffering(cs, w, es, name)
    decreases |es|
  {
    hide Compare;
    if es == [] {
    } else {
      var front, last := es[..|es| - 1], es[|es| - 1];
      EntriesAreListed(cs, w, front, name);
      NotedLists(DiffOf(cs, w, front), cs, w, last, name);
      assert es == front + [last];
      assert HasDiffering(cs, w, es, name) <==> HasDiffering(cs, w, front, name) || HasDiffering(cs, w, [last], name);
    }
  }

  lemma NotedLists(d: Diff, cs: Constants, w: World, e: Entry, name: string)
    ensures Lists(Noted(d, cs, w, e), name) <==> Lists(d, name) || HasDiffering(cs, w, [e], name)
  {
    hide Compare;
    if e.name in cs && Listed(cs[e.name], w, e.value) {
      var x := (e.name, Compare(cs[e.name], w, e.value).how);
      var more := d.entries + [x];
      assert x in more && e in [e];
      assert forall y <- d.entries :: y in more;
    }
  }

  method Compared(t: Tune, f: File) returns (d: Diff)
    ensures d == DiffOf(t.constants, t.Now(), f.constants)
  {
    var entries: seq<(string, Difference)>, only: seq<string>, unresolved: seq<(string, Reason)> := [], [], [];
    ghost var w := t.Now();
    for n := 0 to |f.constants|
      invariant Diff(entries, only, unresolved) == DiffOf(t.constants, w, f.constants[..n])
    {
      var e := f.constants[n];
      assert f.constants[..n + 1][..n] == f.constants[..n];
      if e.name !in t.constants {
        only := only + [e.name];
        continue;
      }
      var c := t.constants[e.name];
      match (c.cls, e.value) {
        case (Array, Numbers(values)) =>
          if |values| != ElementCount(c) {
            unresolved := unresolved + [(e.name, ArrayLengthMismatch)];
            continue;
          }
          var changed := ChangedElements(t, c, values);
          if changed != [] {
            entries := entries + [(e.name, ArrayDiff(changed, |values|))];
          }
        case _ =>
          var v := Compare(c, t.Now(), e.value);
          if v.Differs? {
            entries := entries + [(e.name, v.how)];
          } else if v.Uncompared? {
            unresolved := unresolved + [(e.name, v.why)];
          }
      }
    }
    assert f.constants[..|f.constants|] == f.constants;
    d := Diff(entries, only, unresolved);
  }

  method ChangedElements(t: Tune, c: Constant, values: seq<real>) returns (changed: seq<nat>)
    ensures changed == match ChangedFrom(c, t.Now(), values, 0) case None => [] case Some(s) => s
  {
    changed := [];
    hide RawAt, EncodeUser;
    ghost var goal := ChangedFrom(c, t.Now(), values, 0);
    PrefixedNothing(goal);
    for i := 0 to |values|
      invariant goal == Prefixed(changed, ChangedFrom(c, t.Now(), values, i))
    {
      var now, raw := RawAt(c, t.Now(), i), EncodeUser(c, t.Now(), values[i], false);
      if now.None? || raw.Err? {
        return [];
      }
      if now.value != raw.value {
        PrefixedTwice(changed, [i], ChangedFrom(c, t.Now(), values, i + 1));
        changed := changed + [i];
      }
    }
    PrefixedEmpty(changed);
  }

  function Prefixed(front: seq<nat>, r: Option<seq<nat>>): Option<seq<nat>> {
    match r case None => None case Some(s) => Some(front + s)
  }

  lemma PrefixedNothing(r: Option<seq<nat>>)
    ensures Prefixed([], r) == r
  {
    match r case None => case Some(s) => assert [] + s == s;
  }

  lemma PrefixedEmpty(front: seq<nat>)
    ensures Prefixed(front, Some([])) == Some(front)
  {
    assert front + [] == front;
  }

  lemma PrefixedTwice(front: seq<nat>, more: seq<nat>, r: Option<seq<nat>>)
    ensures Prefixed(front, Prefixed(more, r)) == Prefixed(front + more, r)
  {
    match r case None => case Some(s) => assert front + (more + s) == front + more + s;
  }

  // ----- apply -----------------------------------------------------------------

  datatype Applied = Applied(world: World, refused: Option<Refusal>)

  /** Elements one after the other, each encoded in the tune as the ones before left it; stops at the first refusal. */
  function SetAll(c: Constant, w: World, values: seq<real>, i: nat): Applied
    requires i <= |values| && Defined(c, |w.pages|)
    decreases |values| - i
  {
    if i == |values| then Applied(w, None) else
    match SetElement(c, w, i, values[i], false)
    case Err(why) => Applied(w, Some(why))
    case Ok(w') => SetAll(c, w', values, i + 1)
  }

  function Outcome(w: World, r: Result<World>): Applied {
    match r
    case Ok(w') => Applied(w', None)
    case Err(why) => Applied(w, Some(why))
  }

  function ApplyOne(c: Constant, w: World, value: Value): Applied
    requires Defined(c, |w.pages|)
  {
    match (c.cls, value)
    case (Scalar, Num(user)) => Outcome(w, SetConstant(c, w, user, false))
    case (Bits, _) =>
      (match FileIndex(c.labels, value)
       case None => Applied(w, Some(LabelNotFound))
       case Some(index) => Outcome(w, SetConstant(c, w, index as real, false)))
    case (Array, Numbers(values)) =>
      if |values| != ElementCount(c) then Applied(w, Some(LengthMismatch)) else SetAll(c, w, values, 0)
    case (Text, _) => Applied(w, Some(StringConstant))
    case _ => Applied(w, Some(ShapeMismatch))
  }

  lemma {:induction false} SetAllTouches(c: Constant, w: World, values: seq<real>, i: nat)
    requires i <= |values| && Defined(c, |w.pages|) && c.cls == Array && Location(c).Some?
    ensures var r := SetAll(c, w, values, i).world; SameOutside(w, r, {Footprint(c)}) && r.pc == w.pc
    decreases |values| - i
  {
    hide SetElement, SameOutside;
    SameOutsideItself(w, {Footprint(c)});
    if i == |values| {
    } else {
      var s := SetElement(c, w, i, values[i], false);
      if s.Ok? {
        SetElementTouches(c, w, i, values[i], false);
        SetAllTouches(c, s.value, values, i + 1);
        var r := SetAll(c, s.value, values, i + 1).world;
        SameOutsideChain(w, s.value, r, {Footprint(c)}, {Footprint(c)}, {Footprint(c)});
      }
    }
  }

  /** The bits an entry may write; strings are never written. */
  function Owned(c: Constant): set<Slot>
    requires BitsOrdered(c)
  {
    if Location(c).Some? && c.cls != Text then {Footprint(c)} else {}
  }

  /** Applying one entry changes nothing outside its constant's bits: its neighbours in the same word keep theirs. */
  lemma ApplyOneTouches(c: Constant, w: World, value: Value)
    requires Defined(c, |w.pages|)
    ensures var r := ApplyOne(c, w, value).world; SameOutside(w, r, Owned(c)) && r.pc == w.pc
  {
    hide SameOutside, Footprint;
    SameOutsideItself(w, Owned(c));
    match (c.cls, value)
    case (Scalar, Num(user)) =>
      if SetConstant(c, w, user, false).Ok? { SetConstantTouches(c, w, user, false); }
    case (Bits, _) =>
      var index := FileIndex(c.labels, value);
      if index.Some? && SetConstant(c, w, index.value as real, false).Ok? {
        SetConstantTouches(c, w, index.value as real, false);
      }
    case (Array, Numbers(values)) =>
      if |values| == ElementCount(c) {
        if Location(c).Some? { SetAllTouches(c, w, values, 0); } else { NowhereToWrite(c, w, values); }
      }
    case _ =>
  }

  lemma NowhereToWrite(c: Constant, w: World, values: seq<real>)
    requires Defined(c, |w.pages|) && c.cls == Array && Location(c).None?
    ensures SetAll(c, w, values, 0).world == w
  {}

  // ----- formulas that do not move ---------------------------------------------

  ghost predicate SamePc(u: World, v: World, names: set<string>) {
    forall n :: n !in names ==> (n in u.pc <==> n in v.pc) && (n in u.pc && n in v.pc ==> u.pc[n] == v.pc[n])
  }

  /** The formula reads none of these bits and none of these variables. */
  ghost predicate Ignores(f: Formula, slots: set<Slot>, names: set<string>) {
    forall u, v :: SameOutside(u, v, slots) && SamePc(u, v, names) ==> f(u) == f(v)
  }

  ghost predicate Steady(c: Constant, slots: set<Slot>, names: set<string>) {
    Ignores(c.scale, slots, names) && Ignores(c.translate, slots, names)
  }

  lemma EncodesAlike(c: Constant, u: World, v: World, slots: set<Slot>, names: set<string>, user: real)
    requires Steady(c, slots, names) && SameOutside(u, v, slots) && SamePc(u, v, names)
    ensures EncodeUser(c, u, user, false) == EncodeUser(c, v, user, false)
  {
    hide SameOutside, SamePc, Encode;
  }

  // ----- a verdict that does not move ------------------------------------------

  lemma ElementApart(c: Constant, at: Place, index: nat, slots: set<Slot>)
    requires BitsOrdered(c) && Location(c) == Some(at) && c.cls == Array && index < ElementCount(c)
    requires Apart(Footprint(c), slots)
    ensures Apart(ElementSlot(c, at, index), slots)
  {
    var n, z := ElementCount(c), Size(c.ty);
    assert index * z + z == (index + 1) * z <= n * z;
  }

  lemma {:induction false} ChangedAlike(c: Constant, u: World, v: World, slots: set<Slot>, names: set<string>,
                                        values: seq<real>, i: nat)
    requires BitsOrdered(c) && c.cls == Array && |values| == ElementCount(c) && i <= |values|
    requires Steady(c, slots, names) && SameOutside(u, v, slots) && SamePc(u, v, names)
    requires Location(c).Some? ==> Location(c).value.page < |u.pages| && Apart(Footprint(c), slots)
    ensures ChangedFrom(c, u, values, i) == ChangedFrom(c, v, values, i)
    decreases |values| - i
  {
    hide SameOutside, SamePc, EncodeUser, Steady, Apart;
    if i == |values| {
    } else {
      EncodesAlike(c, u, v, slots, names, values[i]);
      if Location(c).Some? {
        ElementApart(c, Location(c).value, i, slots);
        RawIsKept(c, u, v, Location(c).value, i, slots);
      }
      ChangedAlike(c, u, v, slots, names, values, i + 1);
    }
  }

  /** A string depends on its own bytes only. */
  lemma TextIsKept(c: Constant, u: World, v: World, slots: set<Slot>)
    requires Defined(c, |u.pages|) && c.cls == Text && SameOutside(u, v, slots)
    requires Location(c).Some? ==> Apart(Footprint(c), slots)
    ensures TextValue(c, u) == TextValue(c, v)
  {
    hide Bit, TrimEnd, Chars;
    if Location(c).Some? && c.textLength.Some? {
      var at, len := Location(c).value, c.textLength.value;
      var a, b := u.pages[at.page], v.pages[at.page];
      if at.offset + len <= |a| {
        forall j: nat | at.offset <= j < at.offset + len ensures a[j] == b[j] {
          forall k: nat | 8 * j <= k < 8 * j + 8 ensures Bit(a, k) == Bit(b, k) {
            NotCovered(Footprint(c), slots, k);
          }
          SameByte(a, b, j);
        }
        assert a[at.offset..at.offset + len] == b[at.offset..at.offset + len];
      }
    }
  }

  /** What happens outside a constant's bits, and outside what its scale reads, does not change its verdict. */
  lemma VerdictIsKept(c: Constant, u: World, v: World, slots: set<Slot>, names: set<string>, value: Value)
    requires Defined(c, |u.pages|) && BitsFit(c)
    requires c.cls != Text ==> Steady(c, slots, names)
    requires SameOutside(u, v, slots) && SamePc(u, v, names)
    requires Location(c).Some? ==> Apart(Footprint(c), slots)
    ensures Listed(c, u, value) == Listed(c, v, value)
  {
    hide SameOutside, SamePc, EncodeUser, Steady, Apart, ReadRaw, Field, TextValue;
    Lengths(u, v, slots);
    match c.cls
    case Scalar =>
      if value.Num? { EncodesAlike(c, u, v, slots, names, value.n); }
      if Location(c).Some? { RawIsKept(c, u, v, Location(c).value, 0, slots); }
    case Bits =>
      if Location(c).Some? && c.shape.Some? && c.shape.value.BitRange? { FieldIsKept(c, u, v, slots); }
    case Array =>
      if value.Numbers? && |value.values| == ElementCount(c) {
        ChangedAlike(c, u, v, slots, names, value.values, 0);
      }
    case Text => TextIsKept(c, u, v, slots);
  }

  /** Whether there is a field to read depends on page sizes only. */
  lemma ReadableAlike(c: Constant, u: World, v: World, slots: set<Slot>)
    requires SameOutside(u, v, slots)
    ensures ConstantRaw(c, u).Some? == ConstantRaw(c, v).Some?
  {}

  lemma Lengths(u: World, v: World, slots: set<Slot>)
    requires SameOutside(u, v, slots)
    ensures |u.pages| == |v.pages| && forall p :: 0 <= p < |u.pages| ==> |u.pages[p]| == |v.pages[p]|
  {}
}
