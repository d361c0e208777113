/** Named constants over the page bytes: reading, editing, and which bits each of them owns. */
module TuneState {
  import opened Options
  import opened Bytes
  import opened BitFields
  import opened TuneModel

  /** Page bytes and the values of the variables kept beside them. */
  datatype World = World(pages: seq<Blob>, pc: map<string, real>)

  /** A scale, translate or limit: a literal or an expression over the tune, absent when it does not evaluate. */
  type Formula = World -> Option<real>

  datatype Class = Scalar | Bits | Array | Text

  datatype Shape = BitRange(lo: nat, hi: nat) | Array1D(n: nat) | Array2D(x: nat, y: nat)

  datatype Constant = Constant(
    cls: Class, ty: DataType, page: Option<nat>, offset: Option<nat>, shape: Option<Shape>,
    scale: Formula, translate: Formula, low: Option<Formula>, high: Option<Formula>,
    labels: seq<string>, textLength: Option<nat>, noSave: bool)

  datatype Refusal =
    | UnknownConstant | NotAPageConstant | MalformedBits | OutOfPage | UseArrayElement | NotAnArray
    | IndexRange(index: nat, len: nat) | Unresolved | ZeroScale
    | LabelNotFound | LengthMismatch | StringConstant | ShapeMismatch

  datatype Result<+T> = Ok(value: T) | Err(why: Refusal)

  function ElementCount(c: Constant): nat {
    match c.shape
    case None => 0
    case Some(BitRange(_, _)) => 1
    case Some(Array1D(n)) => n
    case Some(Array2D(x, y)) => x * y
  }

  datatype Place = Place(page: nat, offset: nat)

  /** Pages are numbered from one; page zero is nowhere. */
  function Location(c: Constant): Option<Place> {
    if c.page.Some? && c.offset.Some? && c.page.value > 0 then Some(Place(c.page.value - 1, c.offset.value)) else None
  }

  /** What the operations rely on: page numbers name pages, and the arithmetic on bit ranges stays in 64 bits. */
  predicate Defined(c: Constant, pages: nat) {
    (Location(c).Some? ==> Location(c).value.page < pages) && BitsOrdered(c)
  }

  predicate BitsOrdered(c: Constant) {
    c.cls == Bits && c.shape.Some? && c.shape.value.BitRange? ==>
      c.shape.value.lo <= c.shape.value.hi < 64 && c.shape.value.hi - c.shape.value.lo < 62
  }

  /** The bit range lies in its word; what reaches past it is cut off when the field is written. */
  predicate BitsFit(c: Constant) {
    c.cls == Bits && c.shape.Some? && c.shape.value.BitRange? ==> c.shape.value.hi < 8 * Size(c.ty)
  }

  // ----- reading ---------------------------------------------------------------

  function RawAt(c: Constant, w: World, index: nat): Option<int> {
    match Location(c)
    case None => None
    case Some(at) =>
      if at.page >= |w.pages| then None else ReadRaw(w.pages[at.page], at.offset + index * Size(c.ty), c.ty)
  }

  /** The number a scalar holds, or the index a bit field holds. */
  function ConstantRaw(c: Constant, w: World): Option<int> {
    match RawAt(c, w, 0)
    case None => None
    case Some(raw) =>
      if c.cls != Bits then Some(raw)
      else if c.shape.Some? && c.shape.value.BitRange? && c.shape.value.lo <= c.shape.value.hi then
        Some(Field(raw, c.shape.value.lo, Width(c)))
      else None
  }

  function Width(c: Constant): nat
    requires c.shape.Some? && c.shape.value.BitRange? && c.shape.value.lo <= c.shape.value.hi
  {
    c.shape.value.hi - c.shape.value.lo + 1
  }

  function Element(c: Constant, w: World, index: nat): Option<real> {
    if c.cls != Array || index >= ElementCount(c) then None else
    match (RawAt(c, w, index), c.scale(w), c.translate(w))
    case (Some(raw), Some(scale), Some(translate)) => Some(Decode(raw, scale, translate))
    case _ => None
  }

  function ScalarValue(c: Constant, w: World): Option<real> {
    match (RawAt(c, w, 0), c.scale(w), c.translate(w))
    case (Some(raw), Some(scale), Some(translate)) => Some(Decode(raw, scale, translate))
    case _ => None
  }

  // ----- editing ---------------------------------------------------------------

  /** Raised to the lower limit, then cut to the upper one; a limit that does not evaluate is none. */
  function Limited(low: Option<Formula>, high: Option<Formula>, w: World, user: real): real {
    var lifted := match low
      case Some(low) => (match low(w) case Some(v) => if user < v then v else user case None => user)
      case None => user;
    match high
    case Some(high) => (match high(w) case Some(v) => if lifted > v then v else lifted case None => lifted)
    case None => lifted
  }

  function Limit(limit: Option<Formula>, w: World): Option<real> {
    match limit case None => None case Some(f) => f(w)
  }

  predicate Within(low: Option<Formula>, high: Option<Formula>, w: World, x: real) {
    && (Limit(low, w).Some? ==> Limit(low, w).value <= x)
    && (Limit(high, w).Some? ==> x <= Limit(high, w).value)
  }

  predicate Contradict(low: Option<Formula>, high: Option<Formula>, w: World) {
    Limit(low, w).Some? && Limit(high, w).Some? && Limit(low, w).value > Limit(high, w).value
  }

  /**
   Limiting gives the value within the limits that is closest to what was asked for, and so leaves alone what
   is within them; where the limits contradict each other it gives the upper one.
   */
  lemma LimitedIsClosest(low: Option<Formula>, high: Option<Formula>, w: World, user: real, other: real)
    ensures var r := Limited(low, high, w, user);
      if Contradict(low, high, w) then r == Limit(high, w).value
      else Within(low, high, w, r) && (Within(low, high, w, other) ==> Abs(r - user) <= Abs(other - user))
    ensures Within(low, high, w, user) ==> Limited(low, high, w, user) == user
  {
  }

  /** Interactive edits respect the limits; restoring and comparing files does not. */
  function EncodeUser(c: Constant, w: World, user: real, clamp: bool): (r: Result<int>)
    ensures r.Ok? ==> InRange(c.ty, r.value)
  {
    match (c.scale(w), c.translate(w))
    case (Some(scale), Some(translate)) =>
      if scale == 0.0 then Err(ZeroScale)
      else Ok(Encode(c.ty, if clamp then Limited(c.low, c.high, w, user) else user, scale, translate))
    case _ => Err(Unresolved)
  }

  const U64_MAX: int := 0xffff_ffff_ffff_ffff

  /** The index a number selects: rounded, not below zero, capped at 64 bits, and cut to the field. */
  function Selected(user: real, width: nat): (v: nat)
    ensures v < Pow2(width)
  {
    var n := Round(user);
    (if n < 0 then 0 else if n > U64_MAX then U64_MAX else n) % Pow2(width)
  }

  function Stored(w: World, page: nat, bytes: Blob): World
    requires page < |w.pages|
  {
    w.(pages := w.pages[page := bytes])
  }

  function PutRaw(c: Constant, w: World, at: Place, index: nat, raw: int): World
    requires at.page < |w.pages|
  {
    Stored(w, at.page, WriteRaw(w.pages[at.page], at.offset + index * Size(c.ty), c.ty, raw))
  }

  function SetConstant(c: Constant, w: World, user: real, clamp: bool): (r: Result<World>)
    requires Defined(c, |w.pages|)
    ensures r.Ok? ==> |r.value.pages| == |w.pages|
  {
    match Location(c)
    case None => Err(NotAPageConstant)
    case Some(at) =>
      match c.cls
      case Scalar =>
        (match EncodeUser(c, w, user, clamp)
         case Err(why) => Err(why)
         case Ok(raw) => Ok(PutRaw(c, w, at, 0, raw)))
      case Bits =>
        if c.shape.None? || !c.shape.value.BitRange? then Err(MalformedBits) else
        (match RawAt(c, w, 0)
         case None => Err(OutOfPage)
         case Some(raw) =>
           Ok(PutRaw(c, w, at, 0, WithField(raw, c.shape.value.lo, Width(c), Selected(user, Width(c))))))
      case _ => Err(UseArrayElement)
  }

  function SetElement(c: Constant, w: World, index: nat, user: real, clamp: bool): (r: Result<World>)
    requires Defined(c, |w.pages|)
    ensures r.Ok? ==> |r.value.pages| == |w.pages|
  {
    if c.cls != Array then Err(NotAnArray)
    else if index >= ElementCount(c) then Err(IndexRange(index, ElementCount(c))) else
    match Location(c)
    case None => Err(NotAPageConstant)
    case Some(at) =>
      match EncodeUser(c, w, user, clamp)
      case Err(why) => Err(why)
      case Ok(raw) => Ok(PutRaw(c, w, at, index, raw))
  }

  // ----- footprints ------------------------------------------------------------

  /** A run of bits of one page. */
  datatype Slot = Slot(page: nat, pos: nat, width: nat)

  predicate Covers(s: Slot, page: nat, k: nat) {
    s.page == page && s.pos <= k < s.pos + s.width
  }

  predicate Disjoint(s: Slot, t: Slot) {
    s.page != t.page || s.pos + s.width <= t.pos || t.pos + t.width <= s.pos
  }

  function ElementSlot(c: Constant, at: Place, index: nat): Slot {
    Slot(at.page, 8 * (at.offset + index * Size(c.ty)), 8 * Size(c.ty))
  }

  /** The bits a constant owns. */
  function Footprint(c: Constant): Slot
    requires Location(c).Some? && BitsOrdered(c)
  {
    var at := Location(c).value;
    match c.cls
    case Bits =>
      if c.shape.Some? && c.shape.value.BitRange? then
        Slot(at.page, 8 * at.offset + c.shape.value.lo, Width(c))
      else Slot(at.page, 0, 0)
    case Array => Slot(at.page, 8 * at.offset, 8 * (ElementCount(c) * Size(c.ty)))
    case Scalar => Slot(at.page, 8 * at.offset, 8 * Size(c.ty))
    case Text => Slot(at.page, 8 * at.offset, if c.textLength.Some? then 8 * c.textLength.value else 0)
  }

  ghost predicate SameShape(u: World, v: World) {
    |u.pages| == |v.pages| && forall p :: 0 <= p < |u.pages| ==> |u.pages[p]| == |v.pages[p]|
  }

  predicate AnyCovers(slots: set<Slot>, page: nat, k: nat) {
    exists s <- slots :: Covers(s, page, k)
  }

  /** The two worlds differ at most in bits that some slot covers. */
  ghost predicate SameOutside(u: World, v: World, slots: set<Slot>) {
    && SameShape(u, v)
    && forall p: nat, k: nat :: p < |u.pages| && k < 8 * |u.pages[p]| && !AnyCovers(slots, p, k) ==>
         Bit(u.pages[p], k) == Bit(v.pages[p], k)
  }

  lemma SameOutsideItself(w: World, slots: set<Slot>)
    ensures SameOutside(w, w, slots)
  {}

  lemma SameOutsideChain(u: World, v: World, w: World, s: set<Slot>, t: set<Slot>, all: set<Slot>)
    requires SameOutside(u, v, s) && SameOutside(v, w, t) && s <= all && t <= all
    ensures SameOutside(u, w, all)
  {
    hide Covers, Bit;
    forall p: nat, k: nat | p < |u.pages| && k < 8 * |u.pages[p]| && !AnyCovers(all, p, k)
      ensures Bit(u.pages[p], k) == Bit(w.pages[p], k)
    {
      assert !AnyCovers(s, p, k) && !AnyCovers(t, p, k);
    }
  }

  /** Writing one element touches its slot only. */
  lemma PutTouches(c: Constant, w: World, at: Place, index: nat, raw: int)
    requires at.page < |w.pages|
    ensures SameOutside(w, PutRaw(c, w, at, index, raw), {ElementSlot(c, at, index)})
  {
    hide BitOf, Bit, WriteRaw;
    var s := ElementSlot(c, at, index);
    var u := PutRaw(c, w, at, index, raw);
    forall p: nat, k: nat | p < |w.pages| && k < 8 * |w.pages[p]| && !AnyCovers({s}, p, k)
      ensures Bit(w.pages[p], k) == Bit(u.pages[p], k)
    {
      assert !Covers(s, p, k);
      if p == at.page { WriteBits(w.pages[p], at.offset + index * Size(c.ty), c.ty, raw, k); }
    }
  }

  lemma SlotsInside(c: Constant, at: Place, index: nat)
    requires Location(c) == Some(at) && c.cls == Array && index < ElementCount(c)
    requires BitsOrdered(c)
    ensures forall k: nat :: Covers(ElementSlot(c, at, index), at.page, k) ==> Covers(Footprint(c), at.page, k)
  {
    var n, z := ElementCount(c), Size(c.ty);
    assert index * z + z == (index + 1) * z <= n * z;
  }

  // ----- edits stay in their footprint -----------------------------------------

  lemma SetConstantTouches(c: Constant, w: World, user: real, clamp: bool)
    requires Defined(c, |w.pages|) && SetConstant(c, w, user, clamp).Ok?
    ensures SameOutside(w, SetConstant(c, w, user, clamp).value, {Footprint(c)})
    ensures SetConstant(c, w, user, clamp).value.pc == w.pc
  {
    var at := Location(c).value;
    match c.cls
    case Scalar =>
      PutTouches(c, w, at, 0, EncodeUser(c, w, user, clamp).value);
    case Bits =>
      SetBitsTouches(c, w, user);
  }

  lemma SetBitsTouches(c: Constant, w: World, user: real)
    requires Defined(c, |w.pages|) && c.cls == Bits && SetConstant(c, w, user, false).Ok?
    ensures SameOutside(w, SetConstant(c, w, user, false).value, {Footprint(c)})
  {
    hide BitOf, Bit, WriteRaw, ReadRaw, WithField, Selected, Pow2;
    var at := Location(c).value;
    var raw := RawAt(c, w, 0).value;
    var lo, width := c.shape.value.lo, Width(c);
    var v := Selected(user, width);
    var s := Footprint(c);
    var u := SetConstant(c, w, user, false).value;
    forall p: nat, k: nat | p < |w.pages| && k < 8 * |w.pages[p]| && !AnyCovers({s}, p, k)
      ensures Bit(w.pages[p], k) == Bit(u.pages[p], k)
    {
      assert !Covers(s, p, k);
      if p == at.page {
        WriteBits(w.pages[p], at.offset, c.ty, WithField(raw, lo, width, v), k);
        if 8 * at.offset <= k < 8 * at.offset + 8 * Size(c.ty) {
          WithFieldBits(raw, lo, width, v, k - 8 * at.offset);
          ReadBits(w.pages[p], at.offset, c.ty, k - 8 * at.offset);
        }
      }
    }
  }

  lemma SetElementTouches(c: Constant, w: World, index: nat, user: real, clamp: bool)
    requires Defined(c, |w.pages|) && SetElement(c, w, index, user, clamp).Ok?
    ensures SameOutside(w, SetElement(c, w, index, user, clamp).value, {Footprint(c)})
    ensures SetElement(c, w, index, user, clamp).value.pc == w.pc
  {
    var at := Location(c).value;
    var raw := EncodeUser(c, w, user, clamp).value;
    PutTouches(c, w, at, index, raw);
    SlotsInside(c, at, index);
    Widen(w, PutRaw(c, w, at, index, raw), ElementSlot(c, at, index), Footprint(c));
  }

  lemma Widen(u: World, v: World, s: Slot, t: Slot)
    requires SameOutside(u, v, {s}) && s.page == t.page
    requires forall k: nat :: Covers(s, s.page, k) ==> Covers(t, s.page, k)
    ensures SameOutside(u, v, {t})
  {
    hide Bit;
    forall p: nat, k: nat | p < |u.pages| && k < 8 * |u.pages[p]| && !AnyCovers({t}, p, k)
      ensures Bit(u.pages[p], k) == Bit(v.pages[p], k)
    {
      assert !Covers(t, p, k);
      assert !Covers(s, p, k);
      assert !AnyCovers({s}, p, k);
    }
  }

  // ----- reads look only at their footprint ------------------------------------

  ghost predicate Apart(s: Slot, slots: set<Slot>) {
    forall t <- slots :: Disjoint(s, t)
  }

  lemma RawIsKept(c: Constant, u: World, v: World, at: Place, index: nat, slots: set<Slot>)
    requires Location(c) == Some(at) && at.page < |u.pages|
    requires SameOutside(u, v, slots) && Apart(ElementSlot(c, at, index), slots)
    ensures RawAt(c, u, index) == RawAt(c, v, index)
  {
    hide BitOf, Bit, ReadRaw;
    var a, b, off := u.pages[at.page], v.pages[at.page], at.offset + index * Size(c.ty);
    if InPage(a, off, c.ty) {
      forall k: nat | 8 * off <= k < 8 * off + 8 * Size(c.ty) ensures Bit(a, k) == Bit(b, k) {
        NotCovered(ElementSlot(c, at, index), slots, k);
      }
      ReadsSame(a, b, off, c.ty);
    }
  }

  lemma NotCovered(s: Slot, slots: set<Slot>, k: nat)
    requires Apart(s, slots) && Covers(s, s.page, k)
    ensures !AnyCovers(slots, s.page, k)
  {}

  lemma FieldIsKept(c: Constant, u: World, v: World, slots: set<Slot>)
    requires c.cls == Bits && Location(c).Some? && Defined(c, |u.pages|) && BitsFit(c)
    requires c.shape.Some? && c.shape.value.BitRange?
    requires SameOutside(u, v, slots) && Apart(Footprint(c), slots)
    ensures ConstantRaw(c, u) == ConstantRaw(c, v)
  {
    hide BitOf, Bit, ReadRaw, Field;
    var at := Location(c).value;
    var a, b := u.pages[at.page], v.pages[at.page];
    if InPage(a, at.offset, c.ty) {
      var lo, width := c.shape.value.lo, Width(c);
      forall k: nat | 8 * at.offset + lo <= k < 8 * at.offset + lo + width ensures Bit(a, k) == Bit(b, k) {
        NotCovered(Footprint(c), slots, k);
      }
      FieldReadsSame(a, b, at.offset, c.ty, lo, width);
    }
  }

  // ----- an edit reads back ----------------------------------------------------

  lemma ScalarReadsBack(c: Constant, w: World, user: real, clamp: bool)
    requires Defined(c, |w.pages|) && c.cls == Scalar && SetConstant(c, w, user, clamp).Ok? && RawAt(c, w, 0).Some?
    ensures RawAt(c, SetConstant(c, w, user, clamp).value, 0) == Some(EncodeUser(c, w, user, clamp).value)
  {
    hide ReadRaw, WriteRaw, EncodeUser;
    var at := Location(c).value;
    ReadAfterWrite(w.pages[at.page], at.offset, c.ty, EncodeUser(c, w, user, clamp).value);
  }

  lemma ElementReadsBack(c: Constant, w: World, index: nat, user: real, clamp: bool)
    requires Defined(c, |w.pages|) && SetElement(c, w, index, user, clamp).Ok? && RawAt(c, w, index).Some?
    ensures RawAt(c, SetElement(c, w, index, user, clamp).value, index) == Some(EncodeUser(c, w, user, clamp).value)
  {
    hide ReadRaw, WriteRaw, EncodeUser;
    var at := Location(c).value;
    ReadAfterWrite(w.pages[at.page], at.offset + index * Size(c.ty), c.ty, EncodeUser(c, w, user, clamp).value);
  }

  lemma BitsReadBack(c: Constant, w: World, user: real, clamp: bool)
    requires Defined(c, |w.pages|) && BitsFit(c) && c.cls == Bits && SetConstant(c, w, user, clamp).Ok?
    ensures ConstantRaw(c, SetConstant(c, w, user, clamp).value) == Some(Selected(user, Width(c)))
  {
    hide ReadRaw, WriteRaw, Field, WithField, BitOf, Selected, Pow2;
    var at := Location(c).value;
    var page := w.pages[at.page];
    var raw := RawAt(c, w, 0).value;
    var lo, width := c.shape.value.lo, Width(c);
    var v := Selected(user, width);
    var next := WithField(raw, lo, width, v);
    var after := WriteRaw(page, at.offset, c.ty, next);
    var read := ReadRaw(after, at.offset, c.ty).value;
    forall k: nat | k < width ensures BitOf(Field(read, lo, width), k) == BitOf(v, k) {
      FieldBits(read, lo, width, k);
      ReadBits(after, at.offset, c.ty, lo + k);
      WriteBits(page, at.offset, c.ty, next, 8 * at.offset + lo + k);
      WithFieldBits(raw, lo, width, v, lo + k);
    }
    SameBitsSameNumber(Field(read, lo, width), v, width);
  }

  // ----- the tune object -------------------------------------------------------

  /** A setting kept beside the pages. */
  datatype Variable = Variable(cls: Class, labels: seq<string>, low: Option<Formula>, high: Option<Formula>)

  ghost predicate AllDefined(cs: map<string, Constant>, pages: nat) {
    forall name <- cs :: Defined(cs[name], pages)
  }

  class Tune {
    const constants: map<string, Constant>
    const variables: map<string, Variable>
    var pages: seq<Blob>
    var pc: map<string, real>

    constructor (cs: map<string, Constant>, vs: map<string, Variable>, sizes: seq<nat>, defaults: map<string, real>)
      requires AllDefined(cs, |sizes|)
      ensures constants == cs && variables == vs && Valid()
      ensures pc == defaults && pages == seq(|sizes|, i requires 0 <= i < |sizes| => seq(sizes[i], _ => 0))
    {
      constants, variables := cs, vs;
      pages, pc := seq(|sizes|, i requires 0 <= i < |sizes| => seq(sizes[i], _ => 0)), defaults;
    }

    ghost predicate Valid() reads this {
      AllDefined(constants, |pages|)
    }

    function Now(): World reads this {
      World(pages, pc)
    }

    method WriteConstant(name: string, user: real, clamp: bool) returns (refused: Option<Refusal>)
      requires Valid()
      modifies this`pages
      ensures Valid()
      ensures name !in constants ==> refused == Some(UnknownConstant) && Now() == old(Now())
      ensures name in constants ==>
        match SetConstant(constants[name], old(Now()), user, clamp)
        case Ok(w) => refused == None && Now() == w
        case Err(why) => refused == Some(why) && Now() == old(Now())
    {
      if name !in constants { return Some(UnknownConstant); }
      var c := constants[name];
      var at := Location(c);
      if at.None? { return Some(NotAPageConstant); }
      var page := pages[at.value.page];
      match c.cls {
        case Scalar =>
          var raw := EncodeUser(c, Now(), user, clamp);
          if raw.Err? { return Some(raw.why); }
          pages := pages[at.value.page := WriteRaw(page, at.value.offset, c.ty, raw.value)];
          refused := None;
        case Bits =>
          if c.shape.None? || !c.shape.value.BitRange? { return Some(MalformedBits); }
          var current := ReadRaw(page, at.value.offset, c.ty);
          if current.None? { return Some(OutOfPage); }
          var lo, width := c.shape.value.lo, c.shape.value.hi - c.shape.value.lo + 1;
          var raw := WithField(current.value, lo, width, Selected(user, width));
          pages := pages[at.value.page := WriteRaw(page, at.value.offset, c.ty, raw)];
          refused := None;
        case _ =>
          refused := Some(UseArrayElement);
      }
    }

    method WriteElement(name: string, index: nat, user: real, clamp: bool) returns (refused: Option<Refusal>)
      requires Valid()
      modifies this`pages
      ensures Valid()
      ensures name !in constants ==> refused == Some(UnknownConstant) && Now() == old(Now())
      ensures name in constants ==>
        match SetElement(constants[name], old(Now()), index, user, clamp)
        case Ok(w) => refused == None && Now() == w
        case Err(why) => refused == Some(why) && Now() == old(Now())
    {
      if name !in constants { return Some(UnknownConstant); }
      var c := constants[name];
      if c.cls != Array { return Some(NotAnArray); }
      if index >= ElementCount(c) { return Some(IndexRange(index, ElementCount(c))); }
      var at := Location(c);
      if at.None? { return Some(NotAPageConstant); }
      var raw := EncodeUser(c, Now(), user, clamp);
      if raw.Err? { return Some(raw.why); }
      var page := WriteRaw(pages[at.value.page], at.value.offset + index * Size(c.ty), c.ty, raw.value);
      pages := pages[at.value.page := page];
      refused := None;
    }

    method WriteVariable(name: string, user: real) returns (refused: Option<Refusal>)
      requires Valid()
      modifies this`pc
      ensures Valid()
      ensures name !in variables ==> refused == Some(UnknownConstant) && pc == old(pc)
      ensures name in variables ==>
        refused == None && pc == old(pc)[name := Limited(variables[name].low, variables[name].high, old(Now()), user)]
    {
      if name !in variables { return Some(UnknownConstant); }
      pc := pc[name := Limited(variables[name].low, variables[name].high, Now(), user)];
      refused := None;
    }
  }
}
