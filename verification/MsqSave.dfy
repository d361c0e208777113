/** Saving the tune and reading it back. */
module MsqSave {
  import opened Options
  import opened Bytes
  import opened BitFields
  import opened TuneModel
  import opened TuneState
  import opened Msq
  import opened MsqApply

  // ----- numbers in the file ---------------------------------------------------

  /** Six decimals, as a saved number is printed. */
  function SixDecimals(v: real): real {
    Round(v * 1000000.0) as real / 1000000.0
  }

  lemma SixDecimalsIsNear(v: real)
    ensures Abs(SixDecimals(v) - v) <= 0.0000005
  {
    RoundIsNear(v * 1000000.0);
  }

  ghost predicate Drifts(ty: DataType, raw: int, scale: real, translate: real)
    requires scale != 0.0
  {
    Encode(ty, SixDecimals(Decode(raw, scale, translate)), scale, translate) != raw
  }

  lemma NoDrift(ty: DataType, raw: int, scale: real, translate: real)
    requires Abs(scale) > 0.000001 && InRange(ty, raw)
    ensures !Drifts(ty, raw, scale, translate)
  {
    hide Round, Clamp, InRange;
    var v := Decode(raw, scale, translate);
    SixDecimalsIsNear(v);
    var e := SixDecimals(v) - v;
    SmallQuotient(e, scale);
    assert v / scale == raw as real + translate;
    assert SixDecimals(v) / scale == (v + e) / scale == v / scale + e / scale;
    assert SixDecimals(v) / scale - translate == raw as real + e / scale;
    RoundWithin(raw, e / scale);
    ClampInRange(ty, raw);
  }

  lemma ClampInRange(ty: DataType, raw: int)
    requires InRange(ty, raw)
    ensures Clamp(ty, raw) == raw
  {}

  lemma SmallQuotient(e: real, scale: real)
    requires Abs(e) <= 0.0000005 && Abs(scale) > 0.000001
    ensures -0.5 < e / scale < 0.5
  {
    var q := e / scale;
    assert q * scale == e;
  }

  /** At a millionth and below, some value drifts: zero, with a translate worth half a last decimal. */
  lemma SmallScalesDrift(ty: DataType, scale: real)
    requires scale != 0.0 && Abs(scale) <= 0.000001
    ensures Drifts(ty, 0, scale, 0.0000005 / Abs(scale))
  {
    hide Lowest, Highest;
    var t := 0.0000005 / Abs(scale);
    var v := Decode(0, scale, t);
    var sign := if scale > 0.0 then 1 else -1;
    assert scale == sign as real * Abs(scale);
    assert t * Abs(scale) == 0.0000005;
    assert v == sign as real * 0.0000005;
    assert Round(v * 1000000.0) == sign;
    assert SixDecimals(v) == sign as real * 0.000001;
    assert SixDecimals(v) == sign as real * 0.000001;
    assert 2.0 * t * scale == sign as real * 0.000001;
    assert SixDecimals(v) / scale == 2.0 * t;
    assert t >= 0.5;
    RoundsUp(t);
    Positive(ty);
  }

  lemma RoundsUp(t: real)
    requires t >= 0.5
    ensures Round(t) >= 1
  {}

  lemma Positive(ty: DataType)
    ensures Lowest(ty) <= 0 && Highest(ty) >= 1
  {}

  /**
   Save then re-read keeps every raw value of the type, whatever the translate, exactly when the scale is
   larger than a millionth.
   */
  lemma DriftIff(ty: DataType, scale: real)
    requires scale != 0.0
    ensures (forall raw, translate :: InRange(ty, raw) ==> !Drifts(ty, raw, scale, translate)) <==> Abs(scale) > 0.000001
  {
    hide Drifts, InRange;
    if Abs(scale) > 0.000001 {
      forall raw, translate | InRange(ty, raw) ensures !Drifts(ty, raw, scale, translate) {
        NoDrift(ty, raw, scale, translate);
      }
    } else {
      SmallScalesDrift(ty, scale);
      ZeroInRange(ty);
      assert Drifts(ty, 0, scale, 0.0000005 / Abs(scale));
    }
  }

  lemma ZeroInRange(ty: DataType)
    ensures InRange(ty, 0)
  {}

  // ----- what is written -------------------------------------------------------

  /** The body of an element: quoted text, or numbers between blanks. */
  datatype Body = Quoted(text: string) | Figures(numbers: seq<real>)

  /** How a body reads: the text after the opening quote loses every quote at its end, and one number is no array. */
  function Read(b: Body): Value {
    match b
    case Quoted(text) => Words(TrimEnd(text + "\"", {'"'}))
    case Figures(numbers) =>
      if numbers == [] then Words("") else if |numbers| == 1 then Num(numbers[0]) else Numbers(numbers)
  }

  function ElementsFrom(c: Constant, w: World, i: nat): Option<seq<real>>
    requires i <= ElementCount(c)
    decreases ElementCount(c) - i
  {
    if i == ElementCount(c) then Some([]) else
    match (Element(c, w, i), ElementsFrom(c, w, i + 1))
    case (Some(v), Some(more)) => Some([SixDecimals(v)] + more)
    case _ => None
  }

  function SavedBody(c: Constant, w: World): Option<Body> {
    match c.cls
    case Scalar =>
      (match ScalarValue(c, w) case None => None case Some(v) => Some(Figures([SixDecimals(v)])))
    case Bits =>
      (match ConstantRaw(c, w)
       case None => None
       case Some(index) =>
         if 0 <= index < |c.labels| && c.labels[index] != INVALID then Some(Quoted(c.labels[index]))
         else Some(Figures([index as real])))
    case Array =>
      if c.shape.None? || c.shape.value.BitRange? then None else
      (match ElementsFrom(c, w, 0) case None => None case Some(vs) => Some(Figures(vs)))
    case Text =>
      (match TextValue(c, w) case None => None case Some(s) => Some(Quoted(s)))
  }

  // ----- what reads back the same ----------------------------------------------

  predicate EndsInQuote(s: string) {
    s != [] && s[|s| - 1] == '"'
  }

  lemma QuotedReadsBack(s: string)
    ensures Read(Quoted(s)) == Words(s) <==> !EndsInQuote(s)
  {
    var t := s + "\"";
    assert t[..|t| - 1] == s;
    assert TrimEnd(t, {'"'}) == TrimEnd(s, {'"'});
    TrimShortens(s, {'"'});
  }

  /** The label `20"` comes back as `20`. */
  lemma QuoteIsLost()
    ensures Read(Quoted(['2', '0', '"'])) == Words("20") != Words(['2', '0', '"'])
  {
    var s: string := ['2', '0', '"'];
    var t := s + "\"";
    assert t[..|t| - 1] == s && s[..2] == "20";
    assert TrimEnd(t, {'"'}) == TrimEnd(s, {'"'}) == TrimEnd("20", {'"'});
  }

  lemma {:induction false} TrimShortens(s: string, dropped: set<char>)
    ensures |TrimEnd(s, dropped)| <= |s|
    ensures TrimEnd(s, dropped) == s <==> s == [] || s[|s| - 1] !in dropped
    decreases |s|
  {
    if s != [] && s[|s| - 1] in dropped { TrimShortens(s[..|s| - 1], dropped); }
  }

  /** Only `INVALID` may be shared by several indices. */
  ghost predicate LabelsTellApart(labels: seq<string>) {
    && (forall i, j :: 0 <= i < j < |labels| && labels[i] != INVALID ==> labels[i] != labels[j])
    && forall i :: 0 <= i < |labels| ==> !EndsInQuote(labels[i])
  }

  lemma BitsReadBackTheSame(c: Constant, w: World)
    requires Defined(c, |w.pages|) && c.cls == Bits && LabelsTellApart(c.labels)
    ensures match SavedBody(c, w)
      case None => true
      case Some(b) => FileIndex(c.labels, Read(b)) == Some(ConstantRaw(c, w).value)
  {
    hide ConstantRaw, Field;
    if ConstantRaw(c, w).Some? {
      var index := ConstantRaw(c, w).value;
      if 0 <= index < |c.labels| && c.labels[index] != INVALID {
        QuotedReadsBack(c.labels[index]);
        assert Position(c.labels, c.labels[index]) == Some(index);
      } else {
        RawFits(c, w);
        assert Truncated(index as real) == index;
      }
    }
  }

  lemma RawFits(c: Constant, w: World)
    requires BitsOrdered(c) && c.cls == Bits && ConstantRaw(c, w).Some?
    ensures 0 <= ConstantRaw(c, w).value <= I64_MAX
  {
    hide Field, ReadRaw, Pow2;
    PowGrows(Width(c), 63);
    LongPower();
  }

  lemma LongPower()
    ensures Pow2(63) == I64_MAX + 1
  {
    EightBytes();
    assert Pow2(64) == 2 * Pow2(63);
  }

  lemma EightBytes()
    ensures Pow2(64) == 0x1_0000_0000_0000_0000
  {
    hide Pow2;
    WordPowers();
    PowBytes(4);
    PowBytes(5);
    PowBytes(6);
    PowBytes(7);
  }

  lemma {:induction false} PowGrows(a: nat, b: nat)
    requires a <= b
    ensures Pow2(a) <= Pow2(b)
    decreases b - a
  {
    if a < b { PowGrows(a, b - 1); }
  }

  /** A scale that re-reads exactly: larger than a millionth, or unusable for writing anyway. */
  predicate SafeScale(c: Constant, w: World) {
    c.scale(w).Some? ==> c.scale(w).value == 0.0 || Abs(c.scale(w).value) > 0.000001
  }

  lemma NumberReadsBack(c: Constant, w: World, index: nat)
    requires SafeScale(c, w)
    ensures match (RawAt(c, w, index), c.scale(w), c.translate(w))
      case (Some(raw), Some(scale), Some(translate)) =>
        var r := EncodeUser(c, w, SixDecimals(Decode(raw, scale, translate)), false);
        r == Ok(raw) || r == Err(ZeroScale)
      case _ => true
  {
    hide SixDecimals, Decode, Encode, InRange, ReadRaw;
    match (RawAt(c, w, index), c.scale(w), c.translate(w))
    case (Some(raw), Some(scale), Some(translate)) =>
      RawIsInRange(c, w, index);
      if scale != 0.0 { NoDrift(c.ty, raw, scale, translate); }
    case _ =>
  }

  lemma RawIsInRange(c: Constant, w: World, index: nat)
    requires RawAt(c, w, index).Some?
    ensures InRange(c.ty, RawAt(c, w, index).value)
  {
    hide ReadRaw, InRange;
    var at := Location(c).value;
    ReadInRange(w.pages[at.page], at.offset + index * Size(c.ty), c.ty);
  }

  lemma {:induction false} ElementsAreRead(c: Constant, w: World, i: nat)
    requires i <= ElementCount(c)
    ensures match ElementsFrom(c, w, i)
      case None => true
      case Some(vs) =>
        && |vs| == ElementCount(c) - i
        && forall j :: i <= j < ElementCount(c) ==> Element(c, w, j).Some? && vs[j - i] == SixDecimals(Element(c, w, j).value)
    decreases ElementCount(c) - i
  {
    hide Element, SixDecimals, ElementCount;
    if i == ElementCount(c) {
    } else {
      ElementsAreRead(c, w, i + 1);
      var more := ElementsFrom(c, w, i + 1);
      if ElementsFrom(c, w, i).Some? {
        var vs := ElementsFrom(c, w, i).value;
        assert vs == [SixDecimals(Element(c, w, i).value)] + more.value;
        forall j | i <= j < ElementCount(c)
          ensures Element(c, w, j).Some? && vs[j - i] == SixDecimals(Element(c, w, j).value)
        {
          if j > i { assert vs[j - i] == more.value[j - (i + 1)]; }
        }
      }
    }
  }

  lemma ArrayReadsBackTheSame(c: Constant, w: World)
    requires c.cls == Array && SafeScale(c, w) && SavedBody(c, w).Some?
    ensures !Listed(c, w, Read(SavedBody(c, w).value))
  {
    hide Element, SixDecimals, ElementsFrom, ElementCount, EncodeUser, RawAt, Matches, ChangedFrom;
    ElementsAreRead(c, w, 0);
    var vs := ElementsFrom(c, w, 0).value;
    if |vs| > 1 {
      forall j: nat | j < |vs| ensures Matches(c, w, vs, j) {
        ElementMatches(c, w, vs, j);
      }
      AllMatching(c, w, vs, 0);
    }
  }

  lemma ElementMatches(c: Constant, w: World, values: seq<real>, j: nat)
    requires SafeScale(c, w) && j < |values|
    requires Element(c, w, j).Some? && values[j] == SixDecimals(Element(c, w, j).value)
    ensures Matches(c, w, values, j)
  {
    hide SixDecimals, EncodeUser, RawAt;
    NumberReadsBack(c, w, j);
  }

  /** What lets one constant survive its own saving. */
  ghost predicate Savable(c: Constant, w: World) {
    match c.cls
    case Bits => LabelsTellApart(c.labels)
    case Text => TextValue(c, w).Some? ==> !EndsInQuote(TextValue(c, w).value)
    case _ => SafeScale(c, w)
  }

  lemma SavedIsNotListed(c: Constant, w: World)
    requires Defined(c, |w.pages|) && Savable(c, w) && SavedBody(c, w).Some?
    ensures !Listed(c, w, Read(SavedBody(c, w).value))
  {
    hide SixDecimals, EncodeUser, RawAt, ConstantRaw, LabelsTellApart, EndsInQuote;
    match c.cls
    case Scalar => ScalarReadsBackTheSame(c, w);
    case Bits => BitsReadBackTheSame(c, w);
    case Array => ArrayReadsBackTheSame(c, w);
    case Text => QuotedReadsBack(TextValue(c, w).value);
  }

  lemma ScalarReadsBackTheSame(c: Constant, w: World)
    requires c.cls == Scalar && SafeScale(c, w) && SavedBody(c, w).Some?
    ensures !Listed(c, w, Read(SavedBody(c, w).value))
  {
    hide SixDecimals, EncodeUser, RawAt;
    NumberReadsBack(c, w, 0);
  }

  // ----- which constants are written -------------------------------------------

  datatype Span = Span(start: nat, end: nat)

  function ByteSpan(c: Constant): Span {
    var start := if c.offset.Some? then c.offset.value else 0;
    var size := match c.cls
      case Array => ElementCount(c) * Size(c.ty)
      case Text => if c.textLength.Some? then c.textLength.value else 0
      case _ => Size(c.ty);
    Span(start, start + size)
  }

  predicate Overlap(a: Span, b: Span) {
    a.start < b.end && b.start < a.end
  }

  predicate Taken(span: Span, owned: seq<Span>) {
    exists s <- owned :: Overlap(span, s)
  }

  type Saved = seq<(string, Body)>

  predicate OnPage(c: Constant, page: nat) {
    c.page == Some(page + 1) && !c.noSave
  }

  /** A page in definition order; bytes written once are not written again under another name, bit fields excepted. */
  function SavePage(order: seq<string>, cs: Constants, w: World, page: nat, owned: seq<Span>): Saved
    requires forall n <- order :: n in cs
  {
    if order == [] then [] else
    var name, rest := order[0], order[1..];
    var c := cs[name];
    if !OnPage(c, page) || (c.cls != Bits && Taken(ByteSpan(c), owned)) then SavePage(rest, cs, w, page, owned) else
    var more := SavePage(rest, cs, w, page, if c.cls == Bits then owned else owned + [ByteSpan(c)]);
    match SavedBody(c, w)
    case None => more
    case Some(b) => [(name, b)] + more
  }

  function SavePages(order: seq<string>, cs: Constants, w: World, page: nat): Saved
    requires forall n <- order :: n in cs
    requires page <= |w.pages|
    decreases |w.pages| - page
  {
    if page == |w.pages| then [] else SavePage(order, cs, w, page, []) + SavePages(order, cs, w, page + 1)
  }

  method Save(t: Tune, order: seq<string>) returns (out: Saved)
    requires forall n <- order :: n in t.constants
    ensures out == SavePages(order, t.constants, t.Now(), 0)
  {
    hide SavedBody;
    out := [];
    ghost var w := t.Now();
    for page := 0 to |t.pages|
      invariant out + SavePages(order, t.constants, w, page) == SavePages(order, t.constants, w, 0)
    {
      var owned: seq<Span> := [];
      ghost var before := out;
      for n := 0 to |order|
        invariant out + SavePage(order[n..], t.constants, w, page, owned) ==
                  before + SavePage(order, t.constants, w, page, [])
      {
        var name := order[n];
        var c := t.constants[name];
        assert order[n..][0] == name && order[n..][1..] == order[n + 1..];
        if c.page != Some(page + 1) || c.noSave { continue; }
        if c.cls != Bits {
          var span := ByteSpan(c);
          if exists s <- owned :: Overlap(span, s) { continue; }
          owned := owned + [span];
        }
        var body := SavedBody(c, t.Now());
        if body.Some? {
          ghost var more := SavePage(order[n + 1..], t.constants, w, page, owned);
          assert out + ([(name, body.value)] + more) == out + [(name, body.value)] + more;
          out := out + [(name, body.value)];
        }
      }
      PageDone(before, out, order, t.constants, w, page, owned);
    }
  }

  lemma PageDone(before: Saved, out: Saved, order: seq<string>, cs: Constants, w: World, page: nat, owned: seq<Span>)
    requires (forall n <- order :: n in cs) && page < |w.pages|
    requires out + SavePage(order[|order|..], cs, w, page, owned) == before + SavePage(order, cs, w, page, [])
    ensures out + SavePages(order, cs, w, page + 1) == before + SavePages(order, cs, w, page)
  {
    assert order[|order|..] == [];
    assert out == before + SavePage(order, cs, w, page, []);
  }

  lemma {:induction false} PageEntries(order: seq<string>, cs: Constants, w: World, page: nat, owned: seq<Span>)
    requires forall n <- order :: n in cs
    ensures forall x <- SavePage(order, cs, w, page, owned) :: x.0 in cs && SavedBody(cs[x.0], w) == Some(x.1)
    decreases |order|
  {
    hide SavedBody, Taken, OnPage;
    if order == [] {
    } else {
      var c := cs[order[0]];
      PageEntries(order[1..], cs, w, page, owned);
      PageEntries(order[1..], cs, w, page, owned + [ByteSpan(c)]);
    }
  }

  lemma {:induction false} PagesEntries(order: seq<string>, cs: Constants, w: World, page: nat)
    requires (forall n <- order :: n in cs) && page <= |w.pages|
    ensures forall x <- SavePages(order, cs, w, page) :: x.0 in cs && SavedBody(cs[x.0], w) == Some(x.1)
    decreases |w.pages| - page
  {
    hide SavedBody, SavePage;
    if page < |w.pages| {
      PageEntries(order, cs, w, page, []);
      PagesEntries(order, cs, w, page + 1);
    }
  }

  predicate Owns(cs: Constants, name: string) {
    name in cs && cs[name].cls != Bits
  }

  ghost predicate OwnedOnce(s: Saved, cs: Constants) {
    forall i, j :: 0 <= i < j < |s| && Owns(cs, s[i].0) && Owns(cs, s[j].0) ==>
      !Overlap(ByteSpan(cs[s[j].0]), ByteSpan(cs[s[i].0]))
  }

  ghost predicate Clear(s: Saved, cs: Constants, owned: seq<Span>) {
    forall x <- s :: Owns(cs, x.0) ==> !Taken(ByteSpan(cs[x.0]), owned)
  }

  /** No byte of a page is written under two names, bit fields aside. */
  lemma {:induction false} BytesAreSavedOnce(order: seq<string>, cs: Constants, w: World, page: nat, owned: seq<Span>)
    requires forall n <- order :: n in cs
    ensures var s := SavePage(order, cs, w, page, owned); OwnedOnce(s, cs) && Clear(s, cs, owned)
    decreases |order|
  {
    hide SavedBody, OnPage, ByteSpan, Overlap, Taken, OwnedOnce, Clear;
    if order == [] {
      NothingSaved(cs, owned);
    } else {
      var c := cs[order[0]];
      var owned' := if c.cls == Bits then owned else owned + [ByteSpan(c)];
      BytesAreSavedOnce(order[1..], cs, w, page, owned);
      BytesAreSavedOnce(order[1..], cs, w, page, owned');
      var more := SavePage(order[1..], cs, w, page, owned');
      if OnPage(c, page) && (c.cls == Bits || !Taken(ByteSpan(c), owned)) {
        match SavedBody(c, w)
        case None => Cleared(more, cs, c, owned);
        case Some(b) =>
          Cleared(more, cs, c, owned);
          OneMoreSaved((order[0], b), more, cs, owned);
      }
    }
  }

  lemma NothingSaved(cs: Constants, owned: seq<Span>)
    ensures OwnedOnce([], cs) && Clear([], cs, owned)
  {}

  lemma Cleared(more: Saved, cs: Constants, c: Constant, owned: seq<Span>)
    requires Clear(more, cs, if c.cls == Bits then owned else owned + [ByteSpan(c)])
    ensures Clear(more, cs, owned)
  {
    hide ByteSpan, Overlap;
    if c.cls != Bits {
      assert forall b :: Taken(b, owned) ==> Taken(b, owned + [ByteSpan(c)]) by {
        assert forall s <- owned :: s in owned + [ByteSpan(c)];
      }
    }
  }

  lemma OneMoreSaved(x: (string, Body), more: Saved, cs: Constants, owned: seq<Span>)
    requires x.0 in cs && OwnedOnce(more, cs) && Clear(more, cs, owned)
    requires Owns(cs, x.0) ==> !Taken(ByteSpan(cs[x.0]), owned) && Clear(more, cs, owned + [ByteSpan(cs[x.0])])
    ensures OwnedOnce([x] + more, cs) && Clear([x] + more, cs, owned)
  {
    hide ByteSpan, Overlap;
    var s := [x] + more;
    forall i, j | 0 <= i < j < |s| && Owns(cs, s[i].0) && Owns(cs, s[j].0)
      ensures !Overlap(ByteSpan(cs[s[j].0]), ByteSpan(cs[s[i].0]))
    {
      assert s[j] == more[j - 1] && s[j] in more;
      if i == 0 {
        assert ByteSpan(cs[x.0]) in owned + [ByteSpan(cs[x.0])];
        assert !Taken(ByteSpan(cs[s[j].0]), owned + [ByteSpan(cs[x.0])]);
      } else {
        assert s[i] == more[i - 1];
      }
    }
  }

  function Loaded(s: Saved): seq<Entry> {
    seq(|s|, i requires 0 <= i < |s| => Entry(s[i].0, Read(s[i].1)))
  }

  /**
   What a saved entry needs to be compared at all: a scalar a usable scale, and an
   array two elements, since a single number does not read back as an array.
   */
  predicate Comparable(c: Constant, w: World) {
    && (c.cls == Scalar ==> c.scale(w) != Some(0.0))
    && (c.cls == Array ==> ElementCount(c) >= 2)
  }

  lemma SavedCompares(c: Constant, w: World)
    requires Defined(c, |w.pages|) && Savable(c, w) && SavedBody(c, w).Some?
    ensures Compare(c, w, Read(SavedBody(c, w).value)).Uncompared? <==> !Comparable(c, w)
  {
    hide SixDecimals, RawAt, ConstantRaw, LabelsTellApart, EndsInQuote, ElementsFrom, ChangedFrom, ElementCount, Encode;
    match c.cls
    case Scalar => ScalarCompares(c, w);
    case Bits => BitsReadBackTheSame(c, w);
    case Array => ElementsAreRead(c, w, 0);
    case Text => QuotedReadsBack(TextValue(c, w).value);
  }

  lemma ScalarCompares(c: Constant, w: World)
    requires c.cls == Scalar && SafeScale(c, w) && SavedBody(c, w).Some?
    ensures Compare(c, w, Read(SavedBody(c, w).value)).Uncompared? <==> c.scale(w) == Some(0.0)
  {
    hide SixDecimals, RawAt, Encode;
    NumberReadsBack(c, w, 0);
  }

  /**
   A tune compared with what it saved shows no difference and no unknown name, and
   every entry was really compared exactly when each saved constant can be.
   */
  lemma SaveThenDiff(order: seq<string>, cs: Constants, w: World)
    requires AllDefined(cs, |w.pages|) && (forall n <- order :: n in cs)
    requires forall name <- cs :: Savable(cs[name], w)
    ensures var s := SavePages(order, cs, w, 0);
      var d := DiffOf(cs, w, Loaded(s));
      && d.entries == [] && d.onlyInFile == []
      && (d.unresolved == [] <==> forall x <- s :: x.0 in cs ==> Comparable(cs[x.0], w))
  {
    hide SavePages, Compare, SavedBody, Savable, Comparable;
    var s := SavePages(order, cs, w, 0);
    PagesEntries(order, cs, w, 0);
    forall i | 0 <= i < |s|
      ensures s[i].0 in cs && !Listed(cs[s[i].0], w, Read(s[i].1))
      ensures Compare(cs[s[i].0], w, Read(s[i].1)).Uncompared? <==> !Comparable(cs[s[i].0], w)
    {
      assert s[i] in s;
      SavedIsNotListed(cs[s[i].0], w);
      SavedCompares(cs[s[i].0], w);
    }
    var es := Loaded(s);
    forall e | e in es ensures e.name in cs && !Listed(cs[e.name], w, e.value) {
      var i :| 0 <= i < |s| && e == Entry(s[i].0, Read(s[i].1));
    }
    NothingToList(cs, w, es);
    AllCompared(cs, w, es);
    if forall e <- es :: !NotCompared(cs, w, e) {
      forall x | x in s && x.0 in cs ensures Comparable(cs[x.0], w) {
        var i :| 0 <= i < |s| && s[i] == x;
        assert es[i] in es && !NotCompared(cs, w, es[i]);
      }
    }
    if forall x <- s :: x.0 in cs ==> Comparable(cs[x.0], w) {
      forall e | e in es ensures !NotCompared(cs, w, e) {
        var i :| 0 <= i < |s| && e == Entry(s[i].0, Read(s[i].1));
        assert s[i] in s;
      }
    }
  }

  predicate NotCompared(cs: Constants, w: World, e: Entry) {
    e.name in cs && Compare(cs[e.name], w, e.value).Uncompared?
  }

  lemma {:induction false} AllCompared(cs: Constants, w: World, es: seq<Entry>)
    ensures DiffOf(cs, w, es).unresolved == [] <==> forall e <- es :: !NotCompared(cs, w, e)
    decreases |es|
  {
    hide Compare;
    if es == [] {
    } else {
      var front, last := es[..|es| - 1], es[|es| - 1];
      assert es == front + [last];
      assert forall e :: e in es <==> e in front || e == last;
      AllCompared(cs, w, front);
      NotedUnresolved(DiffOf(cs, w, front), cs, w, last);
    }
  }

  lemma NotedUnresolved(d: Diff, cs: Constants, w: World, e: Entry)
    ensures Noted(d, cs, w, e).unresolved == [] <==> d.unresolved == [] && !NotCompared(cs, w, e)
  {
    hide Compare;
  }

  lemma {:induction false} NothingToList(cs: Constants, w: World, es: seq<Entry>)
    requires forall e <- es :: e.name in cs && !Listed(cs[e.name], w, e.value)
    ensures DiffOf(cs, w, es).entries == [] && DiffOf(cs, w, es).onlyInFile == []
    decreases |es|
  {
    hide Compare;
    if es == [] {
    } else {
      var last := es[|es| - 1];
      assert last in es;
      NothingToList(cs, w, es[..|es| - 1]);
    }
  }
}
