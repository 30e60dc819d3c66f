/**
 What it means that a buffer holds a value, part by part, and that the converters make it so: the
 data written holds the value, and the value read is the one that the data holds.
 */
module Correspondence {
  import opened Flattening
  import opened Compiler
  import opened Translation
  import opened RoundTrip
  import opened History
  import X = XTypes
  import D = Dds

  /** A number and its slot: the same number, or the byte that is the same modulo 2^8. */
  predicate SameNumber(p: X.Prim, n: int, slot: int) {
    if p.Int8? then -0x80 <= n < 0x80 && 0 <= slot < 0x100 && (slot - n) % 0x100 == 0 else slot == n
  }

  /** An array of arrays as deep as its type says, each of the length it says. */
  predicate IsNested(t: X.XType, v: X.Value)
    requires t.Array?
  {
    v.Items? && |v.elems| == t.dim && (t.content.Array? ==> forall e | e in v.elems :: IsNested(t.content, e))
  }

  /** The element that an index vector leads to, one array after the other. */
  function ElementAt(t: X.XType, v: X.Value, ix: seq<nat>): X.Value
    requires t.Array? && IsNested(t, v) && |ix| == |Dims(t)| && InBounds(Dims(t), ix)
  {
    if t.content.Array? then
      InBoundsBelow(Dims(t), ix);
      assert Dims(t)[1..] == Dims(t.content);
      ElementAt(t.content, v.elems[ix[0]], ix[1..])
    else v.elems[ix[0]]
  }

  lemma InBoundsBelow(dims: seq<nat>, ix: seq<nat>)
    requires |ix| == |dims| > 0 && InBounds(dims, ix)
    ensures ix[0] < dims[0] && InBounds(dims[1..], ix[1..])
  {
  }

  function CellAt(dims: seq<nat>, ix: seq<nat>): (k: nat)
    requires |ix| == |dims| && InBounds(dims, ix)
    ensures k < Product(dims)
  {
    OffsetThenUnravel(dims, ix);
    Offset(dims, ix)
  }

  /** The discriminator `n` selects case `k`: by its label, or as the default when no case has that label. */
  predicate Selects(cs: seq<X.Case>, n: int, k: int) {
    && 0 <= k < |cs|
    && (X.AsInt64(n) in cs[k].labels || (cs[k].isDefault && forall c | c in cs :: X.AsInt64(n) !in c.labels))
  }

  /** The discriminator of a union whose case `k` was selected by name: its first label, if it has any. */
  predicate IsDiscriminatorOf(t: X.XType, k: nat, n: int)
    requires t.Union? && k < |t.cases|
  {
    if t.cases[k].labels == [] then n == t.spare
    else X.AsInt64(n) == t.cases[k].labels[0] && X.WellTyped(t.disc, X.Num(n))
  }

  /** A value as xTypes creates it: zeros, nothing in any collection, the first enumerator and the first case. */
  predicate IsInitial(t: X.XType, v: X.Value) {
    match t
    case Scalar(_) => v == X.Num(0)
    case Str(_, _) => v == X.Text([])
    case Enum(_, es) => v == X.Num(if es == [] then 0 else es[0])
    case Alias(_, target) => IsInitial(target, v)
    case Array(content, dim) => v.Items? && |v.elems| == dim && forall e | e in v.elems :: IsInitial(content, e)
    case Seq(_, _) => v == X.Items([])
    case Map(_, _, _) => v == X.Entries([])
    case Struct(_, ms) =>
      v.Fields? && |v.vals| == |ms| && forall i | 0 <= i < |ms| :: IsInitial(ms[i].typ, v.vals[i])
    case Union(_, _, spare, cs) =>
      if cs == [] then v == X.Choice(spare, X.Num(0))
      else v.Choice? && IsDiscriminatorOf(t, 0, v.disc) && IsInitial(cs[0].typ, v.payload)
  }

  /**
   The data holds the value. Data sent has the discriminator of each union, cast; data in which a
   union selects no member stands for the union as created; the discriminator of a value that was
   got from data is the one its case is selected with.
   */
  ghost predicate Holds(t: X.XType, v: X.Value, d: D.DData, sent: bool) {
    match t
    case Scalar(p) => v.Num? && d.Slot? && SameNumber(p, v.n, d.n)
    case Str(_, _) => v.Text? && d == D.TextSlot(v.chars)
    case Enum(_, _) => v.Num? && d == D.Slot(v.n)
    case Alias(_, target) => Holds(target, v, d, sent)
    case Array(_, _) =>
      && IsNested(t, v) && d.Cells? && |d.cells| == Product(Dims(t))
      && forall ix: seq<nat> | |ix| == |Dims(t)| && InBounds(Dims(t), ix) ::
           Holds(Innermost(t), ElementAt(t, v, ix), d.cells[CellAt(Dims(t), ix)], sent)
    case Seq(content, _) =>
      && v.Items? && d.SeqData? && |d.elems| == |v.elems|
      && forall i | 0 <= i < |v.elems| :: Holds(content, v.elems[i], d.elems[i], sent)
    case Map(key, value, _) =>
      && v.Entries? && d.MapData? && |d.slots| == 2 * |v.pairs|
      && forall i | 0 <= i < |v.pairs| ::
           Holds(key, v.pairs[i].key, d.slots[2 * i], sent) && Holds(value, v.pairs[i].value, d.slots[2 * i + 1], sent)
    case Struct(_, ms) =>
      && v.Fields? && d.StructData? && |v.vals| == |ms| == |d.fields|
      && forall i | 0 <= i < |ms| :: Holds(ms[i].typ, v.vals[i], d.fields[i], sent)
    case Union(_, _, _, cs) =>
      && v.Choice? && d.UnionData? && |d.members| == |cs|
      && if d.unionId == D.INVALID_ID && !sent then IsInitial(t, v)
         else
           && Selects(cs, v.disc, d.unionId)
           && (if sent then IsCast(v.disc, d.disc) else IsDiscriminatorOf(t, d.unionId, v.disc))
           && Holds(cs[d.unionId].typ, v.payload, d.members[d.unionId], sent)
  }

  /** Under the name of a member, the type built for a struct has the id of the part that holds it. */
  lemma FieldByName(t: X.XType, built: D.DType, v: X.Value, d: D.DData, sent: bool, i: nat)
    requires t.Struct? && X.Supported(t) && Stands(t, built) && Holds(t, v, d, sent) && i < |t.members|
    ensures var id := D.MemberNamed(built.members, t.members[i].name);
            && id < D.PartCount(d) && Stands(t.members[i].typ, built.members[id].typ)
            && Holds(t.members[i].typ, v.vals[i], D.Part(d, id), sent)
  {
    assert built.members[i].name == t.members[i].name;
    assert X.DistinctNames(t.members);
    assert D.MemberNamed(built.members, t.members[i].name) == i;
  }

  /** The same for the case that data sent has selected. */
  lemma CaseByName(t: X.XType, built: D.DType, v: X.Value, d: D.DData, i: nat)
    requires t.Union? && X.Supported(t) && Stands(t, built) && Holds(t, v, d, true) && Selects(t.cases, v.disc, i)
    ensures var id := D.CaseNamed(built.cases, t.cases[i].name);
            && d.unionId == id < D.PartCount(d) && Stands(t.cases[i].typ, built.cases[id].typ)
            && Holds(t.cases[i].typ, v.payload, D.Part(d, id), true)
  {
    OneSelected(t, v.disc, i, d.unionId);
    assert built.cases[i].name == t.cases[i].name;
    assert X.GoodCases(t);
    assert D.CaseNamed(built.cases, t.cases[i].name) == i;
  }

  /** A discriminator selects one case only. */
  lemma OneSelected(t: X.XType, n: int, j: int, k: int)
    requires t.Union? && X.Supported(t) && Selects(t.cases, n, j) && Selects(t.cases, n, k)
    ensures j == k
  {
    assert t.cases[j] in t.cases && t.cases[k] in t.cases;
    assert X.GoodCases(t);
  }

  // ---------------------------------------------------------------------------------------------
  // What is written holds the value

  lemma ActiveIsSelected(t: X.XType, n: int)
    requires t.Union? && X.ActiveCase(t.cases, n) < |t.cases|
    ensures Selects(t.cases, n, X.ActiveCase(t.cases, n))
  {
  }

  /** The cell at the offset of an index vector is the element that the vector leads to. */
  lemma {:induction false} CellWritten(t: X.XType, v: X.Value, ix: seq<nat>)
    requires t.Array? && X.Supported(t) && X.WellTyped(t, v) && |ix| == |Dims(t)| && InBounds(Dims(t), ix)
    ensures IsNested(t, v) && X.Supported(Innermost(t)) && X.WellTyped(Innermost(t), ElementAt(t, v, ix))
    ensures |CellsUpTo(t, v, t.dim)| == Product(Dims(t))
    ensures CellsUpTo(t, v, t.dim)[CellAt(Dims(t), ix)] == Element(Innermost(t), ElementAt(t, v, ix))
  {
    WellTypedIsNested(t, v);
    var i := ix[0];
    InnerProduct(t);
    CellsLength(t, v, t.dim);
    BlockOfElement(t, v, t.dim, i);
    CellInBlock(CellsUpTo(t, v, t.dim), Dims(t), ix);
    if t.content.Array? {
      CellWritten(t.content, v.elems[i], ix[1..]);
    } else {
      assert CellsOf(t, v, i) == [Element(t.content, v.elems[i])];
    }
  }

  lemma InnerProduct(t: X.XType)
    requires t.Array?
    ensures Dims(t)[0] == t.dim && Dims(t)[1..] == InnerDims(t) && Product(Dims(t)) == t.dim * Product(InnerDims(t))
    ensures t.content.Array? ==> InnerDims(t) == Dims(t.content)
  {
    FlattenedArray(t);
    ArrayDims(t);
    if t.content.Array? {
      FlattenedArray(t.content);
    }
  }

  /** An index vector addresses a cell of the block of its first index. */
  lemma CellInBlock(cells: seq<D.DData>, dims: seq<nat>, ix: seq<nat>)
    requires |ix| == |dims| > 0 && InBounds(dims, ix) && |cells| == Product(dims)
    ensures InBounds(dims[1..], ix[1..]) && (ix[0] + 1) * Product(dims[1..]) <= |cells|
    ensures cells[CellAt(dims, ix)] == Block(cells, ix[0], Product(dims[1..]))[CellAt(dims[1..], ix[1..])]
  {
    InBoundsBelow(dims, ix);
    MulMono(ix[0] + 1, dims[0], Product(dims[1..]));
    BlockItems(cells, ix[0], Product(dims[1..]));
  }

  lemma {:induction false} WellTypedIsNested(t: X.XType, v: X.Value)
    requires t.Array? && X.WellTyped(t, v)
    ensures IsNested(t, v)
  {
    if t.content.Array? {
      forall e | e in v.elems ensures IsNested(t.content, e) {
        WellTypedIsNested(t.content, e);
      }
    }
  }

  /** Whatever the buffer held before, it now holds the value. */
  lemma {:induction false} WrittenHolds(t: X.XType, v: X.Value, prior: D.DData)
    requires X.Supported(t) && X.WellTyped(t, v) && D.Conforms(Compile(t), prior)
    ensures Holds(t, v, Write(t, v, prior), true)
    decreases t, 1
  {
    match t
    case Scalar(_) | Str(_, _) | Enum(_, _) =>
    case Alias(_, target) => WrittenHolds(target, v, prior);
    case Array(_, _) => ArrayHolds(t, v, prior);
    case Seq(_, _) => SeqHolds(t, v, prior);
    case Map(_, _, _) => MapHolds(t, v, prior);
    case Struct(_, _) => StructHolds(t, v, prior);
    case Union(_, disc, _, cs) =>
      var k := X.ActiveCase(cs, v.disc);
      ActiveIsSelected(t, v.disc);
      DiscriminatorRange(disc, v.disc);
      WrittenHolds(cs[k].typ, v.payload, prior.members[k]);
  }

  lemma {:induction false} SeqHolds(t: X.XType, v: X.Value, prior: D.DData)
    requires t.Seq? && X.Supported(t) && X.WellTyped(t, v) && D.Conforms(Compile(t), prior)
    ensures Holds(t, v, Write(t, v, prior), true)
    decreases t, 0
  {
    var d := Write(t, v, prior);
    forall i | 0 <= i < |v.elems| ensures Holds(t.content, v.elems[i], d.elems[i], true) {
      WrittenHolds(t.content, v.elems[i], D.Fresh(Compile(t.content)));
      assert d.elems[i] == Element(t.content, v.elems[i]);
    }
  }

  lemma {:induction false} StructHolds(t: X.XType, v: X.Value, prior: D.DData)
    requires t.Struct? && X.Supported(t) && X.WellTyped(t, v) && D.Conforms(Compile(t), prior)
    ensures Holds(t, v, Write(t, v, prior), true)
    decreases t, 0
  {
    var d := Write(t, v, prior);
    forall i | 0 <= i < |t.members| ensures Holds(t.members[i].typ, v.vals[i], d.fields[i], true) {
      WrittenHolds(t.members[i].typ, v.vals[i], prior.fields[i]);
    }
  }

  lemma {:induction false} ArrayHolds(t: X.XType, v: X.Value, prior: D.DData)
    requires t.Array? && X.Supported(t) && X.WellTyped(t, v) && D.Conforms(Compile(t), prior)
    ensures Holds(t, v, Write(t, v, prior), true)
    decreases t, 0
  {
    WellTypedIsNested(t, v);
    FlattenedArray(t);
    CellsLength(t, v, t.dim);
    ArrayDims(t);
    forall ix: seq<nat> | |ix| == |Dims(t)| && InBounds(Dims(t), ix)
      ensures Holds(Innermost(t), ElementAt(t, v, ix), Write(t, v, prior).cells[CellAt(Dims(t), ix)], true)
    {
      CellWritten(t, v, ix);
      WrittenHolds(Innermost(t), ElementAt(t, v, ix), D.Fresh(Compile(Innermost(t))));
    }
  }

  lemma {:induction false} MapHolds(t: X.XType, v: X.Value, prior: D.DData)
    requires t.Map? && X.Supported(t) && X.WellTyped(t, v) && D.Conforms(Compile(t), prior)
    ensures Holds(t, v, Write(t, v, prior), true)
    decreases t, 0
  {
    var d := Write(t, v, prior);
    forall i | 0 <= i < |v.pairs|
      ensures Holds(t.key, v.pairs[i].key, d.slots[2 * i], true)
      ensures Holds(t.value, v.pairs[i].value, d.slots[2 * i + 1], true)
    {
      PairSlots(t, v, prior, i);
      WrittenHolds(t.key, v.pairs[i].key, D.Fresh(Compile(t.key)));
      WrittenHolds(t.value, v.pairs[i].value, D.Fresh(Compile(t.value)));
    }
  }

  /** Data that holds the value looks like any other that does. */
  lemma {:induction false} OneLook(t: X.XType, v: X.Value, d: D.DData, e: D.DData)
    requires X.Supported(t) && Holds(t, v, d, true) && Holds(t, v, e, true)
    ensures D.Visible(d) == D.Visible(e)
    decreases t, 1
  {
    match t
    case Scalar(_) | Str(_, _) | Enum(_, _) =>
    case Alias(_, target) => OneLook(target, v, d, e);
    case Array(_, _) => OneLookOfCells(t, v, d, e);
    case Seq(_, _) => OneLookOfElements(t, v, d, e);
    case Map(_, _, _) => OneLookOfPairs(t, v, d, e);
    case Struct(_, _) => OneLookOfFields(t, v, d, e);
    case Union(_, _, _, _) => OneLookOfCase(t, v, d, e);
  }

  lemma {:induction false} OneLookOfCase(t: X.XType, v: X.Value, d: D.DData, e: D.DData)
    requires t.Union? && X.Supported(t) && Holds(t, v, d, true) && Holds(t, v, e, true)
    ensures D.Visible(d) == D.Visible(e)
    decreases t, 0
  {
    OneSelected(t, v.disc, d.unionId, e.unionId);
    OneLook(t.cases[d.unionId].typ, v.payload, d.members[d.unionId], e.members[e.unionId]);
    LookOfUnion(d);
    LookOfUnion(e);
  }

  lemma LookOfUnion(d: D.DData)
    requires d.UnionData? && 0 <= d.unionId < |d.members|
    ensures D.Visible(d) == D.UnionData(d.disc, d.unionId, [D.Visible(d.members[d.unionId])])
  {
  }

  lemma {:induction false} OneLookOfElements(t: X.XType, v: X.Value, d: D.DData, e: D.DData)
    requires t.Seq? && X.Supported(t) && Holds(t, v, d, true) && Holds(t, v, e, true)
    ensures D.Visible(d) == D.Visible(e)
    decreases t, 0
  {
    forall i | 0 <= i < |d.elems| ensures D.Visible(d.elems[i]) == D.Visible(e.elems[i]) {
      OneLook(t.content, v.elems[i], d.elems[i], e.elems[i]);
    }
    assert D.Visible(d).elems == D.Visible(e).elems;
  }

  lemma {:induction false} OneLookOfFields(t: X.XType, v: X.Value, d: D.DData, e: D.DData)
    requires t.Struct? && X.Supported(t) && Holds(t, v, d, true) && Holds(t, v, e, true)
    ensures D.Visible(d) == D.Visible(e)
    decreases t, 0
  {
    forall i | 0 <= i < |t.members| ensures D.Visible(d.fields[i]) == D.Visible(e.fields[i]) {
      OneLook(t.members[i].typ, v.vals[i], d.fields[i], e.fields[i]);
    }
    assert D.Visible(d).fields == D.Visible(e).fields;
  }

  lemma {:induction false} OneLookOfCells(t: X.XType, v: X.Value, d: D.DData, e: D.DData)
    requires t.Array? && X.Supported(t) && Holds(t, v, d, true) && Holds(t, v, e, true)
    ensures D.Visible(d) == D.Visible(e)
    decreases t, 0
  {
    InnermostSupported(t);
    forall k | 0 <= k < |d.cells| ensures D.Visible(d.cells[k]) == D.Visible(e.cells[k]) {
      UnravelThenOffset(Dims(t), k);
      var ix := Unravel(Dims(t), k);
      assert CellAt(Dims(t), ix) == k;
      OneLook(Innermost(t), ElementAt(t, v, ix), d.cells[k], e.cells[k]);
    }
    assert D.Visible(d).cells == D.Visible(e).cells;
  }

  lemma {:induction false} OneLookOfPairs(t: X.XType, v: X.Value, d: D.DData, e: D.DData)
    requires t.Map? && X.Supported(t) && Holds(t, v, d, true) && Holds(t, v, e, true)
    ensures D.Visible(d) == D.Visible(e)
    decreases t, 0
  {
    forall k | 0 <= k < |d.slots| ensures D.Visible(d.slots[k]) == D.Visible(e.slots[k]) {
      var i := k / 2;
      assert k == 2 * i || k == 2 * i + 1;
      OneLook(t.key, v.pairs[i].key, d.slots[2 * i], e.slots[2 * i]);
      OneLook(t.value, v.pairs[i].value, d.slots[2 * i + 1], e.slots[2 * i + 1]);
    }
    assert D.Visible(d).slots == D.Visible(e).slots;
  }

  /** Any data of the type, written by whomever, that holds a value is read as what is received of it. */
  lemma HeldIsReceived(t: X.XType, v: X.Value, d: D.DData)
    requires X.Supported(t) && X.WellTyped(t, v) && D.Conforms(Compile(t), d) && Holds(t, v, d, true)
    ensures Read(t, d) == Received(t, v)
  {
    ReadAfterWrite(t, v, d);
    WrittenHolds(t, v, d);
    OneLook(t, v, d, Write(t, v, d));
    VisibleDecidesRead(t, d, Write(t, v, d));
  }

  // ---------------------------------------------------------------------------------------------
  // The value read is the one the data holds

  lemma {:induction false} CellRead(t: X.XType, cells: seq<D.DData>, ix: seq<nat>)
    requires t.Array? && X.Supported(t) && IsArrayData(t, cells) && |ix| == |Dims(t)| && InBounds(Dims(t), ix)
    ensures IsNested(t, ReadCells(t, cells)) && X.Supported(Innermost(t)) && |cells| == Product(Dims(t))
    ensures D.Conforms(Compile(Innermost(t)), cells[CellAt(Dims(t), ix)])
    ensures ElementAt(t, ReadCells(t, cells), ix) == Read(Innermost(t), cells[CellAt(Dims(t), ix)])
  {
    ReadIsNested(t, cells);
    InnerProduct(t);
    FlattenedArray(t);
    CellInBlock(cells, Dims(t), ix);
    if t.content.Array? {
      CellRead(t.content, Inner(t, cells, ix[0]), ix[1..]);
    }
  }

  lemma {:induction false} ReadIsNested(t: X.XType, cells: seq<D.DData>)
    requires t.Array? && X.Supported(t) && IsArrayData(t, cells)
    ensures IsNested(t, ReadCells(t, cells))
  {
    var v := ReadCells(t, cells);
    if t.content.Array? {
      forall i | 0 <= i < t.dim ensures IsNested(t.content, v.elems[i]) {
        ReadIsNested(t.content, Inner(t, cells, i));
      }
    }
  }

  lemma NamedDiscriminator(t: X.XType, k: nat)
    requires t.Union? && X.Supported(t) && k < |t.cases|
    ensures IsDiscriminatorOf(t, k, X.CaseDiscriminator(t, k))
  {
    CaseDiscriminatorSelects(t, k);
    if t.cases[k].labels != [] {
      assert t.cases[k].labels[0] in t.cases[k].labels;
      assert X.InInt64(t.cases[k].labels[0]);
    }
  }

  lemma {:induction false} DefaultIsInitial(t: X.XType)
    requires X.Supported(t)
    ensures IsInitial(t, Default(t))
  {
    match t
    case Scalar(_) | Str(_, _) | Enum(_, _) | Seq(_, _) | Map(_, _, _) =>
    case Alias(_, target) => DefaultIsInitial(target);
    case Array(content, _) => DefaultIsInitial(content);
    case Struct(_, ms) =>
      forall i | 0 <= i < |ms| ensures IsInitial(ms[i].typ, Default(ms[i].typ)) {
        DefaultIsInitial(ms[i].typ);
      }
    case Union(_, _, _, cs) =>
      if cs != [] {
        NamedDiscriminator(t, 0);
        DefaultIsInitial(cs[0].typ);
      }
  }

  /** Any data of the type holds the value it is read as. */
  lemma {:induction false} ReadIsHeld(t: X.XType, d: D.DData)
    requires X.Supported(t) && D.Conforms(Compile(t), d)
    ensures Holds(t, Read(t, d), d, false)
    decreases t, 1
  {
    match t
    case Scalar(_) | Str(_, _) | Enum(_, _) =>
    case Alias(_, target) => ReadIsHeld(target, d);
    case Array(_, _) => CellsAreHeld(t, d);
    case Seq(content, _) =>
      forall i | 0 <= i < |d.elems| ensures Holds(content, Read(t, d).elems[i], d.elems[i], false) {
        ReadIsHeld(content, d.elems[i]);
      }
    case Map(_, _, _) => PairsAreHeld(t, d);
    case Struct(_, ms) =>
      forall i | 0 <= i < |ms| ensures Holds(ms[i].typ, Read(t, d).vals[i], d.fields[i], false) {
        ReadIsHeld(ms[i].typ, d.fields[i]);
      }
    case Union(_, _, _, _) => CaseIsHeld(t, d);
  }

  lemma {:induction false} CaseIsHeld(t: X.XType, d: D.DData)
    requires t.Union? && X.Supported(t) && D.Conforms(Compile(t), d)
    ensures Holds(t, Read(t, d), d, false)
    decreases t, 0
  {
    var k := d.unionId;
    if k == D.INVALID_ID {
      DefaultIsInitial(t);
    } else {
      CaseDiscriminatorSelects(t, k);
      NamedDiscriminator(t, k);
      ActiveIsSelected(t, X.CaseDiscriminator(t, k));
      ReadIsHeld(t.cases[k].typ, d.members[k]);
    }
  }

  lemma {:induction false} CellsAreHeld(t: X.XType, d: D.DData)
    requires t.Array? && X.Supported(t) && D.Conforms(Compile(t), d)
    ensures Holds(t, Read(t, d), d, false)
    decreases t, 0
  {
    FlattenedArray(t);
    ReadIsNested(t, d.cells);
    forall ix: seq<nat> | |ix| == |Dims(t)| && InBounds(Dims(t), ix)
      ensures Holds(Innermost(t), ElementAt(t, Read(t, d), ix), d.cells[CellAt(Dims(t), ix)], false)
    {
      CellRead(t, d.cells, ix);
      ReadIsHeld(Innermost(t), d.cells[CellAt(Dims(t), ix)]);
    }
  }

  lemma {:induction false} PairsAreHeld(t: X.XType, d: D.DData)
    requires t.Map? && X.Supported(t) && D.Conforms(Compile(t), d)
    ensures Holds(t, Read(t, d), d, false)
    decreases t, 0
  {
    var v := Read(t, d);
    forall i | 0 <= i < |v.pairs|
      ensures Holds(t.key, v.pairs[i].key, d.slots[2 * i], false)
      ensures Holds(t.value, v.pairs[i].value, d.slots[2 * i + 1], false)
    {
      ReadPair(t, d, i);
      ReadIsHeld(t.key, d.slots[2 * i]);
      ReadIsHeld(t.value, d.slots[2 * i + 1]);
    }
  }

  lemma OneDiscriminator(t: X.XType, k: nat, m: int, n: int)
    requires t.Union? && X.Supported(t) && k < |t.cases| && IsDiscriminatorOf(t, k, m) && IsDiscriminatorOf(t, k, n)
    ensures m == n
  {
    X.ResolveKeepsValues(t.disc, X.Num(m));
    X.ResolveKeepsValues(t.disc, X.Num(n));
  }

  lemma {:induction false} OneInitial(t: X.XType, v: X.Value, w: X.Value)
    requires X.Supported(t) && IsInitial(t, v) && IsInitial(t, w)
    ensures v == w
  {
    match t
    case Scalar(_) | Str(_, _) | Enum(_, _) | Seq(_, _) | Map(_, _, _) =>
    case Alias(_, target) => OneInitial(target, v, w);
    case Array(content, _) =>
      forall i | 0 <= i < |v.elems| ensures v.elems[i] == w.elems[i] {
        OneInitial(content, v.elems[i], w.elems[i]);
      }
      assert v.elems == w.elems;
    case Struct(_, ms) =>
      forall i | 0 <= i < |ms| ensures v.vals[i] == w.vals[i] {
        OneInitial(ms[i].typ, v.vals[i], w.vals[i]);
      }
      assert v.vals == w.vals;
    case Union(_, _, _, cs) =>
      if cs != [] {
        OneDiscriminator(t, 0, v.disc, w.disc);
        OneInitial(cs[0].typ, v.payload, w.payload);
      }
  }

  /** Nested arrays with the same elements at every index vector are the same. */
  lemma {:induction false} SameElements(t: X.XType, v: X.Value, w: X.Value)
    requires t.Array? && IsNested(t, v) && IsNested(t, w)
    requires forall ix: seq<nat> | |ix| == |Dims(t)| && InBounds(Dims(t), ix) :: ElementAt(t, v, ix) == ElementAt(t, w, ix)
    ensures v == w
  {
    forall i | 0 <= i < t.dim ensures v.elems[i] == w.elems[i] {
      if t.content.Array? {
        forall ix: seq<nat> | |ix| == |Dims(t.content)| && InBounds(Dims(t.content), ix)
          ensures ElementAt(t.content, v.elems[i], ix) == ElementAt(t.content, w.elems[i], ix)
        {
          OneMoreIndex(t, v, i, ix);
          OneMoreIndex(t, w, i, ix);
        }
        SameElements(t.content, v.elems[i], w.elems[i]);
      } else {
        var ix: seq<nat> := [i];
        assert ElementAt(t, v, ix) == ElementAt(t, w, ix);
      }
    }
    assert v.elems == w.elems;
  }

  lemma OneMoreIndex(t: X.XType, v: X.Value, i: nat, ix: seq<nat>)
    requires t.Array? && t.content.Array? && IsNested(t, v) && i < t.dim
    requires |ix| == |Dims(t.content)| && InBounds(Dims(t.content), ix)
    ensures var jx := [i] + ix;
            |jx| == |Dims(t)| && InBounds(Dims(t), jx) && ElementAt(t, v, jx) == ElementAt(t.content, v.elems[i], ix)
  {
    var jx := [i] + ix;
    assert jx[1..] == ix;
    assert Dims(t)[1..] == Dims(t.content);
    OffsetCons(Dims(t), i, ix);
  }

  /** It is the only value that the data holds. */
  lemma {:induction false} OneValue(t: X.XType, v: X.Value, w: X.Value, d: D.DData)
    requires X.Supported(t) && Holds(t, v, d, false) && Holds(t, w, d, false)
    ensures v == w
    decreases t, 1
  {
    match t
    case Scalar(_) | Str(_, _) | Enum(_, _) =>
    case Alias(_, target) => OneValue(target, v, w, d);
    case Array(_, _) => OneArray(t, v, w, d);
    case Seq(content, _) =>
      forall i | 0 <= i < |v.elems| ensures v.elems[i] == w.elems[i] {
        OneValue(content, v.elems[i], w.elems[i], d.elems[i]);
      }
      assert v.elems == w.elems;
    case Map(_, _, _) => OneMap(t, v, w, d);
    case Struct(_, ms) =>
      forall i | 0 <= i < |ms| ensures v.vals[i] == w.vals[i] {
        OneValue(ms[i].typ, v.vals[i], w.vals[i], d.fields[i]);
      }
      assert v.vals == w.vals;
    case Union(_, _, _, cs) =>
      if d.unionId == D.INVALID_ID {
        OneInitial(t, v, w);
      } else {
        OneDiscriminator(t, d.unionId, v.disc, w.disc);
        OneValue(cs[d.unionId].typ, v.payload, w.payload, d.members[d.unionId]);
      }
  }

  lemma {:induction false} OneArray(t: X.XType, v: X.Value, w: X.Value, d: D.DData)
    requires t.Array? && X.Supported(t) && Holds(t, v, d, false) && Holds(t, w, d, false)
    ensures v == w
    decreases t, 0
  {
    InnermostSupported(t);
    forall ix: seq<nat> | |ix| == |Dims(t)| && InBounds(Dims(t), ix)
      ensures ElementAt(t, v, ix) == ElementAt(t, w, ix)
    {
      OneValue(Innermost(t), ElementAt(t, v, ix), ElementAt(t, w, ix), d.cells[CellAt(Dims(t), ix)]);
    }
    SameElements(t, v, w);
  }

  lemma {:induction false} OneMap(t: X.XType, v: X.Value, w: X.Value, d: D.DData)
    requires t.Map? && X.Supported(t) && Holds(t, v, d, false) && Holds(t, w, d, false)
    ensures v == w
    decreases t, 0
  {
    forall i | 0 <= i < |v.pairs| ensures v.pairs[i] == w.pairs[i] {
      OneValue(t.key, v.pairs[i].key, w.pairs[i].key, d.slots[2 * i]);
      OneValue(t.value, v.pairs[i].value, w.pairs[i].value, d.slots[2 * i + 1]);
    }
    assert v.pairs == w.pairs;
  }

  lemma HeldOnce(t: X.XType, d: D.DData, v: X.Value, r: X.Value)
    requires X.Supported(t) && Holds(t, r, d, false)
    ensures r == v <==> Holds(t, v, d, false)
  {
    if Holds(t, v, d, false) {
      OneValue(t, v, r, d);
    }
  }

  /** What data is read as, whoever wrote it. */
  lemma ReadExactly(t: X.XType, d: D.DData, v: X.Value)
    requires X.Supported(t) && D.Conforms(Compile(t), d)
    ensures Read(t, d) == v <==> Holds(t, v, d, false)
  {
    ReadIsHeld(t, d);
    HeldOnce(t, d, v, Read(t, d));
  }

  // ---------------------------------------------------------------------------------------------
  // Bounds

  /** Lengths and numbers are within what the type allows, whether or not they mean anything. */
  predicate WithinBounds(t: X.XType, v: X.Value) {
    match t
    case Scalar(p) => v.Num? && X.InRange(if p.Char16? then X.WChar else p, v.n)
    case Str(_, bound) => v.Text? && (bound == 0 || |v.chars| <= bound)
    case Enum(_, _) => v.Num? && 0 <= v.n < 0x1_0000_0000
    case Alias(_, target) => WithinBounds(target, v)
    case Array(content, dim) => v.Items? && |v.elems| == dim && forall e | e in v.elems :: WithinBounds(content, e)
    case Seq(content, bound) =>
      v.Items? && (bound == 0 || |v.elems| <= bound) && forall e | e in v.elems :: WithinBounds(content, e)
    case Map(key, value, bound) =>
      v.Entries? && (bound == 0 || |v.pairs| <= bound) &&
      forall e | e in v.pairs :: WithinBounds(key, e.key) && WithinBounds(value, e.value)
    case Struct(_, ms) =>
      v.Fields? && |v.vals| == |ms| && forall i | 0 <= i < |ms| :: WithinBounds(ms[i].typ, v.vals[i])
    case Union(_, _, _, cs) =>
      v.Choice? && (cs != [] ==> exists k | 0 <= k < |cs| && Selects(cs, v.disc, k) :: WithinBounds(cs[k].typ, v.payload))
  }

  lemma {:induction false} DefaultWithin(t: X.XType)
    requires X.Supported(t)
    ensures WithinBounds(t, Default(t))
  {
    match t
    case Scalar(_) | Str(_, _) | Seq(_, _) | Map(_, _, _) =>
    case Enum(_, es) => assert es != [] ==> es[0] in es;
    case Alias(_, target) => DefaultWithin(target);
    case Array(content, _) => DefaultWithin(content);
    case Struct(_, ms) =>
      forall i | 0 <= i < |ms| ensures WithinBounds(ms[i].typ, Default(ms[i].typ)) {
        DefaultWithin(ms[i].typ);
      }
    case Union(_, _, _, cs) =>
      if cs != [] {
        CaseDiscriminatorSelects(t, 0);
        ActiveIsSelected(t, X.CaseDiscriminator(t, 0));
        DefaultWithin(cs[0].typ);
      }
  }

  lemma {:induction false} ReadWithin(t: X.XType, d: D.DData)
    requires X.Supported(t) && D.Conforms(Compile(t), d)
    ensures WithinBounds(t, Read(t, d))
    decreases t, 1
  {
    match t
    case Scalar(_) | Str(_, _) | Enum(_, _) =>
    case Alias(_, target) => ReadWithin(target, d);
    case Array(_, _) => CellsWithin(t, d.cells);
    case Seq(content, _) =>
      forall i | 0 <= i < |d.elems| ensures WithinBounds(content, Read(content, d.elems[i])) {
        ReadWithin(content, d.elems[i]);
      }
    case Map(_, _, _) => PairsWithin(t, d);
    case Struct(_, ms) =>
      forall i | 0 <= i < |ms| ensures WithinBounds(ms[i].typ, Read(t, d).vals[i]) {
        ReadWithin(ms[i].typ, d.fields[i]);
      }
    case Union(_, _, _, _) => CaseWithin(t, d);
  }

  lemma {:induction false} CaseWithin(t: X.XType, d: D.DData)
    requires t.Union? && X.Supported(t) && D.Conforms(Compile(t), d)
    ensures WithinBounds(t, Read(t, d))
    decreases t, 0
  {
    var k := d.unionId;
    if k == D.INVALID_ID {
      DefaultWithin(t);
    } else {
      CaseDiscriminatorSelects(t, k);
      ActiveIsSelected(t, X.CaseDiscriminator(t, k));
      ReadWithin(t.cases[k].typ, d.members[k]);
    }
  }

  lemma {:induction false} PairsWithin(t: X.XType, d: D.DData)
    requires t.Map? && X.Supported(t) && D.Conforms(Compile(t), d)
    ensures WithinBounds(t, Read(t, d))
    decreases t, 0
  {
    var pairs := Read(t, d).pairs;
    forall i | 0 <= i < |pairs|
      ensures WithinBounds(t.key, pairs[i].key) && WithinBounds(t.value, pairs[i].value)
    {
      ReadPair(t, d, i);
      ReadWithin(t.key, d.slots[2 * i]);
      ReadWithin(t.value, d.slots[2 * i + 1]);
    }
  }

  lemma {:induction false} CellsWithin(t: X.XType, cells: seq<D.DData>)
    requires t.Array? && X.Supported(t) && IsArrayData(t, cells)
    ensures WithinBounds(t, ReadCells(t, cells))
    decreases t, 0
  {
    var v := ReadCells(t, cells);
    forall i | 0 <= i < t.dim ensures WithinBounds(t.content, v.elems[i]) {
      if t.content.Array? {
        CellsWithin(t.content, Inner(t, cells, i));
      } else {
        ReadWithin(t.content, Inner(t, cells, i)[0]);
      }
    }
  }

  /** Whatever data the type built admits, by whomever it is written, is read within the bounds of the original. */
  lemma BuiltKeepsBounds(t: X.XType, built: D.DType, d: D.DData)
    requires X.Supported(t) && Stands(t, built) && D.Conforms(built, d)
    ensures built == Compile(t) && WithinBounds(t, Read(t, d))
  {
    CompiledStands(t);
    OneStands(t, built, Compile(t));
    ReadWithin(t, d);
  }
}
