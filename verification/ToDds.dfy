/** The converters from xTypes into Fast DDS buffers, loop by loop, each proved to compute `Write`. */
module ToDds {
  import opened Flattening
  import opened Compiler
  import opened Translation
  import opened DynamicDataBuffer
  import opened RoundTrip
  import opened Correspondence
  import X = XTypes
  import D = Dds

  /** The accessor chosen for a primitive: members and array cells use `wide` ones, other elements bytes. */
  function AccessorFor(p: X.Prim, elementOfCollection: bool): Accessor {
    match p
    case Bool => AsBool
    case Char8 => AsChar8
    case Char16 | WChar => AsChar16
    case UInt8 => if elementOfCollection then AsByte else AsUInt8
    case Int8 => if elementOfCollection then AsByte else AsInt8
    case Int16 => AsInt16
    case UInt16 => AsUInt16
    case Int32 => AsInt32
    case UInt32 => AsUInt32
    case Int64 => AsInt64
    case UInt64 => AsUInt64
    case Float32 => AsFloat32
    case Float64 => AsFloat64
    case Float128 => AsFloat128
  }

  lemma {:induction false} WriteResolved(t: X.XType, v: X.Value, prior: D.DData)
    requires X.Supported(t) && X.WellTyped(t, v) && D.Conforms(Compile(t), prior)
    ensures var r := X.Resolve(t);
            && X.Supported(r) && X.WellTyped(r, v) && Compile(r) == Compile(t)
            && Write(t, v, prior) == Write(r, v, prior)
  {
    if t.Alias? {
      WriteResolved(t.target, v, prior);
    }
  }

  /** What a scalar of an unaliased type is stored as. */
  function ScalarData(t: X.XType, v: X.Value): D.DData
    requires X.IsScalarKind(t) && X.WellTyped(t, v)
  {
    match t
    case Scalar(p) => D.Slot(EncodeNum(p, v.n))
    case Str(_, _) => D.TextSlot(v.chars)
    case Enum(_, _) => D.Slot(v.n)
  }

  lemma {:induction false} ScalarWritten(t: X.XType, v: X.Value, prior: D.DData)
    requires X.Supported(t) && X.WellTyped(t, v) && D.Conforms(Compile(t), prior) && X.IsScalarKind(X.Resolve(t))
    ensures X.WellTyped(X.Resolve(t), v) && X.Supported(X.Resolve(t)) && Compile(X.Resolve(t)) == Compile(t)
    ensures Write(t, v, prior) == ScalarData(X.Resolve(t), v)
    ensures Element(t, v) == ScalarData(X.Resolve(t), v)
  {
    if t.Alias? {
      ScalarWritten(t.target, v, prior);
      ElementOfAlias(t, v);
    } else {
      assert Element(t, v) == Write(t, v, D.Fresh(Compile(t)));
    }
  }

  method SetPrimitiveData(t: X.XType, v: X.Value, to: DynamicData, id: int, elementOfCollection: bool)
    requires X.Supported(t) && X.WellTyped(t, v) && X.IsScalarKind(X.Resolve(t))
    requires to.Valid() && Settable(to.typ, to.data, id) && TypeAt(to.typ, to.data, id) == Compile(t)
    requires D.Conforms(Compile(t), D.PartAt(to.data, id))
    modifies to
    ensures to.Valid()
    ensures to.data == D.WithPartAt(old(to.data), id, Write(t, v, old(D.PartAt(to.data, id))))
    ensures to.data == D.WithPartAt(old(to.data), id, Element(t, v))
  {
    ScalarWritten(t, v, D.PartAt(to.data, id));
    SetResolved(X.Resolve(t), v, to, id, elementOfCollection);
  }

  method SetResolved(t: X.XType, v: X.Value, to: DynamicData, id: int, elementOfCollection: bool)
    requires X.Supported(t) && X.WellTyped(t, v) && X.IsScalarKind(t)
    requires to.Valid() && Settable(to.typ, to.data, id) && TypeAt(to.typ, to.data, id) == Compile(t)
    modifies to
    ensures to.Valid() && to.data == D.WithPartAt(old(to.data), id, ScalarData(t, v))
  {
    var ok;
    match t {
      case Scalar(p) =>
        // A signed element is cast to an octet before it is stored as one.
        var n := if p.Int8? && elementOfCollection then EncodeNum(p, v.n) else v.n;
        ok := to.SetNumber(AccessorFor(p, elementOfCollection), n, id);
      case Str(wide, _) => ok := to.SetString(wide, v.chars, id);
      case Enum(_, _) => ok := to.SetEnum(v.n, id);
    }
  }

  function Splice(s: seq<D.DData>, k: nat, part: seq<D.DData>): (r: seq<D.DData>)
    requires k + |part| <= |s|
    ensures |r| == |s|
  {
    s[..k] + part + s[k + |part|..]
  }

  lemma SpliceTwice(s: seq<D.DData>, k: nat, a: seq<D.DData>, b: seq<D.DData>)
    requires k + |a| + |b| <= |s|
    ensures Splice(Splice(s, k, a), k + |a|, b) == Splice(s, k, a + b)
  {
  }

  /** Index vectors that extend `indexes` address the block of cells the array `t` is flattened into. */
  predicate ArrayFrame(t: X.XType, typ: D.DType, indexes: seq<nat>) {
    && t.Array? && typ.DArray? && InBounds(typ.dims, indexes)
    && typ.dims[|indexes|..] == Compile(t).dims && typ.content == Compile(t).content
  }

  /** The block of element `i` of the array starts that many inner blocks on. */
  lemma NextOffset(t: X.XType, typ: D.DType, indexes: seq<nat>, i: nat)
    requires ArrayFrame(t, typ, indexes) && i < t.dim
    ensures InBounds(typ.dims, indexes + [i])
    ensures Offset(typ.dims, indexes + [i]) == Offset(typ.dims, indexes) + i * Product(InnerDims(t))
    ensures Offset(typ.dims, indexes) <= Offset(typ.dims, indexes + [i])
    ensures Offset(typ.dims, indexes) + t.dim * Product(InnerDims(t)) <= Product(typ.dims)
  {
    ArrayDims(t);
    assert typ.dims[|indexes|..][0] == typ.dims[|indexes|];
    OffsetSnoc(typ.dims, indexes, i);
    assert typ.dims[|indexes| + 1..] == typ.dims[|indexes|..][1..];
    BlockFits(typ.dims, indexes);
    MulMono(0, i, Product(InnerDims(t)));
  }

  /** It is an array of the same kind, or a single cell. */
  lemma NextFrame(t: X.XType, typ: D.DType, indexes: seq<nat>, i: nat)
    requires ArrayFrame(t, typ, indexes) && i < t.dim
    ensures InBounds(typ.dims, indexes + [i])
    ensures t.content.Array? ==> ArrayFrame(t.content, typ, indexes + [i])
    ensures !t.content.Array? ==> |indexes + [i]| == |typ.dims| && Product(InnerDims(t)) == 1
  {
    ArrayDims(t);
    assert typ.dims[|indexes|..][0] == typ.dims[|indexes|];
    assert typ.dims[|indexes| + 1..] == typ.dims[|indexes|..][1..];
  }

  method SetArrayData(t: X.XType, v: X.Value, to: DynamicData, indexes: seq<nat>)
    requires X.Supported(t) && to.Valid() && ArrayFrame(t, to.typ, indexes) && X.WellTyped(t, v)
    modifies to
    ensures to.Valid() && |CellsUpTo(t, v, t.dim)| == t.dim * Product(InnerDims(t))
    ensures Offset(to.typ.dims, indexes) + |CellsUpTo(t, v, t.dim)| <= |old(to.data).cells|
    ensures to.data == D.Cells(Splice(old(to.data).cells, Offset(to.typ.dims, indexes), CellsUpTo(t, v, t.dim)))
    decreases t, 2
  {
    ghost var before := to.data.cells;
    ArrayDims(t);
    BlockFits(to.typ.dims, indexes);
    CellsConform(t, v, t.dim);
    assert Filled(t, v, before, Offset(to.typ.dims, indexes), 0, to.data);
    var idx := 0;
    while idx < |v.elems|
      invariant 0 <= idx <= t.dim
      invariant to.Valid() && Filled(t, v, before, Offset(to.typ.dims, indexes), idx, to.data)
    {
      SetArrayItem(t, v, to, indexes, idx, before);
      idx := idx + 1;
    }
  }

  /** The first `n` elements have gone into the block at `start`; the other cells are as before. */
  ghost predicate Filled(t: X.XType, v: X.Value, before: seq<D.DData>, start: nat, n: nat, now: D.DData)
    requires t.Array? && X.Supported(t) && X.WellTyped(t, v) && n <= t.dim
  {
    start + |CellsUpTo(t, v, n)| <= |before| && now == D.Cells(Splice(before, start, CellsUpTo(t, v, n)))
  }

  lemma ItemStep(t: X.XType, v: X.Value, before: seq<D.DData>, start: nat, idx: nat, now: D.DData, after: D.DData)
    requires t.Array? && X.Supported(t) && X.WellTyped(t, v) && idx < t.dim
    requires start + t.dim * Product(InnerDims(t)) <= |before| && Filled(t, v, before, start, idx, now)
    requires after.Cells? && start + idx * Product(InnerDims(t)) + |CellsOf(t, v, idx)| <= |now.cells|
    requires after.cells == Splice(now.cells, start + idx * Product(InnerDims(t)), CellsOf(t, v, idx))
    ensures Filled(t, v, before, start, idx + 1, after)
  {
    var size := Product(InnerDims(t));
    CellsConform(t, v, idx);
    CellsConform(t, v, idx + 1);
    CellsOfConform(t, v, idx);
    MulMono(idx + 1, t.dim, size);
    assert (idx + 1) * size == idx * size + size;
    SpliceTwice(before, start, CellsUpTo(t, v, idx), CellsOf(t, v, idx));
  }

  /** One turn of the loop over an array: a nested array goes on in the same buffer. */
  method SetArrayItem(t: X.XType, v: X.Value, to: DynamicData, indexes: seq<nat>, idx: nat, ghost before: seq<D.DData>)
    requires X.Supported(t) && to.Valid() && ArrayFrame(t, to.typ, indexes) && X.WellTyped(t, v) && idx < t.dim
    requires |before| == Product(to.typ.dims)
    requires Filled(t, v, before, Offset(to.typ.dims, indexes), idx, to.data)
    modifies to
    ensures to.Valid() && Filled(t, v, before, Offset(to.typ.dims, indexes), idx + 1, to.data)
    decreases t, 1
  {
    NextOffset(t, to.typ, indexes, idx);
    ghost var now := to.data;
    SetArrayPart(t, v, to, indexes, idx);
    ItemStep(t, v, before, Offset(to.typ.dims, indexes), idx, now, to.data);
  }

  method SetArrayPart(t: X.XType, v: X.Value, to: DynamicData, indexes: seq<nat>, idx: nat)
    requires X.Supported(t) && to.Valid() && ArrayFrame(t, to.typ, indexes) && X.WellTyped(t, v) && idx < t.dim
    modifies to
    ensures to.Valid() && InBounds(to.typ.dims, indexes + [idx])
    ensures Offset(to.typ.dims, indexes + [idx]) + |CellsOf(t, v, idx)| <= |old(to.data).cells|
    ensures to.data == D.Cells(Splice(old(to.data).cells, Offset(to.typ.dims, indexes + [idx]), CellsOf(t, v, idx)))
    decreases t, 0
  {
    NextFrame(t, to.typ, indexes, idx);
    var newIndexes := indexes + [idx];
    if t.content.Array? {
      SetArrayData(t.content, v.elems[idx], to, newIndexes);
    } else {
      SetArrayCell(t.content, v.elems[idx], to, newIndexes);
    }
  }

  method SetArrayCell(t: X.XType, v: X.Value, to: DynamicData, indexes: seq<nat>)
    requires X.Supported(t) && X.WellTyped(t, v) && to.Valid() && to.typ.DArray? && to.typ.content == Compile(t)
    requires InBounds(to.typ.dims, indexes) && |indexes| == |to.typ.dims|
    modifies to
    ensures to.Valid() && Offset(to.typ.dims, indexes) < |old(to.data).cells|
    ensures to.data == D.Cells(Splice(old(to.data).cells, Offset(to.typ.dims, indexes), [Element(t, v)]))
    decreases t, 6
  {
    OffsetThenUnravel(to.typ.dims, indexes);
    var id := to.GetArrayIndex(indexes);
    ghost var now := to.data.cells;
    SetElement(t, v, to, id, false);
    assert to.data.cells == Splice(now, id, [Element(t, v)]);
  }

  /** Writes one cell or element: scalars in place, anything else through a buffer made for it. */
  method SetElement(t: X.XType, v: X.Value, to: DynamicData, id: int, elementOfCollection: bool)
    requires X.Supported(t) && X.WellTyped(t, v)
    requires to.Valid() && (to.typ.DArray? || to.typ.DSeq?) && 0 <= id < D.PartCount(to.data)
    requires to.typ.content == Compile(t)
    modifies to
    ensures to.Valid() && to.data == D.WithPart(old(to.data), id, Element(t, v))
    decreases t, 5
  {
    assert D.Conforms(Compile(t), D.Part(to.data, id));
    if X.IsScalarKind(X.Resolve(t)) {
      SetPrimitiveData(t, v, to, id, elementOfCollection);
    } else {
      var child := CreateAndSet(t, v);
      var ok := to.SetComplexValue(child, id);
    }
  }

  method CreateAndSet(t: X.XType, v: X.Value) returns (child: DynamicData)
    requires X.Supported(t) && X.WellTyped(t, v) && !X.IsScalarKind(X.Resolve(t))
    ensures fresh(child) && child.Valid() && child.typ == Compile(t) && child.data == Element(t, v)
    decreases t, 4
  {
    var builder := GetBuilder(t);
    child := new DynamicData(builder);
    SetComplexData(t, v, child);
  }

  /** Dispatch on the kind of a value that is not a scalar. What is passed on is of the type behind the aliases. */
  method SetComplexData(t: X.XType, v: X.Value, to: DynamicData)
    requires X.Supported(t) && X.WellTyped(t, v) && !X.IsScalarKind(X.Resolve(t))
    requires to.Valid() && to.typ == Compile(t)
    modifies to
    ensures to.Valid() && to.data == Write(t, v, old(to.data))
    decreases t, 3
  {
    var r := X.Resolve(t);
    ResolveSmaller(t);
    WriteResolved(t, v, to.data);
    match r {
      case Array(_, _) =>
        assert to.typ.dims[0..] == to.typ.dims;
        ArrayDims(r);
        SetArrayData(r, v, to, []);
      case Seq(_, _) => SetSequenceData(r, v, to);
      case Map(_, _, _) => SetMapData(r, v, to);
      case Struct(_, _) => var ok := SetStructData(r, v, to);
      case Union(_, _, _, _) => var ok := SetUnionData(r, v, to);
    }
  }

  method SetSequenceData(t: X.XType, v: X.Value, to: DynamicData)
    requires t.Seq? && X.Supported(t) && X.WellTyped(t, v) && to.Valid() && to.typ == Compile(t)
    modifies to
    ensures to.Valid() && to.data == Write(t, v, old(to.data)) && Holds(t, v, to.data, true)
    decreases t, 0
  {
    ghost var result := Write(t, v, to.data);
    WrittenHolds(t, v, to.data);
    to.ClearAllValues();
    var idx := 0;
    while idx < |v.elems|
      invariant 0 <= idx <= |v.elems|
      invariant to.Valid() && to.data == D.SeqData(result.elems[..idx])
    {
      var id := to.InsertSequenceData();
      SetElement(t.content, v.elems[idx], to, id, true);
      assert to.data.elems == result.elems[..idx + 1];
      idx := idx + 1;
    }
    assert result.elems[..|v.elems|] == result.elems;
  }

  method CreatePair(t: X.XType, v: X.Value, i: nat, keyBuilder: D.DType, valueBuilder: D.DType)
    returns (key: DynamicData, value: DynamicData)
    requires t.Map? && X.Supported(t) && X.WellTyped(t, v) && i < |v.pairs|
    requires keyBuilder == Compile(t.key) && valueBuilder == Compile(t.value)
    ensures fresh(key) && key.Valid() && key.typ == keyBuilder && key.data == Element(t.key, v.pairs[i].key)
    ensures fresh(value) && value.Valid() && value.typ == valueBuilder
    ensures value.data == Element(t.value, v.pairs[i].value)
    decreases t, 0
  {
    key := new DynamicData(keyBuilder);
    SetPrimitiveData(t.key, v.pairs[i].key, key, D.INVALID_ID, true);
    value := new DynamicData(valueBuilder);
    if X.IsScalarKind(X.Resolve(t.value)) {
      SetPrimitiveData(t.value, v.pairs[i].value, value, D.INVALID_ID, true);
    } else {
      SetComplexData(t.value, v.pairs[i].value, value);
    }
  }

  lemma NextPair(slots: seq<D.DData>, i: nat, key: D.DData)
    requires 2 * i + 1 < |slots| && forall j | 0 <= j < i :: slots[2 * j] != key
    ensures slots[..2 * (i + 1)] == slots[..2 * i] + [slots[2 * i], slots[2 * i + 1]]
    ensures forall j | 0 <= j < |slots[..2 * i]| && j % 2 == 0 :: slots[..2 * i][j] != key
  {
    forall j | 0 <= j < 2 * i && j % 2 == 0 ensures slots[j] != key {
      assert slots[2 * (j / 2)] != key;
    }
  }

  /** The next pair has a key not yet there, and extends the slots by two. */
  lemma PairStep(t: X.XType, v: X.Value, prior: D.DData, i: nat)
    requires t.Map? && X.Supported(t) && X.WellTyped(t, v) && D.Conforms(Compile(t), prior) && i < |v.pairs|
    ensures var slots := Write(t, v, prior).slots;
            && |slots| == 2 * |v.pairs|
            && slots[..2 * (i + 1)] == slots[..2 * i] + [Element(t.key, v.pairs[i].key), Element(t.value, v.pairs[i].value)]
            && forall j | 0 <= j < |slots[..2 * i]| && j % 2 == 0 :: slots[..2 * i][j] != Element(t.key, v.pairs[i].key)
  {
    var slots := Write(t, v, prior).slots;
    PairSlots(t, v, prior, i);
    forall j | 0 <= j < i ensures slots[2 * j] != slots[2 * i] {
      KeyIsNew(t, v, prior, j, i);
    }
    NextPair(slots, i, slots[2 * i]);
  }

  lemma KeyIsNew(t: X.XType, v: X.Value, prior: D.DData, j: nat, i: nat)
    requires t.Map? && X.Supported(t) && X.WellTyped(t, v) && D.Conforms(Compile(t), prior) && j < i < |v.pairs|
    ensures var slots := Write(t, v, prior).slots;
            |slots| == 2 * |v.pairs| && slots[2 * j] != slots[2 * i]
  {
    PairSlots(t, v, prior, i);
    PairSlots(t, v, prior, j);
    KeysStayDistinct(t.key, v.pairs[j].key, v.pairs[i].key);
  }

  method SetMapData(t: X.XType, v: X.Value, to: DynamicData)
    requires t.Map? && X.Supported(t) && X.WellTyped(t, v) && to.Valid() && to.typ == Compile(t)
    modifies to
    ensures to.Valid() && to.data == Write(t, v, old(to.data))
    decreases t, 1
  {
    ghost var result := Write(t, v, to.data);
    ghost var prior := to.data;
    to.ClearAllValues();
    var keyBuilder := GetBuilder(t.key);
    var valueBuilder := GetBuilder(t.value);
    var i := 0;
    while i < |v.pairs|
      invariant 0 <= i <= |v.pairs|
      invariant to.Valid() && to.data == D.MapData(result.slots[..2 * i])
    {
      var key, value := CreatePair(t, v, i, keyBuilder, valueBuilder);
      PairStep(t, v, prior, i);
      var ok := to.InsertMapData(key, value);
      i := i + 1;
    }
    assert result.slots[..2 * |v.pairs|] == result.slots;
  }

  /** Writes a struct member or the selected union member: scalars in place, anything else on loan. */
  method SetMember(t: X.XType, v: X.Value, output: DynamicData, id: int)
    requires X.Supported(t) && X.WellTyped(t, v)
    requires output.Valid() && (output.typ.DStruct? || output.typ.DUnion?)
    requires 0 <= id < D.PartCount(output.data) && D.PartType(output.typ, output.data, id) == Compile(t)
    requires D.Conforms(Compile(t), D.Part(output.data, id))
    modifies output
    ensures output.Valid()
    ensures output.data == D.WithPart(old(output.data), id, Write(t, v, D.Part(old(output.data), id)))
    decreases t, 4
  {
    if X.IsScalarKind(X.Resolve(t)) {
      SetPrimitiveData(t, v, output, id, false);
    } else {
      var loan := output.LoanValue(id);
      SetComplexData(t, v, loan);
      output.ReturnLoanedValue(loan);
    }
  }

  lemma MemberFound(t: X.XType, i: nat)
    requires t.Struct? && X.Supported(t) && i < |t.members|
    ensures D.MemberNamed(Compile(t).members, t.members[i].name) == i
  {
    assert Compile(t).members[i].name == t.members[i].name;
  }

  lemma MemberPart(t: X.XType, d: D.DData, i: nat)
    requires t.Struct? && D.Conforms(Compile(t), d) && i < |t.members|
    ensures D.PartCount(d) == |t.members| && D.PartType(Compile(t), d, i) == Compile(t.members[i].typ)
    ensures D.Conforms(Compile(t.members[i].typ), D.Part(d, i))
  {
  }

  lemma CaseFound(t: X.XType, i: nat)
    requires t.Union? && X.Supported(t) && i < |t.cases|
    ensures D.CaseNamed(Compile(t).cases, t.cases[i].name) == i
  {
    assert Compile(t).cases[i].name == t.cases[i].name;
  }

  method SetStructData(t: X.XType, v: X.Value, output: DynamicData) returns (ok: bool)
    requires t.Struct? && X.Supported(t) && X.WellTyped(t, v) && output.Valid() && output.typ == Compile(t)
    modifies output
    ensures ok && output.Valid() && output.data == Write(t, v, old(output.data))
    decreases t, 0
  {
    ghost var before := output.data;
    ghost var result := Write(t, v, before);
    var i := 0;
    while i < |t.members|
      invariant 0 <= i <= |t.members|
      invariant output.Valid() && output.data.StructData? && |output.data.fields| == |t.members|
      invariant forall j | 0 <= j < i :: output.data.fields[j] == result.fields[j]
      invariant forall j | i <= j < |t.members| :: output.data.fields[j] == before.fields[j]
    {
      MemberFound(t, i);
      var id := output.GetMemberIdByName(t.members[i].name);
      MemberPart(t, output.data, i);
      SetMember(t.members[i].typ, v.vals[i], output, id);
      i := i + 1;
    }
    assert output.data.fields == result.fields;
    ok := true;
  }

  method SetUnionData(t: X.XType, v: X.Value, output: DynamicData) returns (ok: bool)
    requires t.Union? && X.Supported(t) && X.WellTyped(t, v) && output.Valid() && output.typ == Compile(t)
    modifies output
    ensures ok && output.Valid() && output.data == Write(t, v, old(output.data))
    decreases t, 0
  {
    SetUnionDiscriminator(t, v, output);
    var current := X.ActiveCase(t.cases, v.disc);
    CaseFound(t, current);
    var id := output.GetMemberIdByName(t.cases[current].name);
    UnionMember(t, output.data, id);
    SetMember(t.cases[current].typ, v.payload, output, id);
    ok := true;
  }

  lemma UnionMember(t: X.XType, d: D.DData, id: nat)
    requires t.Union? && D.Conforms(Compile(t), d) && id < |t.cases|
    ensures D.PartCount(d) == |t.cases| && D.PartType(Compile(t), d, id) == Compile(t.cases[id].typ)
    ensures D.Conforms(Compile(t.cases[id].typ), D.Part(d, id))
  {
  }

  method SetUnionDiscriminator(t: X.XType, v: X.Value, output: DynamicData)
    requires t.Union? && X.Supported(t) && X.WellTyped(t, v) && output.Valid() && output.typ == Compile(t)
    modifies output
    ensures output.Valid()
    ensures output.data == D.UnionData(DiscriminatorWord(t.disc, v.disc), X.ActiveCase(t.cases, v.disc),
                                       old(output.data).members)
  {
    DiscriminatorRange(t.disc, v.disc);
    SelectionAgrees(t, v.disc);
    output.SetDiscriminator(DiscriminatorWord(t.disc, v.disc));
  }

  /** A root is a struct or union, possibly by an alias; anything else is refused and the buffer left alone. */
  method XTypesToFastDds(t: X.XType, input: X.Value, output: DynamicData) returns (ok: bool)
    requires X.Supported(t) && X.WellTyped(t, input) && output.Valid() && output.typ == Compile(t)
    modifies output
    ensures output.Valid()
    ensures ok <==> X.Resolve(t).Struct? || X.Resolve(t).Union?
    ensures output.data == if ok then Write(t, input, old(output.data)) else old(output.data)
    ensures ok ==> Holds(t, input, output.data, true)
  {
    var r := X.Resolve(t);
    WrittenHolds(t, input, output.data);
    WriteResolved(t, input, output.data);
    if r.Struct? {
      ok := SetStructData(r, input, output);
    } else if r.Union? {
      ok := SetUnionData(r, input, output);
    } else {
      ok := false;
    }
  }
}
