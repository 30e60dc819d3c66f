/** The converters from Fast DDS buffers into fresh xTypes values, each proved to compute `Read`. */
module FromDds {
  import opened Flattening
  import opened Compiler
  import opened Translation
  import opened DynamicDataBuffer
  import opened RoundTrip
  import opened Correspondence
  import opened ToDds
  import X = XTypes
  import D = Dds

  /** The accessor of an array cell, element, key or mapped value, by its xTypes kind. */
  function ElementGetter(p: X.Prim): Accessor {
    match p
    case UInt8 => AsUInt8
    case Int8 => AsInt8
    case _ => AccessorFor(p, false)
  }

  /** The accessor of a struct or union member, by the kind its Fast DDS descriptor resolves to. */
  function MemberGetter(k: D.Kind): Accessor {
    match k
    case TkBoolean => AsBool
    case TkByte => AsByte
    case TkInt16 => AsInt16
    case TkInt32 => AsInt32
    case TkInt64 => AsInt64
    case TkUInt16 => AsUInt16
    case TkUInt32 => AsUInt32
    case TkUInt64 => AsUInt64
    case TkFloat32 => AsFloat32
    case TkFloat64 => AsFloat64
    case TkFloat128 => AsFloat128
    case TkChar8 => AsChar8
    case TkChar16 => AsChar16
  }

  lemma {:induction false} ReadResolved(t: X.XType, d: D.DData)
    requires X.Supported(t) && D.Conforms(Compile(t), d)
    ensures var r := X.Resolve(t);
            X.Supported(r) && Compile(r) == Compile(t) && Read(t, d) == Read(r, d)
  {
    if t.Alias? {
      ReadResolved(t.target, d);
    }
  }

  /** Reads a cell, an element, a key or a mapped value. */
  method GetElement(t: X.XType, from: DynamicData, id: int) returns (v: X.Value)
    requires X.Supported(t) && from.Valid() && 0 <= id < D.PartCount(from.data)
    requires from.typ.DArray? || from.typ.DSeq? || from.typ.DMap?
    requires D.PartType(from.typ, from.data, id) == Compile(t) && D.Conforms(Compile(t), D.Part(from.data, id))
    ensures v == Read(t, D.Part(from.data, id))
    decreases t, 2
  {
    ReadResolved(t, D.Part(from.data, id));
    if !X.IsScalarKind(X.Resolve(t)) {
      var loan := from.LoanValue(id);
      v := GetComplexData(t, loan);
      return;
    }
    var ok;
    match X.Resolve(t) {
      case Scalar(p) =>
        var n;
        ok, n := from.GetNumber(ElementGetter(p), id);
        v := X.Num(n);
      case Str(wide, _) =>
        var chars;
        ok, chars := from.GetString(wide, id);
        v := X.Text(chars);
      case Enum(_, _) =>
        var n;
        ok, n := from.GetEnum(id);
        v := X.Num(n);
    }
  }

  /** Dispatch on the kind of a value that is not a scalar. Reading leaves a loan as it was. */
  method GetComplexData(t: X.XType, from: DynamicData) returns (v: X.Value)
    requires X.Supported(t) && !X.IsScalarKind(X.Resolve(t)) && from.Valid() && from.typ == Compile(t)
    ensures v == Read(t, from.data)
    decreases t, 1
  {
    var r := X.Resolve(t);
    ResolveSmaller(t);
    ReadResolved(t, from.data);
    match r {
      case Array(_, _) =>
        assert from.typ.dims[0..] == from.typ.dims;
        v := GetArrayData(r, from, []);
        assert from.data.cells[0..|from.data.cells|] == from.data.cells;
      case Seq(_, _) => v := GetSequenceData(r, from);
      case Map(_, _, _) => v := GetMapData(r, from);
      case Struct(_, _) => v := GetStructData(r, from);
      case Union(_, _, _, _) => v := GetUnionData(r, from);
    }
  }

  /** The block of cells that nested array `t` occupies below an index vector. */
  ghost function CellsBelow(t: X.XType, typ: D.DType, data: D.DData, indexes: seq<nat>): (b: seq<D.DData>)
    requires D.Conforms(typ, data) && ArrayFrame(t, typ, indexes)
    ensures IsArrayData(t, b)
  {
    BlockFits(typ.dims, indexes);
    var start := Offset(typ.dims, indexes);
    data.cells[start..start + Product(Compile(t).dims)]
  }

  lemma Subblock(s: seq<D.DData>, start: nat, block: seq<D.DData>, k: nat, inner: seq<D.DData>)
    requires start + |block| <= |s| && block == s[start..start + |block|]
    requires k + |inner| <= |block| && inner == block[k..k + |inner|]
    ensures inner == s[start + k..start + k + |inner|]
  {
    assert forall i | 0 <= i < |inner| :: inner[i] == block[k + i];
  }

  lemma InnerAt(t: X.XType, typ: D.DType, indexes: seq<nat>, idx: nat, block: seq<D.DData>) returns (k: nat)
    requires ArrayFrame(t, typ, indexes) && idx < t.dim && IsArrayData(t, block)
    ensures InBounds(typ.dims, indexes + [idx]) && Offset(typ.dims, indexes + [idx]) == Offset(typ.dims, indexes) + k
    ensures k + |Inner(t, block, idx)| <= |block| && Inner(t, block, idx) == block[k..k + |Inner(t, block, idx)|]
  {
    NextOffset(t, typ, indexes, idx);
    InnerIsSlice(t, block, idx);
    k := idx * Product(InnerDims(t));
  }

  lemma ElementOfCells(
    t: X.XType, typ: D.DType, cells: seq<D.DData>, indexes: seq<nat>, idx: nat, start: nat, block: seq<D.DData>)
    requires ArrayFrame(t, typ, indexes) && idx < t.dim && start == Offset(typ.dims, indexes)
    requires IsArrayData(t, block) && start + |block| <= |cells| && block == cells[start..start + |block|]
    ensures InBounds(typ.dims, indexes + [idx])
    ensures var (at, inner) := (Offset(typ.dims, indexes + [idx]), Inner(t, block, idx));
            at + |inner| <= |cells| && inner == cells[at..at + |inner|]
  {
    var k := InnerAt(t, typ, indexes, idx, block);
    Subblock(cells, start, block, k, Inner(t, block, idx));
  }

  /** The cells of element `idx` of that block are those at the offset of its own index vector. */
  lemma ElementOfBlock(t: X.XType, typ: D.DType, data: D.DData, indexes: seq<nat>, idx: nat)
    requires D.Conforms(typ, data) && ArrayFrame(t, typ, indexes) && idx < t.dim
    ensures InBounds(typ.dims, indexes + [idx])
    ensures var (start, inner) := (Offset(typ.dims, indexes + [idx]), Inner(t, CellsBelow(t, typ, data, indexes), idx));
            start + |inner| <= |data.cells| && inner == data.cells[start..start + |inner|]
  {
    BlockFits(typ.dims, indexes);
    ElementOfCells(t, typ, data.cells, indexes, idx, Offset(typ.dims, indexes), CellsBelow(t, typ, data, indexes));
  }

  /** Element `idx` of a nested array is read from the cells below its own index vector. */
  lemma BlockOfArray(t: X.XType, typ: D.DType, data: D.DData, indexes: seq<nat>, idx: nat)
    requires X.Supported(t) && D.Conforms(typ, data) && ArrayFrame(t, typ, indexes) && idx < t.dim && t.content.Array?
    ensures InBounds(typ.dims, indexes + [idx]) && ArrayFrame(t.content, typ, indexes + [idx])
    ensures ReadCells(t, CellsBelow(t, typ, data, indexes)).elems[idx]
         == ReadCells(t.content, CellsBelow(t.content, typ, data, indexes + [idx]))
  {
    NextFrame(t, typ, indexes, idx);
    ElementOfBlock(t, typ, data, indexes, idx);
  }

  /** Any other element is read from the one cell its index vector addresses. */
  lemma CellOfElement(t: X.XType, typ: D.DType, data: D.DData, indexes: seq<nat>, idx: nat)
    requires X.Supported(t) && D.Conforms(typ, data) && ArrayFrame(t, typ, indexes) && idx < t.dim && !t.content.Array?
    ensures InBounds(typ.dims, indexes + [idx]) && |indexes + [idx]| == |typ.dims|
    ensures var id := Offset(typ.dims, indexes + [idx]);
            && id < |data.cells| && D.Conforms(Compile(t.content), data.cells[id])
            && ReadCells(t, CellsBelow(t, typ, data, indexes)).elems[idx] == Read(t.content, data.cells[id])
  {
    NextFrame(t, typ, indexes, idx);
    ElementOfBlock(t, typ, data, indexes, idx);
  }

  method GetArrayData(t: X.XType, from: DynamicData, indexes: seq<nat>) returns (v: X.Value)
    requires X.Supported(t) && from.Valid() && ArrayFrame(t, from.typ, indexes)
    ensures v == ReadCells(t, CellsBelow(t, from.typ, from.data, indexes))
    decreases t, 0, 1
  {
    ghost var result := ReadCells(t, CellsBelow(t, from.typ, from.data, indexes));
    var elems: seq<X.Value> := [];
    var idx := 0;
    while idx < t.dim
      invariant 0 <= idx <= t.dim
      invariant elems == result.elems[..idx]
    {
      var e := GetArrayItem(t, from, indexes, idx);
      elems := elems + [e];
      idx := idx + 1;
    }
    v := X.Items(elems);
  }

  method GetArrayItem(t: X.XType, from: DynamicData, indexes: seq<nat>, idx: nat) returns (e: X.Value)
    requires X.Supported(t) && from.Valid() && ArrayFrame(t, from.typ, indexes) && idx < t.dim
    ensures e == ReadCells(t, CellsBelow(t, from.typ, from.data, indexes)).elems[idx]
    decreases t, 0, 0
  {
    var newIndexes := indexes + [idx];
    if t.content.Array? {
      BlockOfArray(t, from.typ, from.data, indexes, idx);
      e := GetArrayData(t.content, from, newIndexes);
    } else {
      CellOfElement(t, from.typ, from.data, indexes, idx);
      var id := from.GetArrayIndex(newIndexes);
      e := GetElement(t.content, from, id);
    }
  }

  method GetSequenceData(t: X.XType, from: DynamicData) returns (v: X.Value)
    requires t.Seq? && X.Supported(t) && from.Valid() && from.typ == Compile(t)
    ensures v == Read(t, from.data) && Holds(t, v, from.data, false)
    decreases t, 0
  {
    ReadIsHeld(t, from.data);
    ghost var result := Read(t, from.data);
    var elems: seq<X.Value> := [];
    var idx := 0;
    while idx < |from.data.elems|
      invariant 0 <= idx <= |from.data.elems|
      invariant elems == result.elems[..idx]
    {
      var e := GetElement(t.content, from, idx);
      elems := elems + [e];
      idx := idx + 1;
    }
    v := X.Items(elems);
  }

  /** Assignment through the index operator of an xTypes map: replaces the value of a key it has. */
  function Put(pairs: seq<X.Entry>, e: X.Entry): seq<X.Entry> {
    if pairs == [] then [e]
    else if pairs[0].key == e.key then [e] + pairs[1..]
    else [pairs[0]] + Put(pairs[1..], e)
  }

  lemma {:induction false} PutNew(pairs: seq<X.Entry>, e: X.Entry)
    requires forall p | p in pairs :: p.key != e.key
    ensures Put(pairs, e) == pairs + [e]
  {
    if pairs != [] {
      PutNew(pairs[1..], e);
    }
  }

  lemma AppendNew(pairs: seq<X.Entry>, n: nat)
    requires n < |pairs| && forall i | 0 <= i < n :: pairs[i].key != pairs[n].key
    ensures Put(pairs[..n], pairs[n]) == pairs[..n + 1]
  {
    PutNew(pairs[..n], pairs[n]);
  }

  /** Keys in different slots are read as different keys. */
  lemma {:induction false} KeysReadDistinct(t: X.XType, d: D.DData, e: D.DData)
    requires X.Supported(t) && X.IsKey(t) && D.Conforms(Compile(t), d) && D.Conforms(Compile(t), e)
    ensures Read(t, d) == Read(t, e) ==> d == e
  {
    if t.Alias? {
      KeysReadDistinct(t.target, d, e);
    }
  }

  lemma SlotsDiffer(t: D.DType, d: D.DData, i: nat, j: nat)
    requires t.DMap? && D.Conforms(t, d) && i < j < |d.slots| / 2
    ensures d.slots[2 * i] != d.slots[2 * j]
  {
    assert (2 * i) % 2 == 0 && (2 * j) % 2 == 0;
  }

  lemma NextKeyIsNew(t: X.XType, d: D.DData, i: nat, j: nat)
    requires t.Map? && X.Supported(t) && D.Conforms(Compile(t), d) && i < j < |d.slots| / 2
    ensures Read(t, d).pairs[i].key != Read(t, d).pairs[j].key
  {
    SlotsDiffer(Compile(t), d, i, j);
    ReadPair(t, d, i);
    ReadPair(t, d, j);
    KeysReadDistinct(t.key, d.slots[2 * i], d.slots[2 * j]);
  }

  lemma AppendPair(t: X.XType, d: D.DData, n: nat)
    requires t.Map? && X.Supported(t) && D.Conforms(Compile(t), d) && n < |d.slots| / 2
    ensures var pairs := Read(t, d).pairs; Put(pairs[..n], pairs[n]) == pairs[..n + 1]
  {
    forall i | 0 <= i < n ensures Read(t, d).pairs[i].key != Read(t, d).pairs[n].key {
      NextKeyIsNew(t, d, i, n);
    }
    AppendNew(Read(t, d).pairs, n);
  }

  method GetKey(t: X.XType, from: DynamicData, idx: nat) returns (k: X.Value)
    requires t.Map? && X.Supported(t) && from.Valid() && from.typ == Compile(t) && idx < |from.data.slots| / 2
    ensures k == Read(t, from.data).pairs[idx].key
    decreases t, 0, 0
  {
    PairParts(from.typ, from.data, idx);
    k := GetElement(t.key, from, 2 * idx);
    ReadPair(t, from.data, idx);
  }

  method GetValue(t: X.XType, from: DynamicData, idx: nat) returns (v: X.Value)
    requires t.Map? && X.Supported(t) && from.Valid() && from.typ == Compile(t) && idx < |from.data.slots| / 2
    ensures v == Read(t, from.data).pairs[idx].value
    decreases t, 0, 0
  {
    PairParts(from.typ, from.data, idx);
    v := GetElement(t.value, from, 2 * idx + 1);
    ReadPair(t, from.data, idx);
  }

  method GetMapData(t: X.XType, from: DynamicData) returns (v: X.Value)
    requires t.Map? && X.Supported(t) && from.Valid() && from.typ == Compile(t)
    ensures v == Read(t, from.data)
    decreases t, 0, 1
  {
    ghost var result := Read(t, from.data);
    var pairs: seq<X.Entry> := [];
    var idx := 0;
    while idx < |from.data.slots| / 2
      invariant 0 <= idx <= |from.data.slots| / 2
      invariant pairs == result.pairs[..idx]
    {
      var key := GetKey(t, from, idx);
      var value := GetValue(t, from, idx);
      AppendPair(t, from.data, idx);
      pairs := Put(pairs, X.Entry(key, value));
      idx := idx + 1;
    }
    v := X.Entries(pairs);
  }

  /** Reads a member by the kind of its descriptor, a byte as an unsigned one. */
  method GetMember(t: X.XType, from: DynamicData, id: int) returns (v: X.Value)
    requires X.Supported(t) && X.Resolve(t) != X.Scalar(X.Int8)
    requires from.Valid() && (from.typ.DStruct? || from.typ.DUnion?) && 0 <= id < D.PartCount(from.data)
    requires D.PartType(from.typ, from.data, id) == Compile(t) && D.Conforms(Compile(t), D.Part(from.data, id))
    ensures v == Read(t, D.Part(from.data, id))
    decreases t, 2
  {
    ReadResolved(t, D.Part(from.data, id));
    var ok;
    match D.PartType(from.typ, from.data, id) {
      case Basic(k) =>
        var n;
        ok, n := from.GetNumber(MemberGetter(k), id);
        v := X.Num(n);
      case DString(wide, _) =>
        var chars;
        ok, chars := from.GetString(wide, id);
        v := X.Text(chars);
      case DEnum(_) =>
        var n;
        ok, n := from.GetEnum(id);
        v := X.Num(n);
      case _ =>
        var loan := from.LoanValue(id);
        v := GetComplexData(t, loan);
    }
  }

  /** Reads a member of a struct. What a byte becomes depends on the type of the member, behind its aliases. */
  method GetStructMember(t: X.XType, target: X.Value, from: DynamicData, id: int) returns (v: X.Value)
    requires X.Supported(t) && from.Valid() && from.typ.DStruct? && 0 <= id < D.PartCount(from.data)
    requires D.PartType(from.typ, from.data, id) == Compile(t) && D.Conforms(Compile(t), D.Part(from.data, id))
    ensures v == Read(t, D.Part(from.data, id))
    decreases t, 3
  {
    ReadResolved(t, D.Part(from.data, id));
    if D.PartType(from.typ, from.data, id) == D.Basic(D.TkByte) {
      var ok, n := from.GetNumber(AsByte, id);
      match X.Resolve(t) {
        case Scalar(UInt8) => v := X.Num(n);
        case Scalar(Int8) => v := X.Num(DecodeNum(X.Int8, n));
        case _ => v := target;
      }
    } else {
      v := GetMember(t, from, id);
    }
  }

  method GetStructData(t: X.XType, from: DynamicData) returns (v: X.Value)
    requires t.Struct? && X.Supported(t) && from.Valid() && from.typ == Compile(t)
    ensures v == Read(t, from.data)
    decreases t, 0
  {
    ghost var result := Read(t, from.data);
    var output := Default(t).vals;
    var i := 0;
    while i < |from.typ.members|
      invariant 0 <= i <= |t.members| && |output| == |t.members|
      invariant forall j | 0 <= j < i :: output[j] == result.vals[j]
    {
      var name := from.typ.members[i].name;
      OwnName(t, i);
      var at := X.MemberNamed(t.members, name);
      StructMember(t, from.data, i);
      var m := GetStructMember(t.members[at].typ, output[at], from, i);
      output := output[at := m];
      i := i + 1;
    }
    assert output == result.vals;
    v := X.Fields(output);
  }

  /** A member of the compiled type is found in the original one under its name, at the same position. */
  lemma OwnName(t: X.XType, i: nat)
    requires t.Struct? && X.Supported(t) && i < |t.members|
    ensures X.MemberNamed(t.members, Compile(t).members[i].name) == i
  {
    assert Compile(t).members[i].name == t.members[i].name;
    assert X.DistinctNames(t.members);
  }

  lemma StructMember(t: X.XType, d: D.DData, i: nat)
    requires t.Struct? && X.Supported(t) && D.Conforms(Compile(t), d) && i < |t.members|
    ensures D.PartCount(d) == |t.members| && D.PartType(Compile(t), d, i) == Compile(t.members[i].typ)
    ensures D.Conforms(Compile(t.members[i].typ), D.Part(d, i))
    ensures Read(t, d).vals[i] == Read(t.members[i].typ, D.Part(d, i))
  {
  }

  /** Reads the member a union selects. A byte is taken as unsigned. */
  method GetUnionMember(t: X.XType, from: DynamicData, id: int) returns (v: X.Value)
    requires X.Supported(t) && X.Resolve(t) != X.Scalar(X.Int8)
    requires from.Valid() && from.typ.DUnion? && 0 <= id < D.PartCount(from.data)
    requires D.PartType(from.typ, from.data, id) == Compile(t) && D.Conforms(Compile(t), D.Part(from.data, id))
    ensures v == Read(t, D.Part(from.data, id))
    decreases t, 3
  {
    v := GetMember(t, from, id);
  }

  method GetUnionData(t: X.XType, from: DynamicData) returns (v: X.Value)
    requires t.Union? && X.Supported(t) && from.Valid() && from.typ == Compile(t)
    ensures v == Read(t, from.data)
    decreases t, 0
  {
    var id := from.data.unionId;
    if id == D.INVALID_ID {
      return Default(t);
    }
    UnionMember(t, from.data, id);
    var at := X.CaseNamed(t.cases, from.typ.cases[id].name);
    assert at == id;
    assert t.cases[at] in t.cases;
    var payload := GetUnionMember(t.cases[at].typ, from, id);
    // Selecting the case by its name resets the discriminator.
    v := X.Choice(X.CaseDiscriminator(t, at), payload);
  }

  /** A root is a struct or union, possibly by an alias; anything else is refused and the target left as created. */
  method FastDdsToXTypes(t: X.XType, input: DynamicData) returns (ok: bool, output: X.Value)
    requires X.Supported(t) && input.Valid() && input.typ == Compile(t)
    ensures ok <==> X.Resolve(t).Struct? || X.Resolve(t).Union?
    ensures output == if ok then Read(t, input.data) else Default(t)
    ensures if ok then Holds(t, output, input.data, false) else IsInitial(t, output)
    ensures WithinBounds(t, output)
  {
    var r := X.Resolve(t);
    ReadIsHeld(t, input.data);
    DefaultIsInitial(t);
    ReadWithin(t, input.data);
    DefaultWithin(t);
    ReadResolved(t, input.data);
    if r.Struct? {
      output := GetStructData(r, input);
      ok := true;
    } else if r.Union? {
      output := GetUnionData(r, input);
      ok := true;
    } else {
      ok, output := false, Default(t);
    }
  }
}
