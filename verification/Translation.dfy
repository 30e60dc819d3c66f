/**
 What the two converters compute, as functions on values: `Write` from xTypes into a Fast DDS
 buffer that may hold older data, `Read` back into a fresh xTypes value.
 */
module Translation {
  import opened Flattening
  import opened Compiler
  import X = XTypes
  import D = Dds

  // Signed 8-bit numbers share the byte slot of the unsigned ones.
  function EncodeNum(p: X.Prim, n: int): int {
    if p.Int8? && n < 0 then n + 0x100 else n
  }

  function DecodeNum(p: X.Prim, n: int): int {
    if p.Int8? && n >= 0x80 then n - 0x100 else n
  }

  /** Dimensions of the array one level down; none when the content is not an array. */
  function InnerDims(t: X.XType): seq<nat>
    requires t.Array?
  {
    if t.content.Array? then Compile(t.content).dims else []
  }

  lemma ArrayDims(t: X.XType)
    requires t.Array?
    ensures Compile(t).dims == [t.dim] + InnerDims(t)
    ensures Product(Compile(t).dims) == t.dim * Product(InnerDims(t))
    ensures Compile(t).content == if t.content.Array? then Compile(t.content).content else Compile(t.content)
  {
    assert ([t.dim] + InnerDims(t))[1..] == InnerDims(t);
  }

  // ---------------------------------------------------------------------------------------------
  // From xTypes to Fast DDS

  function Write(t: X.XType, v: X.Value, prior: D.DData): D.DData
    requires X.Supported(t) && X.WellTyped(t, v) && D.Conforms(Compile(t), prior)
    decreases t, 2, 0
  {
    match t
    case Scalar(p) => D.Slot(EncodeNum(p, v.n))
    case Str(_, _) => D.TextSlot(v.chars)
    case Enum(_, _) => D.Slot(v.n)
    case Alias(_, target) => Write(target, v, prior)
    case Array(_, dim) => D.Cells(CellsUpTo(t, v, dim))
    case Seq(content, _) => D.SeqData(seq(|v.elems|, i requires 0 <= i < |v.elems| => Element(content, v.elems[i])))
    case Map(key, value, _) =>
      D.MapData(seq(2 * |v.pairs|, i requires 0 <= i < 2 * |v.pairs| =>
        if i % 2 == 0 then Element(key, v.pairs[i / 2].key) else Element(value, v.pairs[i / 2].value)))
    case Struct(_, ms) =>
      D.StructData(seq(|ms|, i requires 0 <= i < |ms| => Write(ms[i].typ, v.vals[i], prior.fields[i])))
    case Union(_, disc, _, cs) =>
      var k := X.ActiveCase(cs, v.disc);
      D.UnionData(DiscriminatorWord(disc, v.disc), k,
                  prior.members[k := Write(cs[k].typ, v.payload, prior.members[k])])
  }

  /** An element of a collection is written into a buffer created for it. */
  function Element(t: X.XType, v: X.Value): D.DData
    requires X.Supported(t) && X.WellTyped(t, v)
    decreases t, 3, 0
  {
    Write(t, v, D.Fresh(Compile(t)))
  }

  /** The cells of element `i` of an array. */
  function CellsOf(t: X.XType, v: X.Value, i: nat): seq<D.DData>
    requires t.Array? && X.Supported(t) && X.WellTyped(t, v) && i < t.dim
    decreases t, 0, 0
  {
    if t.content.Array? then CellsUpTo(t.content, v.elems[i], t.content.dim) else [Element(t.content, v.elems[i])]
  }

  /** The cells of the first `n` elements of an array, in row-major order. */
  function CellsUpTo(t: X.XType, v: X.Value, n: nat): seq<D.DData>
    requires t.Array? && X.Supported(t) && X.WellTyped(t, v) && n <= t.dim
    decreases t, 1, n
  {
    if n == 0 then [] else CellsUpTo(t, v, n - 1) + CellsOf(t, v, n - 1)
  }

  // ---------------------------------------------------------------------------------------------
  // From Fast DDS to xTypes

  /** A value of a type as xTypes creates it; only a union without a selected member is left so. */
  function Default(t: X.XType): X.Value {
    match t
    case Scalar(_) => X.Num(0)
    case Str(_, _) => X.Text([])
    case Enum(_, es) => X.Num(if |es| > 0 then es[0] else 0)
    case Alias(_, target) => Default(target)
    case Array(content, dim) => X.Items(seq(dim, _ => Default(content)))
    case Seq(_, _) => X.Items([])
    case Map(_, _, _) => X.Entries([])
    case Struct(_, ms) => X.Fields(seq(|ms|, i requires 0 <= i < |ms| => Default(ms[i].typ)))
    case Union(_, _, spare, cs) =>
      if |cs| > 0 then X.Choice(X.CaseDiscriminator(t, 0), Default(cs[0].typ)) else X.Choice(spare, X.Num(0))
  }

  function Read(t: X.XType, d: D.DData): X.Value
    requires X.Supported(t) && D.Conforms(Compile(t), d)
    decreases t, 1
  {
    match t
    case Scalar(p) => X.Num(DecodeNum(p, d.n))
    case Str(_, _) => X.Text(d.chars)
    case Enum(_, _) => X.Num(d.n)
    case Alias(_, target) => Read(target, d)
    case Array(_, _) => ReadCells(t, d.cells)
    case Seq(content, _) => X.Items(seq(|d.elems|, i requires 0 <= i < |d.elems| => Read(content, d.elems[i])))
    case Map(key, value, _) =>
      X.Entries(seq(|d.slots| / 2, i requires 0 <= i < |d.slots| / 2 =>
        X.Entry(Read(key, d.slots[2 * i]), Read(value, d.slots[2 * i + 1]))))
    case Struct(_, ms) =>
      X.Fields(seq(|ms|, i requires 0 <= i < |ms| => Read(ms[i].typ, d.fields[i])))
    case Union(_, _, _, cs) =>
      if d.unionId == D.INVALID_ID then Default(t)
      else X.Choice(X.CaseDiscriminator(t, d.unionId), Read(cs[d.unionId].typ, d.members[d.unionId]))
  }

  function Block<T>(s: seq<T>, i: nat, size: nat): (b: seq<T>)
    requires (i + 1) * size <= |s|
    ensures |b| == size
  {
    assert (i + 1) * size == i * size + size;
    s[i * size..i * size + size]
  }

  predicate IsArrayData(t: X.XType, cells: seq<D.DData>)
    requires t.Array?
  {
    |cells| == Product(Compile(t).dims) && forall c | c in cells :: D.Conforms(Compile(t).content, c)
  }

  /** The cells of element `i` of an array. */
  function Inner(t: X.XType, cells: seq<D.DData>, i: nat): (b: seq<D.DData>)
    requires t.Array? && IsArrayData(t, cells) && i < t.dim
    ensures |b| == Product(InnerDims(t))
    ensures if t.content.Array? then IsArrayData(t.content, b) else |b| == 1 && D.Conforms(Compile(t.content), b[0])
  {
    ArrayDims(t);
    MulMono(i + 1, t.dim, Product(InnerDims(t)));
    BlockItems(cells, i, Product(InnerDims(t)));
    Block(cells, i, Product(InnerDims(t)))
  }

  lemma BlockItems(s: seq<D.DData>, i: nat, size: nat)
    requires (i + 1) * size <= |s|
    ensures i * size + size <= |s|
    ensures forall k | 0 <= k < size :: Block(s, i, size)[k] == s[i * size + k]
    ensures forall c | c in Block(s, i, size) :: c in s
  {
    assert (i + 1) * size == i * size + size;
  }

  /** Where they are. */
  lemma InnerIsSlice(t: X.XType, cells: seq<D.DData>, i: nat)
    requires t.Array? && IsArrayData(t, cells) && i < t.dim
    ensures var size := Product(InnerDims(t));
            i * size + size <= |cells| && Inner(t, cells, i) == cells[i * size..i * size + size]
  {
    ArrayDims(t);
    MulMono(i + 1, t.dim, Product(InnerDims(t)));
    BlockItems(cells, i, Product(InnerDims(t)));
  }

  function ReadCells(t: X.XType, cells: seq<D.DData>): X.Value
    requires t.Array? && X.Supported(t) && IsArrayData(t, cells)
    decreases t, 0
  {
    X.Items(seq(t.dim, i requires 0 <= i < t.dim =>
      if t.content.Array? then ReadCells(t.content, Inner(t, cells, i)) else Read(t.content, Inner(t, cells, i)[0])))
  }

  // ---------------------------------------------------------------------------------------------
  // What arrives at the other end

  /** The value, with each union's discriminator reset from its case. */
  function Received(t: X.XType, v: X.Value): X.Value
    requires X.Supported(t) && X.WellTyped(t, v)
  {
    match t
    case Scalar(_) | Str(_, _) | Enum(_, _) => v
    case Alias(_, target) => Received(target, v)
    case Array(content, _) => X.Items(seq(|v.elems|, i requires 0 <= i < |v.elems| => Received(content, v.elems[i])))
    case Seq(content, _) => X.Items(seq(|v.elems|, i requires 0 <= i < |v.elems| => Received(content, v.elems[i])))
    case Map(key, value, _) =>
      X.Entries(seq(|v.pairs|, i requires 0 <= i < |v.pairs| =>
        X.Entry(v.pairs[i].key, Received(value, v.pairs[i].value))))
    case Struct(_, ms) =>
      X.Fields(seq(|ms|, i requires 0 <= i < |ms| => Received(ms[i].typ, v.vals[i])))
    case Union(_, _, _, cs) =>
      var k := X.ActiveCase(cs, v.disc);
      X.Choice(X.CaseDiscriminator(t, k), Received(cs[k].typ, v.payload))
  }

  /** Two values that differ at most in the discriminators of unions with the same active case. */
  predicate SameCases(t: X.XType, v: X.Value, w: X.Value)
    requires X.Supported(t) && X.WellTyped(t, v)
  {
    match t
    case Scalar(_) | Str(_, _) | Enum(_, _) => v == w
    case Alias(_, target) => SameCases(target, v, w)
    case Array(content, _) =>
      w.Items? && |w.elems| == |v.elems| && forall i | 0 <= i < |v.elems| :: SameCases(content, v.elems[i], w.elems[i])
    case Seq(content, _) =>
      w.Items? && |w.elems| == |v.elems| && forall i | 0 <= i < |v.elems| :: SameCases(content, v.elems[i], w.elems[i])
    case Map(key, value, _) =>
      w.Entries? && |w.pairs| == |v.pairs| && forall i | 0 <= i < |v.pairs| ::
        v.pairs[i].key == w.pairs[i].key && SameCases(value, v.pairs[i].value, w.pairs[i].value)
    case Struct(_, ms) =>
      w.Fields? && |w.vals| == |ms| && forall i | 0 <= i < |ms| :: SameCases(ms[i].typ, v.vals[i], w.vals[i])
    case Union(_, _, _, cs) =>
      w.Choice? && X.ActiveCase(cs, w.disc) == X.ActiveCase(cs, v.disc) &&
      SameCases(cs[X.ActiveCase(cs, v.disc)].typ, v.payload, w.payload)
  }

  /** Every union has the very discriminator that selecting its case by name gives it. */
  predicate NamedCases(t: X.XType, v: X.Value)
    requires X.Supported(t) && X.WellTyped(t, v)
  {
    match t
    case Scalar(_) | Str(_, _) | Enum(_, _) => true
    case Alias(_, target) => NamedCases(target, v)
    case Array(content, _) => forall e | e in v.elems :: NamedCases(content, e)
    case Seq(content, _) => forall e | e in v.elems :: NamedCases(content, e)
    case Map(_, value, _) => forall e | e in v.pairs :: NamedCases(value, e.value)
    case Struct(_, ms) => forall i | 0 <= i < |ms| :: NamedCases(ms[i].typ, v.vals[i])
    case Union(_, _, _, cs) =>
      var k := X.ActiveCase(cs, v.disc);
      v.disc == X.CaseDiscriminator(t, k) && NamedCases(cs[k].typ, v.payload)
  }
}
