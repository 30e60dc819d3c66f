/** What a value goes through when it crosses the bridge and comes back. */
module RoundTrip {
  import opened Flattening
  import opened Compiler
  import opened Translation
  import X = XTypes
  import D = Dds

  // ---------------------------------------------------------------------------------------------
  // The data written is well-typed for the type compiled

  /** Keys that differ are written as data that differ. */
  lemma {:induction false} KeysStayDistinct(t: X.XType, v: X.Value, w: X.Value)
    requires X.Supported(t) && X.IsKey(t) && X.WellTyped(t, v) && X.WellTyped(t, w)
    ensures Element(t, v) == Element(t, w) ==> v == w
  {
    if t.Alias? {
      KeysStayDistinct(t.target, v, w);
      ElementOfAlias(t, v);
      ElementOfAlias(t, w);
    } else {
      assert Element(t, v) == Write(t, v, D.Fresh(Compile(t))) && Element(t, w) == Write(t, w, D.Fresh(Compile(t)));
    }
  }

  lemma ElementOfAlias(t: X.XType, v: X.Value)
    requires t.Alias? && X.Supported(t) && X.WellTyped(t, v)
    ensures Element(t, v) == Element(t.target, v)
  {
  }

  lemma {:induction false} WriteConforms(t: X.XType, v: X.Value, prior: D.DData)
    requires X.Supported(t) && X.WellTyped(t, v) && D.Conforms(Compile(t), prior)
    ensures D.Conforms(Compile(t), Write(t, v, prior))
    decreases t, 1, 0
  {
    match t
    case Scalar(_) =>
    case Str(_, _) =>
    case Enum(_, _) =>
    case Alias(_, target) => WriteConforms(target, v, prior);
    case Array(_, dim) =>
      CellsConform(t, v, dim);
      ArrayDims(t);
    case Seq(content, _) =>
      forall e | e in v.elems ensures D.Conforms(Compile(content), Element(content, e)) {
        WriteConforms(content, e, D.Fresh(Compile(content)));
      }
    case Map(key, value, _) => MapConforms(t, v, prior);
    case Struct(_, _) => StructConforms(t, v, prior);
    case Union(_, _, _, _) => UnionConforms(t, v, prior);
  }

  lemma {:induction false} StructConforms(t: X.XType, v: X.Value, prior: D.DData)
    requires t.Struct? && X.Supported(t) && X.WellTyped(t, v) && D.Conforms(Compile(t), prior)
    ensures D.Conforms(Compile(t), Write(t, v, prior))
    decreases t, 0, 0
  {
    var d := Write(t, v, prior);
    forall i | 0 <= i < |t.members| ensures D.Conforms(Members(t)[i].typ, d.fields[i]) {
      WriteConforms(t.members[i].typ, v.vals[i], prior.fields[i]);
    }
  }

  lemma {:induction false} UnionConforms(t: X.XType, v: X.Value, prior: D.DData)
    requires t.Union? && X.Supported(t) && X.WellTyped(t, v) && D.Conforms(Compile(t), prior)
    ensures D.Conforms(Compile(t), Write(t, v, prior))
    decreases t, 0, 0
  {
    var k := X.ActiveCase(t.cases, v.disc);
    DiscriminatorRange(t.disc, v.disc);
    WriteConforms(t.cases[k].typ, v.payload, prior.members[k]);
  }

  lemma {:induction false} MapConforms(t: X.XType, v: X.Value, prior: D.DData)
    requires t.Map? && X.Supported(t) && X.WellTyped(t, v) && D.Conforms(Compile(t), prior)
    ensures D.Conforms(Compile(t), Write(t, v, prior))
    decreases t, 0, 0
  {
    var d := Write(t, v, prior);
    forall i | 0 <= i < |d.slots|
      ensures D.Conforms(if i % 2 == 0 then Compile(t.key) else Compile(t.value), d.slots[i])
    {
      var e := v.pairs[i / 2];
      WriteConforms(t.key, e.key, D.Fresh(Compile(t.key)));
      WriteConforms(t.value, e.value, D.Fresh(Compile(t.value)));
      assert d.slots[i] == if i % 2 == 0 then Element(t.key, e.key) else Element(t.value, e.value);
    }
    forall i, j | 0 <= i < j < |d.slots| && i % 2 == 0 && j % 2 == 0 ensures d.slots[i] != d.slots[j] {
      KeysStayDistinct(t.key, v.pairs[i / 2].key, v.pairs[j / 2].key);
    }
  }

  lemma {:induction false} CellsConform(t: X.XType, v: X.Value, n: nat)
    requires t.Array? && X.Supported(t) && X.WellTyped(t, v) && n <= t.dim
    ensures |CellsUpTo(t, v, n)| == n * Product(InnerDims(t))
    ensures forall c | c in CellsUpTo(t, v, n) :: D.Conforms(Compile(t).content, c)
    decreases t, 0, n
  {
    if n > 0 {
      CellsConform(t, v, n - 1);
      CellsOfConform(t, v, n - 1);
      var size := Product(InnerDims(t));
      assert n * size == (n - 1) * size + size;
    }
  }

  lemma {:induction false} CellsOfConform(t: X.XType, v: X.Value, i: nat)
    requires t.Array? && X.Supported(t) && X.WellTyped(t, v) && i < t.dim
    ensures |CellsOf(t, v, i)| == Product(InnerDims(t))
    ensures forall c | c in CellsOf(t, v, i) :: D.Conforms(Compile(t).content, c)
    decreases t, 0, 0
  {
    ArrayDims(t);
    if t.content.Array? {
      CellsConform(t.content, v.elems[i], t.content.dim);
      ArrayDims(t.content);
    } else {
      WriteConforms(t.content, v.elems[i], D.Fresh(Compile(t.content)));
    }
  }

  // ---------------------------------------------------------------------------------------------
  // Reading back

  lemma CellsLength(t: X.XType, v: X.Value, n: nat)
    requires t.Array? && X.Supported(t) && X.WellTyped(t, v) && n <= t.dim
    ensures |CellsUpTo(t, v, n)| == n * Product(InnerDims(t))
    ensures n < t.dim ==> |CellsOf(t, v, n)| == Product(InnerDims(t))
  {
    CellsConform(t, v, n);
    if n < t.dim {
      CellsOfConform(t, v, n);
    }
  }

  lemma BlockOfPrefix(s: seq<D.DData>, more: seq<D.DData>, i: nat, size: nat)
    requires (i + 1) * size <= |s|
    ensures Block(s + more, i, size) == Block(s, i, size)
  {
    assert (i + 1) * size == i * size + size;
  }

  lemma LastBlock(s: seq<D.DData>, last: seq<D.DData>, i: nat)
    requires |s| == i * |last|
    ensures (i + 1) * |last| == |s + last| && Block(s + last, i, |last|) == last
  {
    assert (i + 1) * |last| == i * |last| + |last|;
  }

  /** The cells of element `i` are where the reader looks for them. */
  lemma {:induction false} BlockOfElement(t: X.XType, v: X.Value, n: nat, i: nat)
    requires t.Array? && X.Supported(t) && X.WellTyped(t, v) && i < n <= t.dim
    ensures |CellsUpTo(t, v, n)| == n * Product(InnerDims(t))
    ensures (i + 1) * Product(InnerDims(t)) <= n * Product(InnerDims(t))
    ensures Block(CellsUpTo(t, v, n), i, Product(InnerDims(t))) == CellsOf(t, v, i)
    decreases n
  {
    CellsLength(t, v, n);
    CellsLength(t, v, n - 1);
    MulMono(i + 1, n, Product(InnerDims(t)));
    if i < n - 1 {
      BlockOfElement(t, v, n - 1, i);
      BlockOfPrefix(CellsUpTo(t, v, n - 1), CellsOf(t, v, n - 1), i, Product(InnerDims(t)));
    } else {
      LastBlock(CellsUpTo(t, v, i), CellsOf(t, v, i), i);
    }
  }

  /** Whatever the buffer held before, reading what was written gives `Received`. */
  lemma {:induction false} ReadAfterWrite(t: X.XType, v: X.Value, prior: D.DData)
    requires X.Supported(t) && X.WellTyped(t, v) && D.Conforms(Compile(t), prior)
    ensures D.Conforms(Compile(t), Write(t, v, prior))
    ensures Read(t, Write(t, v, prior)) == Received(t, v)
    decreases t, 1, 0
  {
    WriteConforms(t, v, prior);
    match t
    case Scalar(_) =>
    case Str(_, _) =>
    case Enum(_, _) =>
    case Alias(_, target) => ReadAfterWrite(target, v, prior);
    case Array(_, dim) =>
      ArrayDims(t);
      ReadAfterWriteCells(t, v);
    case Seq(_, _) => ReadAfterWriteSeq(t, v, prior);
    case Map(_, _, _) => ReadAfterWriteMap(t, v, prior);
    case Struct(_, _) => ReadAfterWriteStruct(t, v, prior);
    case Union(_, _, _, cs) =>
      var k := X.ActiveCase(cs, v.disc);
      ReadAfterWrite(cs[k].typ, v.payload, prior.members[k]);
  }

  lemma {:induction false} ReadAfterWriteSeq(t: X.XType, v: X.Value, prior: D.DData)
    requires t.Seq? && X.Supported(t) && X.WellTyped(t, v) && D.Conforms(Compile(t), prior)
    requires D.Conforms(Compile(t), Write(t, v, prior))
    ensures Read(t, Write(t, v, prior)) == Received(t, v)
    decreases t, 0, 2
  {
    var d := Write(t, v, prior);
    forall i | 0 <= i < |v.elems| ensures Read(t.content, d.elems[i]) == Received(t.content, v.elems[i]) {
      ReadAfterWrite(t.content, v.elems[i], D.Fresh(Compile(t.content)));
      assert d.elems[i] == Element(t.content, v.elems[i]);
    }
    assert Read(t, d).elems == Received(t, v).elems;
  }

  lemma {:induction false} ReadAfterWriteMap(t: X.XType, v: X.Value, prior: D.DData)
    requires t.Map? && X.Supported(t) && X.WellTyped(t, v) && D.Conforms(Compile(t), prior)
    requires D.Conforms(Compile(t), Write(t, v, prior))
    ensures Read(t, Write(t, v, prior)) == Received(t, v)
    decreases t, 0, 1
  {
    var d := Write(t, v, prior);
    var r, w := Read(t, d), Received(t, v);
    forall i | 0 <= i < |v.pairs| ensures r.pairs[i] == w.pairs[i] {
      PairArrives(t, v, i);
      PairSlots(t, v, prior, i);
      ReadPair(t, d, i);
    }
    assert r.pairs == w.pairs;
  }

  lemma {:induction false} PairArrives(t: X.XType, v: X.Value, i: nat)
    requires t.Map? && X.Supported(t) && X.WellTyped(t, v) && i < |v.pairs|
    ensures var e := v.pairs[i];
            && D.Conforms(Compile(t.key), Element(t.key, e.key))
            && D.Conforms(Compile(t.value), Element(t.value, e.value))
            && Read(t.key, Element(t.key, e.key)) == e.key
            && Read(t.value, Element(t.value, e.value)) == Received(t.value, e.value)
    decreases t, 0, 0
  {
    var e := v.pairs[i];
    ReadAfterWrite(t.key, e.key, D.Fresh(Compile(t.key)));
    KeysArriveUnchanged(t.key, e.key);
    ReadAfterWrite(t.value, e.value, D.Fresh(Compile(t.value)));
  }

  lemma PairSlots(t: X.XType, v: X.Value, prior: D.DData, i: nat)
    requires t.Map? && X.Supported(t) && X.WellTyped(t, v) && D.Conforms(Compile(t), prior) && i < |v.pairs|
    ensures var d := Write(t, v, prior);
            && d.MapData? && |d.slots| == 2 * |v.pairs|
            && d.slots[2 * i] == Element(t.key, v.pairs[i].key)
            && d.slots[2 * i + 1] == Element(t.value, v.pairs[i].value)
  {
    assert (2 * i) / 2 == i && (2 * i + 1) / 2 == i;
  }

  /** The slots of pair `i`, as parts of the map. */
  lemma PairParts(t: D.DType, d: D.DData, i: nat)
    requires t.DMap? && D.Conforms(t, d) && i < |d.slots| / 2
    ensures 2 * i + 1 < D.PartCount(d) && D.PartType(t, d, 2 * i) == t.key && D.PartType(t, d, 2 * i + 1) == t.value
    ensures D.Conforms(t.key, D.Part(d, 2 * i)) && D.Part(d, 2 * i) == d.slots[2 * i]
    ensures D.Conforms(t.value, D.Part(d, 2 * i + 1)) && D.Part(d, 2 * i + 1) == d.slots[2 * i + 1]
  {
    assert (2 * i) % 2 == 0 && (2 * i + 1) % 2 == 1;
  }

  lemma ReadPair(t: X.XType, d: D.DData, i: nat)
    requires t.Map? && X.Supported(t) && D.Conforms(Compile(t), d) && i < |d.slots| / 2
    ensures D.Conforms(Compile(t.key), d.slots[2 * i]) && D.Conforms(Compile(t.value), d.slots[2 * i + 1])
    ensures Read(t, d).pairs[i] == X.Entry(Read(t.key, d.slots[2 * i]), Read(t.value, d.slots[2 * i + 1]))
  {
    PairParts(Compile(t), d, i);
  }

  lemma {:induction false} ReadAfterWriteStruct(t: X.XType, v: X.Value, prior: D.DData)
    requires t.Struct? && X.Supported(t) && X.WellTyped(t, v) && D.Conforms(Compile(t), prior)
    requires D.Conforms(Compile(t), Write(t, v, prior))
    ensures Read(t, Write(t, v, prior)) == Received(t, v)
    decreases t, 0, 2
  {
    var d := Write(t, v, prior);
    var r, w := Read(t, d), Received(t, v);
    forall i | 0 <= i < |t.members| ensures r.vals[i] == w.vals[i] {
      var m := t.members[i].typ;
      ReadAfterWrite(m, v.vals[i], prior.fields[i]);
      assert d.fields[i] == Write(m, v.vals[i], prior.fields[i]);
    }
    assert r.vals == w.vals;
  }

  lemma {:induction false} ReadAfterWriteCells(t: X.XType, v: X.Value)
    requires t.Array? && X.Supported(t) && X.WellTyped(t, v)
    ensures IsArrayData(t, CellsUpTo(t, v, t.dim))
    ensures ReadCells(t, CellsUpTo(t, v, t.dim)) == Received(t, v)
    decreases t, 0, 2
  {
    CellsConform(t, v, t.dim);
    ArrayDims(t);
    var cells := CellsUpTo(t, v, t.dim);
    var r := ReadCells(t, cells);
    forall i | 0 <= i < t.dim ensures r.elems[i] == Received(t.content, v.elems[i]) {
      BlockOfElement(t, v, t.dim, i);
      CellsOfConform(t, v, i);
      if t.content.Array? {
        ReadAfterWriteCells(t.content, v.elems[i]);
      } else {
        ReadAfterWrite(t.content, v.elems[i], D.Fresh(Compile(t.content)));
      }
    }
  }

  lemma {:induction false} KeysArriveUnchanged(t: X.XType, v: X.Value)
    requires X.Supported(t) && X.IsKey(t) && X.WellTyped(t, v)
    ensures Received(t, v) == v
  {
    if t.Alias? {
      KeysArriveUnchanged(t.target, v);
    }
  }

  // ---------------------------------------------------------------------------------------------
  // What the round trip preserves

  /** A discriminator reset from its case still selects that case. */
  lemma {:induction false} ReceivedWellTyped(t: X.XType, v: X.Value)
    requires X.Supported(t) && X.WellTyped(t, v)
    ensures X.WellTyped(t, Received(t, v))
  {
    match t
    case Scalar(_) | Str(_, _) | Enum(_, _) =>
    case Alias(_, target) => ReceivedWellTyped(target, v);
    case Array(_, _) | Seq(_, _) =>
      forall e | e in v.elems ensures X.WellTyped(t.content, Received(t.content, e)) {
        ReceivedWellTyped(t.content, e);
      }
    case Map(_, value, _) =>
      forall e | e in v.pairs ensures X.WellTyped(value, Received(value, e.value)) {
        ReceivedWellTyped(value, e.value);
      }
    case Struct(_, ms) =>
      forall i | 0 <= i < |ms| ensures X.WellTyped(ms[i].typ, Received(t, v).vals[i]) {
        ReceivedWellTyped(ms[i].typ, v.vals[i]);
      }
    case Union(_, _, _, cs) =>
      var k := X.ActiveCase(cs, v.disc);
      CaseDiscriminatorSelects(t, k);
      ReceivedWellTyped(cs[k].typ, v.payload);
  }

  /** What is received has the same payloads under the same cases. */
  lemma {:induction false} ReceivedSame(t: X.XType, v: X.Value)
    requires X.Supported(t) && X.WellTyped(t, v)
    ensures SameCases(t, v, Received(t, v))
  {
    match t
    case Scalar(_) | Str(_, _) | Enum(_, _) =>
    case Alias(_, target) => ReceivedSame(target, v);
    case Array(_, _) | Seq(_, _) =>
      forall i | 0 <= i < |v.elems| ensures SameCases(t.content, v.elems[i], Received(t, v).elems[i]) {
        ReceivedSame(t.content, v.elems[i]);
      }
    case Map(_, value, _) =>
      forall i | 0 <= i < |v.pairs| ensures SameCases(value, v.pairs[i].value, Received(t, v).pairs[i].value) {
        ReceivedSame(value, v.pairs[i].value);
      }
    case Struct(_, ms) =>
      forall i | 0 <= i < |ms| ensures SameCases(ms[i].typ, v.vals[i], Received(t, v).vals[i]) {
        ReceivedSame(ms[i].typ, v.vals[i]);
      }
    case Union(_, _, _, cs) =>
      var k := X.ActiveCase(cs, v.disc);
      CaseDiscriminatorSelects(t, k);
      ReceivedSame(cs[k].typ, v.payload);
  }

  /**
   The round trip: a value written into any buffer of its type and read into a fresh target comes
   back, each union with its case and payload, whatever the buffer held before.
   */
  lemma RoundTrip(t: X.XType, v: X.Value, prior: D.DData)
    requires X.Supported(t) && X.WellTyped(t, v) && D.Conforms(Compile(t), prior)
    ensures D.Conforms(Compile(t), Write(t, v, prior))
    ensures var back := Read(t, Write(t, v, prior)); X.WellTyped(t, back) && SameCases(t, v, back)
  {
    ReadAfterWrite(t, v, prior);
    ReceivedWellTyped(t, v);
    ReceivedSame(t, v);
  }

  /** It is the very same value exactly when its unions have the discriminators of their cases. */
  lemma ExactRoundTrip(t: X.XType, v: X.Value, prior: D.DData)
    requires X.Supported(t) && X.WellTyped(t, v) && D.Conforms(Compile(t), prior)
    ensures D.Conforms(Compile(t), Write(t, v, prior))
    ensures Read(t, Write(t, v, prior)) == v <==> NamedCases(t, v)
  {
    ReadAfterWrite(t, v, prior);
    ReceivedExactly(t, v);
  }

  lemma {:induction false} ReceivedExactly(t: X.XType, v: X.Value)
    requires X.Supported(t) && X.WellTyped(t, v)
    ensures Received(t, v) == v <==> NamedCases(t, v)
    decreases t, 1
  {
    match t
    case Scalar(_) | Str(_, _) | Enum(_, _) =>
    case Alias(_, target) => ReceivedExactly(target, v);
    case Array(_, _) | Seq(_, _) => ItemsExactly(t, v);
    case Map(_, _, _) => PairsExactly(t, v);
    case Struct(_, _) => FieldsExactly(t, v);
    case Union(_, _, _, cs) => ReceivedExactly(cs[X.ActiveCase(cs, v.disc)].typ, v.payload);
  }

  lemma {:induction false} ItemsExactly(t: X.XType, v: X.Value)
    requires (t.Array? || t.Seq?) && X.Supported(t) && X.WellTyped(t, v)
    ensures Received(t, v) == v <==> NamedCases(t, v)
    decreases t, 0
  {
    var r := Received(t, v);
    forall i | 0 <= i < |v.elems| ensures r.elems[i] == v.elems[i] <==> NamedCases(t.content, v.elems[i]) {
      ReceivedExactly(t.content, v.elems[i]);
    }
    assert r == v <==> forall i | 0 <= i < |v.elems| :: r.elems[i] == v.elems[i];
  }

  lemma {:induction false} PairsExactly(t: X.XType, v: X.Value)
    requires t.Map? && X.Supported(t) && X.WellTyped(t, v)
    ensures Received(t, v) == v <==> NamedCases(t, v)
    decreases t, 0
  {
    var r := Received(t, v);
    forall i | 0 <= i < |v.pairs| ensures r.pairs[i] == v.pairs[i] <==> NamedCases(t.value, v.pairs[i].value) {
      ReceivedExactly(t.value, v.pairs[i].value);
    }
    assert r == v <==> forall i | 0 <= i < |v.pairs| :: r.pairs[i] == v.pairs[i];
  }

  lemma {:induction false} FieldsExactly(t: X.XType, v: X.Value)
    requires t.Struct? && X.Supported(t) && X.WellTyped(t, v)
    ensures Received(t, v) == v <==> NamedCases(t, v)
    decreases t, 0
  {
    var r := Received(t, v);
    forall i | 0 <= i < |t.members| ensures r.vals[i] == v.vals[i] <==> NamedCases(t.members[i].typ, v.vals[i]) {
      ReceivedExactly(t.members[i].typ, v.vals[i]);
    }
    assert r == v <==> forall i | 0 <= i < |t.members| :: r.vals[i] == v.vals[i];
  }

  /** A second crossing changes nothing more. */
  lemma {:induction false} ReceivedTwice(t: X.XType, v: X.Value)
    requires X.Supported(t) && X.WellTyped(t, v)
    ensures X.WellTyped(t, Received(t, v)) && Received(t, Received(t, v)) == Received(t, v)
  {
    ReceivedWellTyped(t, v);
    var r := Received(t, v);
    match t
    case Scalar(_) | Str(_, _) | Enum(_, _) =>
    case Alias(_, target) => ReceivedTwice(target, v);
    case Array(_, _) | Seq(_, _) =>
      forall i | 0 <= i < |v.elems| ensures Received(t.content, r.elems[i]) == r.elems[i] {
        ReceivedTwice(t.content, v.elems[i]);
      }
      assert Received(t, r).elems == r.elems;
    case Map(_, value, _) =>
      forall i | 0 <= i < |v.pairs| ensures Received(value, r.pairs[i].value) == r.pairs[i].value {
        ReceivedTwice(value, v.pairs[i].value);
      }
      assert Received(t, r).pairs == r.pairs;
    case Struct(_, ms) =>
      forall i | 0 <= i < |ms| ensures Received(ms[i].typ, r.vals[i]) == r.vals[i] {
        ReceivedTwice(ms[i].typ, v.vals[i]);
      }
      assert Received(t, r).vals == r.vals;
    case Union(_, _, _, cs) =>
      var k := X.ActiveCase(cs, v.disc);
      CaseDiscriminatorSelects(t, k);
      ReceivedTwice(cs[k].typ, v.payload);
  }
}
