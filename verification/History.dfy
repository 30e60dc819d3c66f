/** One buffer, many messages: what a publisher's buffer holds after converting message upon message. */
module History {
  import opened Compiler
  import opened Translation
  import opened RoundTrip
  import Flattening
  import X = XTypes
  import D = Dds

  /** Apart from members no union selects, what is written does not depend on what was there. */
  lemma {:induction false} WriteForgets(t: X.XType, v: X.Value, p: D.DData, q: D.DData)
    requires X.Supported(t) && X.WellTyped(t, v) && D.Conforms(Compile(t), p) && D.Conforms(Compile(t), q)
    ensures D.Visible(Write(t, v, p)) == D.Visible(Write(t, v, q))
    decreases t, 1
  {
    if t.Alias? {
      WriteForgets(t.target, v, p, q);
    } else if t.Struct? {
      StructForgets(t, v, p, q);
    } else if t.Union? {
      var k := X.ActiveCase(t.cases, v.disc);
      WriteForgets(t.cases[k].typ, v.payload, p.members[k], q.members[k]);
      VisibleUnion(t, v, p);
      VisibleUnion(t, v, q);
    } else {
      CollectionForgets(t, v, p, q);
    }
  }

  lemma CollectionForgets(t: X.XType, v: X.Value, p: D.DData, q: D.DData)
    requires X.Supported(t) && X.WellTyped(t, v) && D.Conforms(Compile(t), p) && D.Conforms(Compile(t), q)
    requires !t.Alias? && !t.Struct? && !t.Union?
    ensures Write(t, v, p) == Write(t, v, q)
  {
  }

  lemma VisibleUnion(t: X.XType, v: X.Value, p: D.DData)
    requires t.Union? && X.Supported(t) && X.WellTyped(t, v) && D.Conforms(Compile(t), p)
    ensures var k := X.ActiveCase(t.cases, v.disc);
            D.Visible(Write(t, v, p)) == D.UnionData(DiscriminatorWord(t.disc, v.disc), k,
              [D.Visible(Write(t.cases[k].typ, v.payload, p.members[k]))])
  {
  }

  lemma {:induction false} StructForgets(t: X.XType, v: X.Value, p: D.DData, q: D.DData)
    requires t.Struct? && X.Supported(t) && X.WellTyped(t, v) && D.Conforms(Compile(t), p) && D.Conforms(Compile(t), q)
    ensures D.Visible(Write(t, v, p)) == D.Visible(Write(t, v, q))
    decreases t, 0
  {
    var dp, dq := Write(t, v, p), Write(t, v, q);
    forall i | 0 <= i < |t.members| ensures D.Visible(dp.fields[i]) == D.Visible(dq.fields[i]) {
      WriteForgets(t.members[i].typ, v.vals[i], p.fields[i], q.fields[i]);
    }
    assert D.Visible(dp).fields == D.Visible(dq).fields;
  }

  /** The buffer after converting every message in turn. */
  function WriteAll(t: X.XType, messages: seq<X.Value>, prior: D.DData): (d: D.DData)
    requires X.Supported(t) && D.Conforms(Compile(t), prior)
    requires forall m | m in messages :: X.WellTyped(t, m)
    ensures D.Conforms(Compile(t), d)
  {
    if messages == [] then prior
    else
      var last := |messages| - 1;
      var before := WriteAll(t, messages[..last], prior);
      WriteConforms(t, messages[last], before);
      Write(t, messages[last], before)
  }

  lemma WriteOneMore(t: X.XType, messages: seq<X.Value>, m: X.Value, prior: D.DData)
    requires X.Supported(t) && D.Conforms(Compile(t), prior)
    requires X.WellTyped(t, m) && forall m | m in messages :: X.WellTyped(t, m)
    ensures WriteAll(t, messages + [m], prior) == Write(t, m, WriteAll(t, messages, prior))
  {
    assert (messages + [m])[..|messages|] == messages;
  }

  /** Whatever came before, the visible data is that of the last message in a fresh buffer. */
  lemma HistoryIndependent(t: X.XType, messages: seq<X.Value>, prior: D.DData)
    requires X.Supported(t) && D.Conforms(Compile(t), prior)
    requires messages != [] && forall m | m in messages :: X.WellTyped(t, m)
    ensures D.Visible(WriteAll(t, messages, prior))
         == D.Visible(Write(t, messages[|messages| - 1], D.Fresh(Compile(t))))
  {
    var last := |messages| - 1;
    WriteForgets(t, messages[last], WriteAll(t, messages[..last], prior), D.Fresh(Compile(t)));
  }

  /** Buffers that look the same when unselected members are disregarded are read as the same value. */
  lemma {:induction false} VisibleDecidesRead(t: X.XType, p: D.DData, q: D.DData)
    requires X.Supported(t) && D.Conforms(Compile(t), p) && D.Conforms(Compile(t), q)
    requires D.Visible(p) == D.Visible(q)
    ensures Read(t, p) == Read(t, q)
    decreases t, 1
  {
    match t
    case Scalar(_) | Str(_, _) | Enum(_, _) =>
    case Alias(_, target) => VisibleDecidesRead(target, p, q);
    case Array(_, _) =>
      forall i | 0 <= i < |p.cells| ensures D.Visible(p.cells[i]) == D.Visible(q.cells[i]) {
        assert D.Visible(p).cells[i] == D.Visible(p.cells[i]) && D.Visible(q).cells[i] == D.Visible(q.cells[i]);
      }
      VisibleDecidesCells(t, p.cells, q.cells);
    case Seq(_, _) => VisibleDecidesSeq(t, p, q);
    case Map(_, _, _) => VisibleDecidesMap(t, p, q);
    case Struct(_, _) => VisibleDecidesStruct(t, p, q);
    case Union(_, _, _, cs) =>
      assert p.unionId == D.Visible(p).unionId == q.unionId;
      if p.unionId != D.INVALID_ID {
        assert D.Visible(p).members[0] == D.Visible(p.members[p.unionId]);
        assert D.Visible(q).members[0] == D.Visible(q.members[q.unionId]);
        VisibleDecidesRead(cs[p.unionId].typ, p.members[p.unionId], q.members[p.unionId]);
      }
  }

  lemma {:induction false} VisibleDecidesSeq(t: X.XType, p: D.DData, q: D.DData)
    requires t.Seq? && X.Supported(t) && D.Conforms(Compile(t), p) && D.Conforms(Compile(t), q)
    requires D.Visible(p) == D.Visible(q)
    ensures Read(t, p) == Read(t, q)
    decreases t, 0, 0
  {
    assert |p.elems| == |D.Visible(p).elems| == |q.elems|;
    forall i | 0 <= i < |p.elems| ensures Read(t.content, p.elems[i]) == Read(t.content, q.elems[i]) {
      assert D.Visible(p).elems[i] == D.Visible(p.elems[i]) && D.Visible(q).elems[i] == D.Visible(q.elems[i]);
      VisibleDecidesRead(t.content, p.elems[i], q.elems[i]);
    }
  }

  lemma {:induction false} VisibleDecidesStruct(t: X.XType, p: D.DData, q: D.DData)
    requires t.Struct? && X.Supported(t) && D.Conforms(Compile(t), p) && D.Conforms(Compile(t), q)
    requires D.Visible(p) == D.Visible(q)
    ensures Read(t, p) == Read(t, q)
    decreases t, 0, 0
  {
    var r, w := Read(t, p), Read(t, q);
    forall i | 0 <= i < |t.members| ensures r.vals[i] == w.vals[i] {
      assert D.Visible(p).fields[i] == D.Visible(p.fields[i]) && D.Visible(q).fields[i] == D.Visible(q.fields[i]);
      VisibleDecidesRead(t.members[i].typ, p.fields[i], q.fields[i]);
    }
    assert r.vals == w.vals;
  }

  lemma {:induction false} VisibleDecidesMap(t: X.XType, p: D.DData, q: D.DData)
    requires t.Map? && X.Supported(t) && D.Conforms(Compile(t), p) && D.Conforms(Compile(t), q)
    requires D.Visible(p) == D.Visible(q)
    ensures Read(t, p) == Read(t, q)
    decreases t, 0, 0
  {
    assert |p.slots| == |D.Visible(p).slots| == |q.slots|;
    forall i | 0 <= i < |p.slots| ensures D.Visible(p.slots[i]) == D.Visible(q.slots[i]) {
      assert D.Visible(p).slots[i] == D.Visible(p.slots[i]) && D.Visible(q).slots[i] == D.Visible(q.slots[i]);
    }
    var r, w := Read(t, p), Read(t, q);
    forall i | 0 <= i < |r.pairs| ensures r.pairs[i] == w.pairs[i] {
      ReadPair(t, p, i);
      ReadPair(t, q, i);
      VisibleDecidesRead(t.key, p.slots[2 * i], q.slots[2 * i]);
      VisibleDecidesRead(t.value, p.slots[2 * i + 1], q.slots[2 * i + 1]);
    }
    assert r.pairs == w.pairs;
  }

  lemma {:induction false} VisibleDecidesCells(t: X.XType, p: seq<D.DData>, q: seq<D.DData>)
    requires t.Array? && X.Supported(t) && IsArrayData(t, p) && IsArrayData(t, q)
    requires forall i | 0 <= i < |p| :: D.Visible(p[i]) == D.Visible(q[i])
    ensures ReadCells(t, p) == ReadCells(t, q)
    decreases t, 0, 1
  {
    var r, w := ReadCells(t, p), ReadCells(t, q);
    forall i | 0 <= i < t.dim ensures r.elems[i] == w.elems[i] {
      InnerVisible(t, p, q, i);
      if t.content.Array? {
        VisibleDecidesCells(t.content, Inner(t, p, i), Inner(t, q, i));
      } else {
        VisibleDecidesRead(t.content, Inner(t, p, i)[0], Inner(t, q, i)[0]);
      }
    }
    assert r.elems == w.elems;
  }

  lemma InnerVisible(t: X.XType, p: seq<D.DData>, q: seq<D.DData>, i: nat)
    requires t.Array? && IsArrayData(t, p) && IsArrayData(t, q) && i < t.dim
    requires forall i | 0 <= i < |p| :: D.Visible(p[i]) == D.Visible(q[i])
    ensures forall k | 0 <= k < |Inner(t, p, i)| :: D.Visible(Inner(t, p, i)[k]) == D.Visible(Inner(t, q, i)[k])
  {
    InnerIsSlice(t, p, i);
    InnerIsSlice(t, q, i);
    forall k | 0 <= k < |Inner(t, p, i)| ensures D.Visible(Inner(t, p, i)[k]) == D.Visible(Inner(t, q, i)[k]) {
      SliceVisible(p, q, i * Flattening.Product(InnerDims(t)), Flattening.Product(InnerDims(t)), k);
    }
  }

  lemma SliceVisible(p: seq<D.DData>, q: seq<D.DData>, start: nat, size: nat, k: nat)
    requires |p| == |q| && start + size <= |p| && k < size && D.Visible(p[start + k]) == D.Visible(q[start + k])
    ensures D.Visible(p[start..start + size][k]) == D.Visible(q[start..start + size][k])
  {
  }
}
