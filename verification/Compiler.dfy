/** Compiling xTypes types into Fast DDS types: `get_builder`, `get_array_specs`, `create_builder`. */
module Compiler {
  import opened Flattening
  import opened Strings
  import X = XTypes
  import D = Dds

  function KindOf(p: X.Prim): D.Kind {
    match p
    case Bool => D.TkBoolean
    case Char8 => D.TkChar8
    case Char16 | WChar => D.TkChar16
    case UInt8 | Int8 => D.TkByte
    case Int16 => D.TkInt16
    case UInt16 => D.TkUInt16
    case Int32 => D.TkInt32
    case UInt32 => D.TkUInt32
    case Int64 => D.TkInt64
    case UInt64 => D.TkUInt64
    case Float32 => D.TkFloat32
    case Float64 => D.TkFloat64
    case Float128 => D.TkFloat128
  }

  /** The conversion of a signed number to uint64. */
  function Wrap64(n: int): int {
    if n < 0 then n + 0x1_0000_0000_0000_0000 else n
  }

  function CompileLabels(labels: seq<int>): seq<int> {
    seq(|labels|, i requires 0 <= i < |labels| => Wrap64(labels[i]))
  }

  /** The Fast DDS type compiled from `t`. Aliases disappear; nested arrays become one array. */
  function Compile(t: X.XType): (d: D.DType)
    ensures t.Array? ==> d.DArray? && |d.dims| > 0
  {
    match t
    case Scalar(p) => D.Basic(KindOf(p))
    case Str(wide, bound) => D.DString(wide, bound)
    case Enum(_, es) => D.DEnum(es)
    case Alias(_, target) => Compile(target)
    case Array(content, dim) =>
      if content.Array? then
        var inner := Compile(content);
        D.DArray([dim] + inner.dims, inner.content)
      else D.DArray([dim], Compile(content))
    case Seq(content, bound) => D.DSeq(Compile(content), bound)
    case Map(key, value, bound) => D.DMap(Compile(key), Compile(value), bound)
    case Struct(_, ms) =>
      D.DStruct(seq(|ms|, i requires 0 <= i < |ms| => D.DMember(ms[i].name, Compile(ms[i].typ))))
    case Union(_, disc, _, cs) =>
      D.DUnion(Compile(disc), seq(|cs|, i requires 0 <= i < |cs| =>
        D.DCase(cs[i].name, Compile(cs[i].typ), CompileLabels(cs[i].labels), cs[i].isDefault)))
  }

  function Members(t: X.XType): seq<D.DMember>
    requires t.Struct?
  {
    Compile(t).members
  }

  function Cases(t: X.XType): seq<D.DCase>
    requires t.Union?
  {
    Compile(t).cases
  }

  // ---------------------------------------------------------------------------------------------
  // What a compiled type has to be

  /** The primitives kept in slots of a kind. */
  function PrimsIn(k: D.Kind): set<X.Prim> {
    match k
    case TkBoolean => {X.Bool}
    case TkByte => {X.UInt8, X.Int8}
    case TkInt16 => {X.Int16}
    case TkInt32 => {X.Int32}
    case TkInt64 => {X.Int64}
    case TkUInt16 => {X.UInt16}
    case TkUInt32 => {X.UInt32}
    case TkUInt64 => {X.UInt64}
    case TkFloat32 => {X.Float32}
    case TkFloat64 => {X.Float64}
    case TkFloat128 => {X.Float128}
    case TkChar8 => {X.Char8}
    case TkChar16 => {X.Char16, X.WChar}
  }

  /** `w` is the uint64 that an integer is cast to: the same modulo 2^64. */
  predicate IsCast(n: int, w: int) {
    0 <= w < 0x1_0000_0000_0000_0000 && (w - n) % 0x1_0000_0000_0000_0000 == 0
  }

  /** The dimensions of directly nested arrays, outermost first. */
  function Dims(t: X.XType): (dims: seq<nat>)
    requires t.Array?
    ensures |dims| > 0
  {
    if t.content.Array? then [t.dim] + Dims(t.content) else [t.dim]
  }

  /** The content of the innermost of them. */
  function Innermost(t: X.XType): (c: X.XType)
    requires t.Array?
    ensures c < t && !c.Array?
  {
    if t.content.Array? then Innermost(t.content) else t.content
  }

  predicate CastLabels(labels: seq<int>, words: seq<int>) {
    |words| == |labels| &&
    forall j | 0 <= j < |labels| && X.InInt64(labels[j]) :: IsCast(labels[j], words[j])
  }

  /** The Fast DDS type `d` stands for `t`: the same kinds, bounds, dimensions, names and labels, and no aliases. */
  predicate Stands(t: X.XType, d: D.DType) {
    match t
    case Scalar(p) => d.Basic? && p in PrimsIn(d.kind)
    case Str(wide, bound) => d.DString? && d.wide == wide && d.bound == bound
    case Enum(_, es) => d.DEnum? && d.enumerators == es
    case Alias(_, target) => Stands(target, d)
    case Array(_, _) => d.DArray? && d.dims == Dims(t) && Stands(Innermost(t), d.content)
    case Seq(content, bound) => d.DSeq? && d.bound == bound && Stands(content, d.content)
    case Map(key, value, bound) => d.DMap? && d.bound == bound && Stands(key, d.key) && Stands(value, d.value)
    case Struct(_, ms) =>
      d.DStruct? && |d.members| == |ms| &&
      forall i | 0 <= i < |ms| :: d.members[i].name == ms[i].name && Stands(ms[i].typ, d.members[i].typ)
    case Union(_, disc, _, cs) =>
      d.DUnion? && Stands(disc, d.disc) && |d.cases| == |cs| && forall i | 0 <= i < |cs| ::
        && d.cases[i].name == cs[i].name && Stands(cs[i].typ, d.cases[i].typ)
        && d.cases[i].isDefault == cs[i].isDefault
        && CastLabels(cs[i].labels, d.cases[i].labels)
  }

  lemma {:induction false} CompiledStands(t: X.XType)
    ensures Stands(t, Compile(t))
  {
    match t
    case Scalar(_) | Str(_, _) | Enum(_, _) =>
    case Alias(_, target) => CompiledStands(target);
    case Array(_, _) =>
      FlattenedArray(t);
      CompiledStands(Innermost(t));
    case Seq(content, _) => CompiledStands(content);
    case Map(key, value, _) =>
      CompiledStands(key);
      CompiledStands(value);
    case Struct(_, ms) =>
      forall i | 0 <= i < |ms| ensures Stands(ms[i].typ, Compile(ms[i].typ)) {
        assert ms[i] in ms;
        CompiledStands(ms[i].typ);
      }
    case Union(_, disc, _, cs) =>
      CompiledStands(disc);
      forall i | 0 <= i < |cs| ensures Stands(cs[i].typ, Compile(cs[i].typ)) {
        assert cs[i] in cs;
        CompiledStands(cs[i].typ);
      }
  }

  lemma {:induction false} FlattenedArray(t: X.XType)
    requires t.Array?
    ensures Compile(t) == D.DArray(Dims(t), Compile(Innermost(t)))
  {
    if t.content.Array? {
      FlattenedArray(t.content);
    }
  }

  /** No other type stands for it. */
  lemma {:induction false} OneStands(t: X.XType, d: D.DType, e: D.DType)
    requires X.Supported(t) && Stands(t, d) && Stands(t, e)
    ensures d == e
    decreases t, 1
  {
    match t
    case Scalar(_) | Str(_, _) | Enum(_, _) =>
    case Alias(_, target) => OneStands(target, d, e);
    case Array(_, _) =>
      InnermostSupported(t);
      OneStands(Innermost(t), d.content, e.content);
    case Seq(content, _) => OneStands(content, d.content, e.content);
    case Map(key, value, _) =>
      OneStands(key, d.key, e.key);
      OneStands(value, d.value, e.value);
    case Struct(_, ms) =>
      forall i | 0 <= i < |ms| ensures d.members[i] == e.members[i] {
        OneStands(ms[i].typ, d.members[i].typ, e.members[i].typ);
      }
      assert d.members == e.members;
    case Union(_, disc, _, cs) =>
      OneStands(disc, d.disc, e.disc);
      OneCasesStand(t, d, e);
  }

  lemma {:induction false} OneCasesStand(t: X.XType, d: D.DType, e: D.DType)
    requires t.Union? && X.Supported(t) && Stands(t, d) && Stands(t, e)
    ensures d.cases == e.cases
    decreases t, 0
  {
    forall i | 0 <= i < |t.cases| ensures d.cases[i] == e.cases[i] {
      OneStands(t.cases[i].typ, d.cases[i].typ, e.cases[i].typ);
      OneCast(t.cases[i].labels, d.cases[i].labels, e.cases[i].labels);
    }
  }

  lemma OneCast(labels: seq<int>, v: seq<int>, w: seq<int>)
    requires CastLabels(labels, v) && CastLabels(labels, w) && forall l | l in labels :: X.InInt64(l)
    ensures v == w
  {
  }

  lemma {:induction false} InnermostSupported(t: X.XType)
    requires t.Array? && X.Supported(t)
    ensures X.Supported(Innermost(t)) && !X.Resolve(Innermost(t)).Array?
  {
    if t.content.Array? {
      InnermostSupported(t.content);
    }
  }

  // ---------------------------------------------------------------------------------------------
  // The builder, as the source assembles it

  method GetBuilder(t: X.XType) returns (d: D.DType)
    ensures d == Compile(t) && Stands(t, d)
    decreases t, 1
  {
    CompiledStands(t);
    match t {
      case Scalar(p) => d := D.Basic(KindOf(p));
      case Str(wide, bound) => d := D.DString(wide, bound);
      case Enum(_, es) => d := D.DEnum(es);
      case Alias(_, target) => d := GetBuilder(target);
      case Array(_, _) =>
        var dims, content := GetArraySpecs(t, []);
        FlattenedArray(t);
        assert [] + Dims(t) == Dims(t);
        d := D.DArray(dims, content);
      case Seq(content, bound) =>
        var c := GetBuilder(content);
        d := D.DSeq(c, bound);
      case Map(key, value, bound) =>
        var k := GetBuilder(key);
        var v := GetBuilder(value);
        d := D.DMap(k, v, bound);
      case Union(_, disc, _, cs) =>
        var discriminator := GetBuilder(disc);
        var cases: seq<D.DCase> := [];
        for i := 0 to |cs|
          invariant cases == Compile(t).cases[..i]
        {
          var labels: seq<int> := [];
          for j := 0 to |cs[i].labels|
            invariant labels == CompileLabels(cs[i].labels)[..j]
          {
            labels := labels + [Wrap64(cs[i].labels[j])];
          }
          assert labels == CompileLabels(cs[i].labels);
          var m := GetBuilder(cs[i].typ);
          cases := cases + [D.DCase(cs[i].name, m, labels, cs[i].isDefault)];
        }
        d := D.DUnion(discriminator, cases);
      case Struct(_, ms) =>
        var members: seq<D.DMember> := [];
        for i := 0 to |ms|
          invariant members == Compile(t).members[..i]
        {
          var m := GetBuilder(ms[i].typ);
          members := members + [D.DMember(ms[i].name, m)];
        }
        d := D.DStruct(members);
    }
  }

  /** Appends the dimensions of `t` to those found so far, down to the first content not an array. */
  method GetArraySpecs(t: X.XType, found: seq<nat>) returns (dims: seq<nat>, content: D.DType)
    requires t.Array?
    ensures dims == found + Dims(t) && content == Compile(Innermost(t))
    decreases t, 0
  {
    dims := found + [t.dim];
    if t.content.Array? {
      dims, content := GetArraySpecs(t.content, dims);
    } else {
      content := GetBuilder(t.content);
    }
  }

  /** The number of indexes the data writer collects: it looks through aliases at every level. */
  function WriterRank(t: X.XType): (n: nat)
    requires t.Array?
  {
    var inner := X.Resolve(t.content);
    if inner.Array? then ResolveSmaller(t.content); 1 + WriterRank(inner) else 1
  }

  lemma ResolveSmaller(t: X.XType)
    ensures X.Resolve(t) == t || X.Resolve(t) < t
  {
  }

  /** Somewhere down the chain of nested arrays, an alias hides the next array. */
  predicate AliasHidesArray(t: X.XType)
    requires t.Array?
  {
    if t.content.Array? then AliasHidesArray(t.content) else X.Resolve(t.content).Array?
  }

  /** The compiled rank is the number of indexes the writer uses exactly when no alias hides an array. */
  lemma {:induction false} RanksAgree(t: X.XType)
    requires t.Array?
    ensures |Compile(t).dims| <= WriterRank(t)
    ensures |Compile(t).dims| == WriterRank(t) <==> !AliasHidesArray(t)
  {
    if t.content.Array? {
      RanksAgree(t.content);
    }
  }

  /** An array of rows, where a row is an alias of an array: one dimension compiled, two indexes written. */
  lemma HiddenArray()
    ensures var rows := X.Array(X.Alias("Row", X.Array(X.Scalar(X.Int32), 2)), 3);
            AliasHidesArray(rows) && |Compile(rows).dims| == 1 && WriterRank(rows) == 2
  {
    var row := X.Array(X.Scalar(X.Int32), 2);
    assert X.Resolve(X.Alias("Row", row)) == row && WriterRank(row) == 1;
  }

  // ---------------------------------------------------------------------------------------------
  // Union labels

  /** The word written as the discriminator of a union, kind by kind. */
  function DiscriminatorWord(disc: X.XType, d: int): int {
    match X.Resolve(disc)
    case Scalar(p) =>
      (match p
       case Bool | UInt8 | UInt16 | UInt32 | UInt64 => d
       case Char8 | Char16 | WChar | Int8 | Int16 | Int32 | Int64 => Wrap64(d)
       case Float32 | Float64 | Float128 => 0)
    case Enum(_, _) => d
    case _ => 0
  }

  lemma DiscriminatorRange(disc: X.XType, d: int)
    requires X.IsDiscriminator(disc) && X.WellTyped(disc, X.Num(d))
    ensures DiscriminatorWord(disc, d) == Wrap64(X.AsInt64(d)) && X.InInt64(X.AsInt64(d))
    ensures IsCast(d, DiscriminatorWord(disc, d)) && 0 <= DiscriminatorWord(disc, d) < 0x1_0000_0000_0000_0000
  {
    X.ResolveKeepsValues(disc, X.Num(d));
  }

  /** Two discriminators of the same type are written as the same word only when they are equal. */
  lemma WordIdentifiesLabel(disc: X.XType, d: int, other: int)
    requires X.IsDiscriminator(disc) && X.WellTyped(disc, X.Num(d)) && X.WellTyped(disc, X.Num(other))
    ensures DiscriminatorWord(disc, d) == Wrap64(X.AsInt64(other)) <==> d == other
  {
    X.ResolveKeepsValues(disc, X.Num(d));
    X.ResolveKeepsValues(disc, X.Num(other));
    DiscriminatorRange(disc, d);
    DiscriminatorRange(disc, other);
  }

  lemma LabelsAgree(labels: seq<int>, l: int)
    requires X.InInt64(l) && forall m | m in labels :: X.InInt64(m)
    ensures l in labels <==> Wrap64(l) in CompileLabels(labels)
  {
    var w := CompileLabels(labels);
    if l in labels {
      var i :| 0 <= i < |labels| && labels[i] == l;
      assert w[i] == Wrap64(l);
    }
    if Wrap64(l) in w {
      var i :| 0 <= i < |w| && w[i] == Wrap64(l);
      assert labels[i] in labels;
      assert w[i] == Wrap64(labels[i]);
    }
  }

  lemma SameSelection(cs: seq<X.Case>, ds: seq<D.DCase>, d: int, word: int)
    requires |cs| == |ds| && forall i | 0 <= i < |cs| :: cs[i].isDefault == ds[i].isDefault
    requires forall i | 0 <= i < |cs| :: X.AsInt64(d) in cs[i].labels <==> word in ds[i].labels
    ensures D.SelectedId(ds, word) == if X.ActiveCase(cs, d) < |cs| then X.ActiveCase(cs, d) else D.INVALID_ID
  {
    assert X.LabelledCase(cs, X.AsInt64(d)) == D.LabelledCase(ds, word);
    assert X.DefaultCase(cs) == D.DefaultCase(ds);
  }

  /** The member Fast DDS selects for the word written is the case xTypes selects for the value. */
  lemma SelectionAgrees(t: X.XType, d: int)
    requires t.Union? && X.Supported(t) && X.WellTyped(t.disc, X.Num(d))
    ensures var k := X.ActiveCase(t.cases, d);
            D.SelectedId(Cases(t), DiscriminatorWord(t.disc, d)) == if k < |t.cases| then k else D.INVALID_ID
  {
    DiscriminatorRange(t.disc, d);
    var l := X.AsInt64(d);
    var cs, ds := t.cases, Cases(t);
    forall i | 0 <= i < |cs| ensures l in cs[i].labels <==> DiscriminatorWord(t.disc, d) in ds[i].labels {
      LabelsAgree(cs[i].labels, l);
    }
    SameSelection(cs, ds, d, DiscriminatorWord(t.disc, d));
  }

  /** The discriminator a union is given when a case is selected by name does select that case. */
  lemma CaseDiscriminatorSelects(t: X.XType, k: nat)
    requires t.Union? && X.Supported(t) && k < |t.cases|
    ensures X.WellTyped(t.disc, X.Num(X.CaseDiscriminator(t, k)))
    ensures X.ActiveCase(t.cases, X.CaseDiscriminator(t, k)) == k
  {
    if |t.cases[k].labels| > 0 {
      var l := t.cases[k].labels[0];
      assert l in t.cases[k].labels;
      assert X.AsInt64(X.FromLabel(t.disc, l)) == l;
    }
  }

  // ---------------------------------------------------------------------------------------------
  // Names and the builder cache

  /** A type name Fast DDS accepts: what follows the last ':', with each '/' spelt "__". */
  function ConvertedName(name: string): string {
    ReplaceAll(AfterLast(name, ':'), '/', "__")
  }

  method ConvertTypeName(messageType: string) returns (name: string)
    ensures name == ConvertedName(messageType)
  {
    name := AfterLast(messageType, ':');
    var done := 0;
    ghost var start := name;
    var i := Find(name, '/', 0);
    while i != -1
      invariant i == -1 || (0 <= i < |name| && name[i] == '/' && '/' !in name[..i])
      invariant i == -1 ==> '/' !in name
      invariant ReplaceAll(name, '/', "__") == ReplaceAll(start, '/', "__")
      decreases SlashCount(name)
    {
      var before, after := name[..i], name[i + 1..];
      assert name == before + ("/" + after);
      SlashReplaced(before, after);
      name := before + ("__" + after);
      ghost var from := i;
      i := Find(name, '/', i);
      assert name[..from] == before;
      if i != -1 {
        assert name[..i] == before + name[from..i];
      } else {
        assert name == before + name[from..];
      }
    }
    ReplaceAllAbsent(name, '/', "__");
  }

  lemma SlashReplaced(before: string, after: string)
    ensures SlashCount(before + ("__" + after)) < SlashCount(before + ("/" + after))
    ensures ReplaceAll(before + ("__" + after), '/', "__") == ReplaceAll(before + ("/" + after), '/', "__")
  {
    SlashCountAppend(before, "/" + after);
    SlashCountAppend(before, "__" + after);
    assert ("__" + after)[1..] == "_" + after && ("_" + after)[1..] == after && ("/" + after)[1..] == after;
    ReplaceAllAppend(before, "/" + after, '/', "__");
    ReplaceAllAppend(before, "__" + after, '/', "__");
    ReplaceAllAppend("__", after, '/', "__");
    ReplaceAllAbsent("__", '/', "__");
  }

  ghost function SlashCount(s: string): nat {
    if s == [] then 0 else (if s[0] == '/' then 1 else 0) + SlashCount(s[1..])
  }

  lemma {:induction false} SlashCountAppend(a: string, b: string)
    ensures SlashCount(a + b) == SlashCount(a) + SlashCount(b)
  {
    if a == [] {
      assert a + b == b;
    } else {
      SlashCountAppend(a[1..], b);
      assert (a + b)[1..] == a[1..] + b;
    }
  }

  /** A converted name has neither ':' nor '/', so converting it again changes nothing. */
  lemma ConvertedNameIsStable(name: string)
    ensures ':' !in ConvertedName(name) && '/' !in ConvertedName(name)
    ensures ConvertedName(ConvertedName(name)) == ConvertedName(name)
  {
    var c := ConvertedName(name);
    ReplaceAllChars(AfterLast(name, ':'), '/', "__");
    var k :| 0 <= k <= |c| && AfterLast(c, ':') == c[k..] && (k == 0 || c[k - 1] == ':');
    assert k == 0;
    ReplaceAllAbsent(c, '/', "__");
  }

  datatype Builder = Builder(name: string, typ: D.DType)

  /** The builders already made, by type name. */
  class BuilderCache {
    var builders: map<string, Builder>
    ghost var origin: map<string, X.XType>  // the type each builder was first made from

    ghost predicate Valid()
      reads this
    {
      builders.Keys == origin.Keys &&
      forall n | n in builders :: builders[n] == Builder(ConvertedName(n), Compile(origin[n]))
    }

    constructor ()
      ensures Valid() && origin == map[]
    {
      builders, origin := map[], map[];
    }

    method CreateBuilder(name: string, t: X.XType) returns (b: Builder)
      requires Valid()
      modifies this
      ensures Valid()
      ensures origin == if name in old(origin) then old(origin) else old(origin)[name := t]
      ensures b == Builder(ConvertedName(name), Compile(origin[name]))
      ensures Stands(origin[name], b.typ)
      ensures (name in old(origin) ==> old(origin)[name] == t) ==> b.typ == Compile(t)
    {
      CompiledStands(if name in origin then origin[name] else t);
      if name in builders {
        return builders[name];
      }
      var d := GetBuilder(t);
      var n := ConvertTypeName(name);
      b := Builder(n, d);
      builders := builders[name := b];
      origin := origin[name := t];
    }
  }
}
