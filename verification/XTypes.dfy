/** The xTypes side of the bridge: dynamic types, and the values that inhabit them. */
module XTypes {

  datatype Prim =
    | Bool | Char8 | Char16 | WChar
    | UInt8 | Int8 | Int16 | UInt16 | Int32 | UInt32 | Int64 | UInt64
    | Float32 | Float64 | Float128

  datatype Member = Member(name: string, typ: XType)

  /** A union case: its int64 labels, and whether it is the default case. */
  datatype Case = Case(name: string, typ: XType, labels: seq<int>, isDefault: bool)

  /**
   A dynamic type. A bound of 0 means unbounded. `spare` is the discriminator a union takes
   when the case selected is the default one and has no label of its own.
   */
  datatype XType =
    | Scalar(prim: Prim)
    | Str(wide: bool, bound: nat)
    | Enum(name: string, enumerators: seq<nat>)
    | Alias(name: string, target: XType)
    | Array(content: XType, dim: nat)
    | Seq(content: XType, bound: nat)
    | Map(key: XType, value: XType, bound: nat)
    | Struct(name: string, members: seq<Member>)
    | Union(name: string, disc: XType, spare: int, cases: seq<Case>)

  datatype Entry = Entry(key: Value, value: Value)

  /** Numbers stand for every fixed-size scalar; floats are opaque codes. */
  datatype Value =
    | Num(n: int)
    | Text(chars: seq<int>)
    | Items(elems: seq<Value>)
    | Entries(pairs: seq<Entry>)
    | Fields(vals: seq<Value>)
    | Choice(disc: int, payload: Value)

  /** The type behind any chain of aliases. */
  function Resolve(t: XType): (r: XType)
    ensures !r.Alias?
    ensures !t.Alias? ==> r == t
  {
    if t.Alias? then Resolve(t.target) else t
  }

  predicate IsScalarKind(t: XType) {
    t.Scalar? || t.Str? || t.Enum?
  }

  predicate InRange(p: Prim, n: int) {
    match p
    case Bool => 0 <= n <= 1
    case Char8 => -0x80 <= n < 0x80
    case Char16 => 0 <= n < 0x1_0000
    case WChar => -0x8000_0000 <= n < 0x8000_0000
    case UInt8 => 0 <= n < 0x100
    case Int8 => -0x80 <= n < 0x80
    case Int16 => -0x8000 <= n < 0x8000
    case UInt16 => 0 <= n < 0x1_0000
    case Int32 => -0x8000_0000 <= n < 0x8000_0000
    case UInt32 => 0 <= n < 0x1_0000_0000
    case Int64 => -0x8000_0000_0000_0000 <= n < 0x8000_0000_0000_0000
    case UInt64 => 0 <= n < 0x1_0000_0000_0000_0000
    case Float32 | Float64 | Float128 => true
  }

  predicate IsFloat(p: Prim) {
    p.Float32? || p.Float64? || p.Float128?
  }

  /** Union labels are kept as int64, so a discriminator is compared after that conversion. */
  function AsInt64(d: int): int {
    if d >= 0x8000_0000_0000_0000 then d - 0x1_0000_0000_0000_0000 else d
  }

  predicate InInt64(n: int) {
    -0x8000_0000_0000_0000 <= n < 0x8000_0000_0000_0000
  }

  /** The position of the member called `name`; the number of members when there is none. */
  function MemberNamed(ms: seq<Member>, name: string): (k: nat)
    ensures k <= |ms| && (k < |ms| ==> ms[k].name == name)
    ensures forall i | 0 <= i < k :: ms[i].name != name
  {
    if ms == [] || ms[0].name == name then 0 else 1 + MemberNamed(ms[1..], name)
  }

  function CaseNamed(cs: seq<Case>, name: string): (k: nat)
    ensures k <= |cs| && (k < |cs| ==> cs[k].name == name)
    ensures forall i | 0 <= i < k :: cs[i].name != name
  {
    if cs == [] || cs[0].name == name then 0 else 1 + CaseNamed(cs[1..], name)
  }

  /** The index of the case holding label `l`; the number of cases when there is none. */
  function LabelledCase(cases: seq<Case>, l: int): (k: nat)
    ensures k <= |cases|
    ensures k < |cases| ==> l in cases[k].labels
    ensures forall i | 0 <= i < k :: l !in cases[i].labels
  {
    if cases == [] || l in cases[0].labels then 0 else 1 + LabelledCase(cases[1..], l)
  }

  function DefaultCase(cases: seq<Case>): (k: nat)
    ensures k <= |cases|
    ensures k < |cases| ==> cases[k].isDefault
    ensures forall i | 0 <= i < k :: !cases[i].isDefault
  {
    if cases == [] || cases[0].isDefault then 0 else 1 + DefaultCase(cases[1..])
  }

  /** The case a discriminator value selects; the number of cases when it selects none. */
  function ActiveCase(cases: seq<Case>, d: int): (k: nat)
    ensures k <= |cases|
  {
    var k := LabelledCase(cases, AsInt64(d));
    if k < |cases| then k else DefaultCase(cases)
  }

  /** The discriminator xTypes gives a union when case `k` is selected by name. */
  function CaseDiscriminator(t: XType, k: nat): int
    requires t.Union? && k < |t.cases|
  {
    if |t.cases[k].labels| > 0 then FromLabel(t.disc, t.cases[k].labels[0]) else t.spare
  }

  /** A label back in the discriminator's own type: unsigned 64-bit labels are kept negated. */
  function FromLabel(disc: XType, l: int): int {
    if Resolve(disc) == Scalar(UInt64) && l < 0 then l + 0x1_0000_0000_0000_0000 else l
  }

  predicate WellTyped(t: XType, v: Value) {
    match t
    case Scalar(p) => v.Num? && InRange(p, v.n)
    case Str(_, bound) => v.Text? && (bound == 0 || |v.chars| <= bound)
    case Enum(_, es) => v.Num? && v.n in es
    case Alias(_, target) => WellTyped(target, v)
    case Array(content, dim) =>
      v.Items? && |v.elems| == dim && forall e | e in v.elems :: WellTyped(content, e)
    case Seq(content, bound) =>
      v.Items? && (bound == 0 || |v.elems| <= bound) && forall e | e in v.elems :: WellTyped(content, e)
    case Map(key, value, bound) =>
      v.Entries? && (bound == 0 || |v.pairs| <= bound) &&
      (forall e | e in v.pairs :: WellTyped(key, e.key) && WellTyped(value, e.value)) &&
      forall i, j | 0 <= i < j < |v.pairs| :: v.pairs[i].key != v.pairs[j].key
    case Struct(_, ms) =>
      v.Fields? && |v.vals| == |ms| && forall i | 0 <= i < |ms| :: WellTyped(ms[i].typ, v.vals[i])
    case Union(_, disc, _, cases) =>
      v.Choice? && WellTyped(disc, Num(v.disc)) && ActiveCase(cases, v.disc) < |cases| &&
      WellTyped(cases[ActiveCase(cases, v.disc)].typ, v.payload)
  }

  /** An alias has the values of the type behind it. */
  lemma {:induction false} ResolveKeepsValues(t: XType, v: Value)
    ensures WellTyped(t, v) <==> WellTyped(Resolve(t), v)
  {
    if t.Alias? {
      ResolveKeepsValues(t.target, v);
    }
  }

  // ---------------------------------------------------------------------------------------------
  // The types the bridge handles

  predicate IsDiscriminator(t: XType) {
    var r := Resolve(t);
    (r.Scalar? && !IsFloat(r.prim)) || (r.Enum? && forall e | e in r.enumerators :: e < 0x1_0000_0000)
  }

  /** Map keys are primitives other than int8, strings or enumerations, possibly through aliases. */
  predicate IsKey(t: XType) {
    IsScalarKind(Resolve(t)) && Resolve(t) != Scalar(Int8)
  }

  predicate DistinctNames(ms: seq<Member>) {
    forall i, j | 0 <= i < j < |ms| :: ms[i].name != ms[j].name
  }

  /** Names and labels tell the cases apart, and a discriminator can be made for every case. */
  predicate GoodCases(t: XType)
    requires t.Union?
  {
    var cs := t.cases;
    && (forall i, j | 0 <= i < j < |cs| :: cs[i].name != cs[j].name)
    && (forall i, j, l | 0 <= i < j < |cs| && l in cs[i].labels :: l !in cs[j].labels)
    && (forall i, l | 0 <= i < |cs| && l in cs[i].labels :: InInt64(l) && WellTyped(t.disc, Num(FromLabel(t.disc, l))))
    && (forall i, j | 0 <= i < j < |cs| :: !(cs[i].isDefault && cs[j].isDefault))
    && (forall i | 0 <= i < |cs| && cs[i].labels == [] :: cs[i].isDefault &&
          WellTyped(t.disc, Num(t.spare)) && LabelledCase(cs, AsInt64(t.spare)) == |cs|)
  }

  predicate Supported(t: XType) {
    match t
    case Scalar(_) => true
    case Str(_, _) => true
    case Enum(_, es) => forall e | e in es :: e < 0x1_0000_0000
    case Alias(_, target) => Supported(target)
    case Array(content, _) => Supported(content) && (content.Alias? ==> !Resolve(content).Array?)
    case Seq(content, _) => Supported(content)
    case Map(key, value, _) => Supported(key) && Supported(value) && IsKey(key) && Resolve(value) != Scalar(Int8)
    case Struct(_, ms) => DistinctNames(ms) && forall m | m in ms :: Supported(m.typ)
    case Union(_, disc, _, cases) =>
      Supported(disc) && IsDiscriminator(disc) && GoodCases(t) &&
      forall c | c in cases :: Supported(c.typ) && Resolve(c.typ) != Scalar(Int8)
  }
}
