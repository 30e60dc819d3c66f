/** The Fast DDS side of the bridge: dynamic types, and the buffers that hold their data. */
module Dds {
  import opened Flattening

  datatype Kind =
    | TkBoolean | TkByte | TkInt16 | TkInt32 | TkInt64 | TkUInt16 | TkUInt32 | TkUInt64
    | TkFloat32 | TkFloat64 | TkFloat128 | TkChar8 | TkChar16

  datatype DMember = DMember(name: string, typ: DType)

  datatype DCase = DCase(name: string, typ: DType, labels: seq<int>, isDefault: bool)

  datatype DType =
    | Basic(kind: Kind)
    | DString(wide: bool, bound: nat)
    | DEnum(enumerators: seq<nat>)
    | DArray(dims: seq<nat>, content: DType)
    | DSeq(content: DType, bound: nat)
    | DMap(key: DType, value: DType, bound: nat)
    | DStruct(members: seq<DMember>)
    | DUnion(disc: DType, cases: seq<DCase>)

  /**
   The data a buffer holds. A map keeps key i in slot 2i and its value in slot 2i + 1. A union
   keeps data for every member, whichever is selected; `unionId` is -1 when none is.
   */
  datatype DData =
    | Slot(n: int)
    | TextSlot(chars: seq<int>)
    | Cells(cells: seq<DData>)
    | SeqData(elems: seq<DData>)
    | MapData(slots: seq<DData>)
    | StructData(fields: seq<DData>)
    | UnionData(disc: int, unionId: int, members: seq<DData>)

  const INVALID_ID := -1

  predicate InSlot(k: Kind, n: int) {
    match k
    case TkBoolean => 0 <= n <= 1
    case TkByte => 0 <= n < 0x100
    case TkChar8 => -0x80 <= n < 0x80
    case TkChar16 => -0x8000_0000 <= n < 0x8000_0000
    case TkInt16 => -0x8000 <= n < 0x8000
    case TkUInt16 => 0 <= n < 0x1_0000
    case TkInt32 => -0x8000_0000 <= n < 0x8000_0000
    case TkUInt32 => 0 <= n < 0x1_0000_0000
    case TkInt64 => -0x8000_0000_0000_0000 <= n < 0x8000_0000_0000_0000
    case TkUInt64 => 0 <= n < 0x1_0000_0000_0000_0000
    case TkFloat32 | TkFloat64 | TkFloat128 => true
  }

  /** `d` is data a buffer of type `t` can hold. */
  predicate Conforms(t: DType, d: DData) {
    match t
    case Basic(k) => d.Slot? && InSlot(k, d.n)
    case DString(_, bound) => d.TextSlot? && (bound == 0 || |d.chars| <= bound)
    case DEnum(_) => d.Slot? && 0 <= d.n < 0x1_0000_0000
    case DArray(dims, content) => d.Cells? && |d.cells| == Product(dims) && forall c | c in d.cells :: Conforms(content, c)
    case DSeq(content, bound) =>
      d.SeqData? && (bound == 0 || |d.elems| <= bound) && forall e | e in d.elems :: Conforms(content, e)
    case DMap(key, value, bound) =>
      d.MapData? && |d.slots| % 2 == 0 && (bound == 0 || |d.slots| <= 2 * bound) &&
      (forall i | 0 <= i < |d.slots| :: Conforms(if i % 2 == 0 then key else value, d.slots[i])) &&
      forall i, j | 0 <= i < j < |d.slots| && i % 2 == 0 && j % 2 == 0 :: d.slots[i] != d.slots[j]
    case DStruct(ms) =>
      d.StructData? && |d.fields| == |ms| && forall i | 0 <= i < |ms| :: Conforms(ms[i].typ, d.fields[i])
    case DUnion(_, cs) =>
      d.UnionData? && 0 <= d.disc < 0x1_0000_0000_0000_0000 && INVALID_ID <= d.unionId < |cs| &&
      |d.members| == |cs| && forall i | 0 <= i < |cs| :: Conforms(cs[i].typ, d.members[i])
  }

  /** The data of a newly created buffer. */
  function Fresh(t: DType): (d: DData)
    ensures Conforms(t, d)
  {
    match t
    case Basic(_) => Slot(0)
    case DString(_, _) => TextSlot([])
    case DEnum(_) => Slot(0)
    case DArray(dims, content) => Cells(seq(Product(dims), _ => Fresh(content)))
    case DSeq(_, _) => SeqData([])
    case DMap(_, _, _) => MapData([])
    case DStruct(ms) => StructData(seq(|ms|, i requires 0 <= i < |ms| => Fresh(ms[i].typ)))
    case DUnion(_, cs) => UnionData(0, INVALID_ID, seq(|cs|, i requires 0 <= i < |cs| => Fresh(cs[i].typ)))
  }

  /** What is left of the data when the members that a union does not select are disregarded. */
  function Visible(d: DData): DData {
    match d
    case Slot(_) | TextSlot(_) => d
    case Cells(cs) => Cells(seq(|cs|, i requires 0 <= i < |cs| => Visible(cs[i])))
    case SeqData(es) => SeqData(seq(|es|, i requires 0 <= i < |es| => Visible(es[i])))
    case MapData(ss) => MapData(seq(|ss|, i requires 0 <= i < |ss| => Visible(ss[i])))
    case StructData(fs) => StructData(seq(|fs|, i requires 0 <= i < |fs| => Visible(fs[i])))
    case UnionData(disc, id, ms) =>
      UnionData(disc, id, if 0 <= id < |ms| then [Visible(ms[id])] else [])
  }

  // ---------------------------------------------------------------------------------------------
  // Names, labels and parts

  /** The position of the member called `name`; the number of members when there is none. */
  function MemberNamed(ms: seq<DMember>, name: string): (k: nat)
    ensures k <= |ms|
    ensures k < |ms| ==> ms[k].name == name
    ensures forall i | 0 <= i < k :: ms[i].name != name
  {
    if ms == [] || ms[0].name == name then 0 else 1 + MemberNamed(ms[1..], name)
  }

  function CaseNamed(cs: seq<DCase>, name: string): (k: nat)
    ensures k <= |cs|
    ensures k < |cs| ==> cs[k].name == name
    ensures forall i | 0 <= i < k :: cs[i].name != name
  {
    if cs == [] || cs[0].name == name then 0 else 1 + CaseNamed(cs[1..], name)
  }

  function LabelledCase(cs: seq<DCase>, l: int): (k: nat)
    ensures k <= |cs|
    ensures k < |cs| ==> l in cs[k].labels
    ensures forall i | 0 <= i < k :: l !in cs[i].labels
  {
    if cs == [] || l in cs[0].labels then 0 else 1 + LabelledCase(cs[1..], l)
  }

  function DefaultCase(cs: seq<DCase>): (k: nat)
    ensures k <= |cs|
    ensures k < |cs| ==> cs[k].isDefault
    ensures forall i | 0 <= i < k :: !cs[i].isDefault
  {
    if cs == [] || cs[0].isDefault then 0 else 1 + DefaultCase(cs[1..])
  }

  /** The member a discriminator value selects, or INVALID_ID. */
  function SelectedId(cs: seq<DCase>, d: int): (id: int)
    ensures INVALID_ID <= id < |cs|
  {
    var k := LabelledCase(cs, d);
    var m := if k < |cs| then k else DefaultCase(cs);
    if m < |cs| then m else INVALID_ID
  }

  /** How many parts can be addressed by id: array cells, elements, slots, fields, union members. */
  function PartCount(d: DData): nat {
    match d
    case Slot(_) | TextSlot(_) => 0
    case Cells(cs) => |cs|
    case SeqData(es) => |es|
    case MapData(ss) => |ss|
    case StructData(fs) => |fs|
    case UnionData(_, _, ms) => |ms|
  }

  function Part(d: DData, id: nat): DData
    requires id < PartCount(d)
  {
    match d
    case Cells(cs) => cs[id]
    case SeqData(es) => es[id]
    case MapData(ss) => ss[id]
    case StructData(fs) => fs[id]
    case UnionData(_, _, ms) => ms[id]
  }

  function WithPart(d: DData, id: nat, part: DData): DData
    requires id < PartCount(d)
  {
    match d
    case Cells(cs) => Cells(cs[id := part])
    case SeqData(es) => SeqData(es[id := part])
    case MapData(ss) => MapData(ss[id := part])
    case StructData(fs) => StructData(fs[id := part])
    case UnionData(disc, u, ms) => UnionData(disc, u, ms[id := part])
  }

  /** The type of the part with that id. */
  function PartType(t: DType, d: DData, id: nat): DType
    requires Conforms(t, d) && id < PartCount(d)
  {
    match t
    case DArray(_, content) => content
    case DSeq(content, _) => content
    case DMap(key, value, _) => if id % 2 == 0 then key else value
    case DStruct(ms) => ms[id].typ
    case DUnion(_, cs) => cs[id].typ
  }

  function PartAt(d: DData, id: int): DData
    requires id == INVALID_ID || 0 <= id < PartCount(d)
  {
    if id == INVALID_ID then d else Part(d, id)
  }

  function WithPartAt(d: DData, id: int, part: DData): DData
    requires id == INVALID_ID || 0 <= id < PartCount(d)
  {
    if id == INVALID_ID then part else WithPart(d, id, part)
  }
}
