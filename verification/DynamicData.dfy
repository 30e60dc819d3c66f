/**
 The buffer class of Fast DDS, as far as the bridge uses it. Every accessor checks the kind of the
 part it addresses and reports failure, leaving the buffer alone, when it is not the one meant.
 */
module DynamicDataBuffer {
  import opened Flattening
  import opened Dds

  /** The typed accessors. The three 8-bit integer ones share the byte slot. */
  datatype Accessor =
    | AsBool | AsChar8 | AsChar16 | AsByte | AsUInt8 | AsInt8 | AsInt16 | AsUInt16
    | AsInt32 | AsUInt32 | AsInt64 | AsUInt64 | AsFloat32 | AsFloat64 | AsFloat128

  function AccessorKind(a: Accessor): Kind {
    match a
    case AsBool => TkBoolean
    case AsChar8 => TkChar8
    case AsChar16 => TkChar16
    case AsByte | AsUInt8 | AsInt8 => TkByte
    case AsInt16 => TkInt16
    case AsUInt16 => TkUInt16
    case AsInt32 => TkInt32
    case AsUInt32 => TkUInt32
    case AsInt64 => TkInt64
    case AsUInt64 => TkUInt64
    case AsFloat32 => TkFloat32
    case AsFloat64 => TkFloat64
    case AsFloat128 => TkFloat128
  }

  /** The slot contents an accessor stores for a number of its C++ type. */
  function Stored(a: Accessor, n: int): int {
    if a.AsInt8? && n < 0 then n + 0x100 else n
  }

  /** The number an accessor makes of the slot contents. */
  function Fetched(a: Accessor, n: int): int {
    if a.AsInt8? && n >= 0x80 then n - 0x100 else n
  }

  lemma WithPartConforms(t: DType, d: DData, id: nat, part: DData)
    requires Conforms(t, d) && id < PartCount(d) && !t.DMap?
    requires Conforms(PartType(t, d, id), part)
    ensures Conforms(t, WithPart(d, id, part))
    ensures PartCount(WithPart(d, id, part)) == PartCount(d)
    ensures PartType(t, WithPart(d, id, part), id) == PartType(t, d, id)
  {
  }

  /** The address is a part of an array, sequence, struct or union, or the whole of a buffer. */
  predicate Settable(t: DType, d: DData, id: int)
    requires Conforms(t, d)
  {
    id == INVALID_ID || (0 <= id < PartCount(d) && !t.DMap?)
  }

  function TypeAt(t: DType, d: DData, id: int): DType
    requires Conforms(t, d) && (id == INVALID_ID || 0 <= id < PartCount(d))
  {
    if id == INVALID_ID then t else PartType(t, d, id)
  }

  class DynamicData {
    const typ: DType
    const loanedAs: int  // the id under which this data was loaned, or INVALID_ID
    var data: DData

    ghost predicate Valid()
      reads this
    {
      Conforms(typ, data)
    }

    constructor (typ: DType)
      ensures this.typ == typ && Valid() && data == Fresh(typ)
    {
      this.typ, this.loanedAs, this.data := typ, INVALID_ID, Fresh(typ);
    }

    constructor Loan(typ: DType, id: int, data: DData)
      ensures this.typ == typ && this.loanedAs == id && this.data == data
    {
      this.typ, this.loanedAs, this.data := typ, id, data;
    }

    method SetPart(id: int, part: DData)
      requires Valid() && Settable(typ, data, id) && Conforms(TypeAt(typ, data, id), part)
      modifies this
      ensures Valid() && data == WithPartAt(old(data), id, part)
    {
      if id == INVALID_ID {
        data := part;
      } else {
        WithPartConforms(typ, data, id, part);
        data := WithPart(data, id, part);
      }
    }

    method SetNumber(a: Accessor, n: int, id: int) returns (ok: bool)
      requires Valid() && InSlot(AccessorKind(a), Stored(a, n))
      modifies this
      ensures Valid()
      ensures ok <==> Settable(typ, old(data), id) && TypeAt(typ, old(data), id) == Basic(AccessorKind(a))
      ensures data == if ok then WithPartAt(old(data), id, Slot(Stored(a, n))) else old(data)
    {
      ok := Settable(typ, data, id) && TypeAt(typ, data, id) == Basic(AccessorKind(a));
      if ok {
        SetPart(id, Slot(Stored(a, n)));
      }
    }

    method SetString(wide: bool, chars: seq<int>, id: int) returns (ok: bool)
      requires Valid()
      modifies this
      ensures Valid()
      ensures ok <==> Settable(typ, old(data), id) && TypeAt(typ, old(data), id).DString? &&
                      var s := TypeAt(typ, old(data), id); s.wide == wide && (s.bound == 0 || |chars| <= s.bound)
      ensures data == if ok then WithPartAt(old(data), id, TextSlot(chars)) else old(data)
    {
      ok := Settable(typ, data, id) && TypeAt(typ, data, id).DString? &&
            var s := TypeAt(typ, data, id); s.wide == wide && (s.bound == 0 || |chars| <= s.bound);
      if ok {
        SetPart(id, TextSlot(chars));
      }
    }

    method SetEnum(n: int, id: int) returns (ok: bool)
      requires Valid() && 0 <= n < 0x1_0000_0000
      modifies this
      ensures Valid()
      ensures ok <==> Settable(typ, old(data), id) && TypeAt(typ, old(data), id).DEnum?
      ensures data == if ok then WithPartAt(old(data), id, Slot(n)) else old(data)
    {
      ok := Settable(typ, data, id) && TypeAt(typ, data, id).DEnum?;
      if ok {
        SetPart(id, Slot(n));
      }
    }

    /** Stores the word and selects the member it labels. */
    method SetDiscriminator(word: int)
      requires Valid() && typ.DUnion? && 0 <= word < 0x1_0000_0000_0000_0000
      modifies this
      ensures Valid() && data == UnionData(word, SelectedId(typ.cases, word), old(data).members)
    {
      data := UnionData(word, SelectedId(typ.cases, word), data.members);
    }

    method ClearAllValues()
      requires Valid() && (typ.DSeq? || typ.DMap?)
      modifies this
      ensures Valid() && data == Fresh(typ)
    {
      data := Fresh(typ);
    }

    /** Appends an element, unless the bound is reached. */
    method InsertSequenceData() returns (id: int)
      requires Valid() && typ.DSeq?
      modifies this
      ensures Valid()
      ensures if typ.bound == 0 || |old(data).elems| < typ.bound
              then id == |old(data).elems| && data == SeqData(old(data).elems + [Fresh(typ.content)])
              else id == INVALID_ID && data == old(data)
    {
      if typ.bound == 0 || |data.elems| < typ.bound {
        id := |data.elems|;
        data := SeqData(data.elems + [Fresh(typ.content)]);
      } else {
        id := INVALID_ID;
      }
    }

    predicate HasKey(key: DData)
      requires Valid() && typ.DMap?
      reads this
    {
      exists i | 0 <= i < |data.slots| && i % 2 == 0 :: data.slots[i] == key
    }

    /** Appends a pair, unless the bound is reached or the key is there already. */
    method InsertMapData(key: DynamicData, value: DynamicData) returns (ok: bool)
      requires Valid() && typ.DMap? && key != this && value != this
      requires key.Valid() && value.Valid() && key.typ == typ.key && value.typ == typ.value
      modifies this
      ensures Valid()
      ensures ok <==> (typ.bound == 0 || |old(data).slots| < 2 * typ.bound) && !old(HasKey(key.data))
      ensures data == if ok then MapData(old(data).slots + [key.data, value.data]) else old(data)
    {
      ok := (typ.bound == 0 || |data.slots| < 2 * typ.bound) && !HasKey(key.data);
      if ok {
        ghost var before := data.slots;
        data := MapData(data.slots + [key.data, value.data]);
        assert forall i | 0 <= i < |data.slots| && i % 2 == 0 :: i < |before| || i == |before|;
      }
    }

    method LoanValue(id: int) returns (loan: DynamicData)
      requires Valid() && 0 <= id < PartCount(data)
      ensures fresh(loan) && loan.Valid() && loan.loanedAs == id
      ensures loan.typ == PartType(typ, data, id) && loan.data == Part(data, id)
    {
      assert Conforms(PartType(typ, data, id), Part(data, id));
      loan := new DynamicData.Loan(PartType(typ, data, id), id, Part(data, id));
    }

    method ReturnLoanedValue(loan: DynamicData)
      requires Valid() && loan != this && loan.Valid() && !typ.DMap?
      requires 0 <= loan.loanedAs < PartCount(data) && loan.typ == PartType(typ, data, loan.loanedAs)
      modifies this
      ensures Valid() && data == WithPart(old(data), loan.loanedAs, loan.data)
    {
      SetPart(loan.loanedAs, loan.data);
    }

    method SetComplexValue(value: DynamicData, id: int) returns (ok: bool)
      requires Valid() && value != this && value.Valid()
      modifies this
      ensures Valid()
      ensures ok <==> 0 <= id < PartCount(old(data)) && !typ.DMap? && PartType(typ, old(data), id) == value.typ
      ensures data == if ok then WithPart(old(data), id, value.data) else old(data)
    {
      ok := 0 <= id < PartCount(data) && !typ.DMap? && PartType(typ, data, id) == value.typ;
      if ok {
        SetPart(id, value.data);
      }
    }

    /** The flat index of an index vector; INVALID_ID when its length or an entry is out of range. */
    function GetArrayIndex(indexes: seq<nat>): (id: int)
      requires typ.DArray?
    {
      if |indexes| == |typ.dims| && InBounds(typ.dims, indexes) then Offset(typ.dims, indexes) else INVALID_ID
    }

    function GetMemberIdByName(name: string): (id: int)
      requires typ.DStruct? || typ.DUnion?
    {
      if typ.DStruct? then
        if MemberNamed(typ.members, name) < |typ.members| then MemberNamed(typ.members, name) else INVALID_ID
      else
        if CaseNamed(typ.cases, name) < |typ.cases| then CaseNamed(typ.cases, name) else INVALID_ID
    }

    /** The number in an addressed slot, when the accessor fits it. */
    method GetNumber(a: Accessor, id: int) returns (ok: bool, n: int)
      requires Valid()
      ensures ok <==> (id == INVALID_ID || 0 <= id < PartCount(data)) && TypeAt(typ, data, id) == Basic(AccessorKind(a))
      ensures ok ==> PartAt(data, id).Slot? && n == Fetched(a, PartAt(data, id).n)
    {
      ok := (id == INVALID_ID || 0 <= id < PartCount(data)) && TypeAt(typ, data, id) == Basic(AccessorKind(a));
      n := 0;
      if ok {
        assert Conforms(TypeAt(typ, data, id), PartAt(data, id));
        n := Fetched(a, PartAt(data, id).n);
      }
    }

    method GetString(wide: bool, id: int) returns (ok: bool, chars: seq<int>)
      requires Valid()
      ensures ok <==> (id == INVALID_ID || 0 <= id < PartCount(data)) && TypeAt(typ, data, id).DString? &&
                      TypeAt(typ, data, id).wide == wide
      ensures ok ==> PartAt(data, id) == TextSlot(chars)
    {
      ok := (id == INVALID_ID || 0 <= id < PartCount(data)) && TypeAt(typ, data, id).DString? &&
            TypeAt(typ, data, id).wide == wide;
      chars := [];
      if ok {
        assert Conforms(TypeAt(typ, data, id), PartAt(data, id));
        chars := PartAt(data, id).chars;
      }
    }

    method GetEnum(id: int) returns (ok: bool, n: int)
      requires Valid()
      ensures ok <==> (id == INVALID_ID || 0 <= id < PartCount(data)) && TypeAt(typ, data, id).DEnum?
      ensures ok ==> PartAt(data, id) == Slot(n)
    {
      ok := (id == INVALID_ID || 0 <= id < PartCount(data)) && TypeAt(typ, data, id).DEnum?;
      n := 0;
      if ok {
        assert Conforms(TypeAt(typ, data, id), PartAt(data, id));
        n := PartAt(data, id).n;
      }
    }
  }
}
