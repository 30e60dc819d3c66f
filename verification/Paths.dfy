/** Dotted paths into types and into data, and the two walkers that follow them. */
module Paths {
  import opened Options
  import opened Strings
  import X = XTypes
  import opened Compiler
  import T = Translation

  /** The name of a type. Those of collections and primitives, which xTypes makes up, are stand-ins. */
  function Name(t: X.XType): string {
    match t
    case Scalar(p) => PrimName(p)
    case Str(wide, _) => if wide then "std::wstring" else "std::string"
    case Enum(name, _) => name
    case Alias(name, _) => name
    case Array(content, _) => "array_" + Name(content)
    case Seq(content, _) => "sequence_" + Name(content)
    case Map(key, value, _) => "map_" + Name(key) + "_" + Name(value)
    case Struct(name, _) => name
    case Union(name, _, _, _) => name
  }

  function PrimName(p: X.Prim): string {
    match p
    case Bool => "bool"
    case Char8 => "char"
    case Char16 => "char16_t"
    case WChar => "wchar_t"
    case UInt8 => "uint8_t"
    case Int8 => "int8_t"
    case Int16 => "int16_t"
    case UInt16 => "uint16_t"
    case Int32 => "int32_t"
    case UInt32 => "uint32_t"
    case Int64 => "int64_t"
    case UInt64 => "uint64_t"
    case Float32 => "float"
    case Float64 => "double"
    case Float128 => "long double"
  }

  // An alias of an aggregation is not one.
  predicate IsAggregation(t: X.XType) {
    t.Struct? || t.Union?
  }

  /** The position of a member of an aggregation; past the end when there is none of that name. */
  function MemberAt(t: X.XType, name: string): (k: nat)
    requires IsAggregation(t)
  {
    if t.Struct? then X.MemberNamed(t.members, name) else X.CaseNamed(t.cases, name)
  }

  function MemberCount(t: X.XType): nat
    requires IsAggregation(t)
  {
    if t.Struct? then |t.members| else |t.cases|
  }

  /** The type of the member of that name, if `t` is an aggregation that has one. */
  function MemberType(t: X.XType, name: string): (m: Option<X.XType>)
    ensures m.Some? ==> m.value < t
  {
    if !IsAggregation(t) || MemberAt(t, name) >= MemberCount(t) then None
    else if t.Struct? then
      assert t.members[MemberAt(t, name)] in t.members;
      Some(t.members[MemberAt(t, name)].typ)
    else
      assert t.cases[MemberAt(t, name)] in t.cases;
      Some(t.cases[MemberAt(t, name)].typ)
  }

  function MemberName(t: X.XType, i: nat): string
    requires IsAggregation(t) && i < MemberCount(t)
  {
    if t.Struct? then t.members[i].name else t.cases[i].name
  }

  /** The type member `i` is declared with. */
  function Declared(t: X.XType, i: nat): (m: X.XType)
    requires IsAggregation(t) && i < MemberCount(t)
    ensures m < t
  {
    if t.Struct? then assert t.members[i] in t.members; t.members[i].typ
    else assert t.cases[i] in t.cases; t.cases[i].typ
  }

  /** Member `i` is the one of that name, the first if there are more. */
  predicate IsMember(t: X.XType, name: string, i: int) {
    && IsAggregation(t) && 0 <= i < MemberCount(t) && MemberName(t, i) == name
    && forall j | 0 <= j < i :: MemberName(t, j) != name
  }

  predicate DistinctMembers(t: X.XType) {
    IsAggregation(t) ==> forall i, j | 0 <= i < j < MemberCount(t) :: MemberName(t, i) != MemberName(t, j)
  }

  /** A member is found under its own name, and nothing under a name that no member has. */
  lemma MembersByName(t: X.XType, name: string)
    ensures forall i | IsMember(t, name, i) :: MemberAt(t, name) == i && MemberType(t, name) == Some(Declared(t, i))
    ensures MemberType(t, name).None? <==>
              !IsAggregation(t) || forall i | 0 <= i < MemberCount(t) :: MemberName(t, i) != name
    ensures MemberType(t, name).Some? ==> IsMember(t, name, MemberAt(t, name))
  {
    if MemberType(t, name).Some? {
      assert MemberName(t, MemberAt(t, name)) == name;
    }
  }

  /** With distinct names, each member is the one of its name. */
  lemma MemberOfItsName(t: X.XType, i: nat)
    requires IsAggregation(t) && DistinctMembers(t) && i < MemberCount(t)
    ensures IsMember(t, MemberName(t, i), i)
    ensures MemberAt(t, MemberName(t, i)) == i && MemberType(t, MemberName(t, i)) == Some(Declared(t, i))
  {
    MembersByName(t, MemberName(t, i));
  }

  /** Members called so, one after the other, lead from `t` to `u`. */
  ghost predicate Leads(t: X.XType, names: seq<string>, u: X.XType)
    decreases |names|
  {
    if names == [] then u == t
    else exists i | IsMember(t, names[0], i) :: Leads(Declared(t, i), names[1..], u)
  }

  /** The type that members named one after the other lead to. */
  function Walk(t: X.XType, names: seq<string>): Option<X.XType>
    decreases |names|
  {
    if names == [] then Some(t)
    else
      match MemberType(t, names[0])
      case None => None
      case Some(m) => Walk(m, names[1..])
  }

  lemma {:induction false} WalkExactly(t: X.XType, names: seq<string>, u: X.XType)
    ensures Walk(t, names) == Some(u) <==> Leads(t, names, u)
    decreases |names|
  {
    if names != [] {
      MembersByName(t, names[0]);
      match MemberType(t, names[0])
      case None =>
      case Some(m) => WalkExactly(m, names[1..], u);
    }
  }

  lemma {:induction false} WalkSnoc(t: X.XType, names: seq<string>, last: string)
    ensures Walk(t, names + [last]) ==
            match Walk(t, names) case None => None case Some(u) => MemberType(u, last)
    decreases |names|
  {
    if names != [] {
      assert (names + [last])[1..] == names[1..] + [last];
      match MemberType(t, names[0])
      case None =>
      case Some(m) => WalkSnoc(m, names[1..], last);
    } else {
      assert [last][1..] == [];
      assert names + [last] == [last];
    }
  }

  /** The member names of the path, as far as the type has them. */
  function LongestValid(t: X.XType, names: seq<string>): (valid: seq<string>)
    ensures |valid| <= |names| && valid == names[..|valid|]
    ensures Walk(t, valid).Some?
    decreases |names|
  {
    if names == [] then []
    else
      match MemberType(t, names[0])
      case None => []
      case Some(m) =>
        var rest := LongestValid(m, names[1..]);
        assert ([names[0]] + rest)[1..] == rest;
        [names[0]] + rest
  }

  lemma {:induction false} LongestValidWhole(t: X.XType, names: seq<string>)
    requires Walk(t, names).Some?
    ensures LongestValid(t, names) == names
    decreases |names|
  {
    if names != [] {
      LongestValidWhole(MemberType(t, names[0]).value, names[1..]);
    }
  }

  /** The tokens of a path as a line reader yields them: nothing after a final dot, or in no text. */
  function Tokens(path: string): (tokens: seq<string>)
    ensures tokens == [] <==> path == ""
    decreases |path|
  {
    if path == "" then []
    else
      var i := Find(path, '.', 0);
      if i < 0 then [path] else [path[..i]] + Tokens(path[i + 1..])
  }

  /** The part of a path up to the first dot. */
  function FirstToken(path: string): string {
    var dot := Find(path, '.', 0);
    if dot < 0 then path else path[..dot]
  }

  /** The part after it. */
  function AfterFirst(path: string): (rest: string)
    ensures path != "" ==> |rest| < |path|
  {
    var dot := Find(path, '.', 0);
    if dot < 0 then "" else path[dot + 1..]
  }

  lemma TokensParts(path: string)
    requires path != ""
    ensures Tokens(path) == [FirstToken(path)] + Tokens(AfterFirst(path))
    ensures Tokens(path)[1..] == Tokens(AfterFirst(path)) && '.' !in FirstToken(path)
  {
  }

  // ---------------------------------------------------------------------------------------------
  // Following a path in a type

  /**
   What the type walker makes of the member names: it goes on from the same type when that is not
   an aggregation, and fails (the lookup throws) when an aggregation has no such member.
   */
  function ResolveNames(t: X.XType, names: seq<string>): Option<X.XType>
    decreases |names|
  {
    if names == [] then Some(t)
    else if !IsAggregation(t) then ResolveNames(t, names[1..])
    else
      match MemberType(t, names[0])
      case None => None
      case Some(m) => ResolveNames(m, names[1..])
  }

  lemma SplitAtDot(path: string)
    requires Find(path, '.', 0) >= 0
    ensures Split(path) == [path[..Find(path, '.', 0)]] + Split(path[Find(path, '.', 0) + 1..])
  {
  }

  lemma HeadAndTail(first: string, rest: seq<string>)
    ensures ([first] + rest)[0] == first && ([first] + rest)[1..] == rest
  {
  }

  lemma UndottedParts(path: string)
    requires Find(path, '.', 0) < 0
    ensures Split(path)[0] == FirstToken(path) && Split(path)[1..] == []
  {
  }

  lemma DottedParts(path: string)
    requires Find(path, '.', 0) >= 0
    ensures Split(path)[0] == FirstToken(path)
    ensures Split(path)[1..] == Split(path[Find(path, '.', 0) + 1..])
  {
    SplitAtDot(path);
    HeadAndTail(path[..Find(path, '.', 0)], Split(path[Find(path, '.', 0) + 1..]));
  }

  lemma SplitParts(path: string)
    ensures Split(path)[0] == FirstToken(path)
    ensures Split(path)[1..] == if Find(path, '.', 0) < 0 then [] else Split(path[Find(path, '.', 0) + 1..])
  {
    if Find(path, '.', 0) >= 0 {
      DottedParts(path);
    } else {
      UndottedParts(path);
    }
  }

  /** One turn of the type walker. */
  lemma ResolveStep(t: X.XType, names: seq<string>)
    requires names != []
    ensures ResolveNames(t, names) ==
            if !IsAggregation(t) then ResolveNames(t, names[1..])
            else match MemberType(t, names[0]) case None => None case Some(m) => ResolveNames(m, names[1..])
  {
  }

  /** Wherever the names lead, the type walker goes. */
  lemma {:induction false} LeadsIsResolved(t: X.XType, names: seq<string>, u: X.XType)
    requires Leads(t, names, u)
    ensures ResolveNames(t, names) == Some(u)
    decreases |names|
  {
    if names != [] {
      MembersByName(t, names[0]);
      var i :| IsMember(t, names[0], i) && Leads(Declared(t, i), names[1..], u);
      LeadsIsResolved(Declared(t, i), names[1..], u);
    }
  }

  /** The tokens of a path of two names. */
  lemma TwoTokens(first: string, second: string)
    requires '.' !in first && '.' !in second
    ensures Split(first + "." + second) == [first, second]
    ensures second != "" ==> Tokens(first + "." + second) == [first, second]
  {
    var path := first + "." + second;
    FindFirst(first, second);
    assert path[..|first|] == first && path[|first| + 1..] == second;
    assert Split(second) == [second];
  }

  /** In particular a path of a type and a member leads to the type of that member. */
  lemma MemberIsResolved(t: X.XType, root: string, i: nat)
    requires IsAggregation(t) && DistinctMembers(t) && i < MemberCount(t)
    requires '.' !in root && '.' !in MemberName(t, i)
    ensures var names := Split(root + "." + MemberName(t, i))[1..];
            Leads(t, names, Declared(t, i)) && ResolveNames(t, names) == Some(Declared(t, i))
  {
    var names: seq<string> := [MemberName(t, i)];
    TwoTokens(root, MemberName(t, i));
    assert Split(root + "." + MemberName(t, i))[1..] == names;
    MemberOfItsName(t, i);
    assert names[1..] == [];
    assert Leads(Declared(t, i), names[1..], Declared(t, i));
    LeadsIsResolved(t, names, Declared(t, i));
  }

  method ResolveDiscriminatorType(serviceType: X.XType, discriminator: string) returns (r: Option<X.XType>)
    ensures r == ResolveNames(serviceType, Split(discriminator)[1..])
    ensures forall u | Leads(serviceType, Split(discriminator)[1..], u) :: r == Some(u)
  {
    forall u | Leads(serviceType, Split(discriminator)[1..], u)
      ensures ResolveNames(serviceType, Split(discriminator)[1..]) == Some(u)
    {
      LeadsIsResolved(serviceType, Split(discriminator)[1..], u);
    }
    SplitParts(discriminator);
    if Find(discriminator, '.', 0) < 0 {
      return Some(serviceType);
    }
    ghost var goal := ResolveNames(serviceType, Split(discriminator)[1..]);
    var path := discriminator;
    var current := serviceType;
    while Find(path, '.', 0) >= 0
      invariant goal == ResolveNames(current, Split(path)[1..])
      decreases |path|
    {
      SplitParts(path);
      path := path[Find(path, '.', 0) + 1..];
      SplitParts(path);
      ResolveStep(current, Split(path));
      var member := FirstToken(path);
      if IsAggregation(current) {
        var m := MemberType(current, member);
        if m.None? {
          return None;
        }
        current := m.value;
      }
    }
    SplitParts(path);
    r := Some(current);
  }

  /**
   The type walker takes exactly the paths that are valid, or whose longest valid part ends in
   something without members; it ends where that part does.
   */
  lemma {:induction false} ResolveExactly(t: X.XType, names: seq<string>)
    ensures var last := Walk(t, LongestValid(t, names)).value;
            ResolveNames(t, names) == if LongestValid(t, names) == names || !IsAggregation(last) then Some(last) else None
    decreases |names|
  {
    if names == [] {
    } else if MemberType(t, names[0]).Some? {
      var m := MemberType(t, names[0]).value;
      ResolveExactly(m, names[1..]);
      var rest := LongestValid(m, names[1..]);
      assert LongestValid(t, names) == [names[0]] + rest && ([names[0]] + rest)[1..] == rest;
      assert LongestValid(t, names) == names <==> rest == names[1..];
    } else if !IsAggregation(t) {
      ResolveStays(t, names);
    }
  }

  /** From a type without members the type walker does not move. */
  lemma {:induction false} ResolveStays(t: X.XType, names: seq<string>)
    requires !IsAggregation(t)
    ensures ResolveNames(t, names) == Some(t)
    decreases |names|
  {
    if names != [] {
      ResolveStays(t, names[1..]);
    }
  }

  // ---------------------------------------------------------------------------------------------
  // Following a path in data

  /** Data, under the type it gives itself: never an alias, but the type behind it. */
  datatype Located = Located(typ: X.XType, value: X.Value)

  function DataOf(t: X.XType, v: X.Value): Located {
    Located(X.Resolve(t), v)
  }

  /**
   A member of some data: of a union, the payload if it is the active case, and otherwise the case
   is selected and starts out as a default. `None` stands for the exception xTypes raises.
   */
  function MemberData(at: Located, name: string): (m: Option<Located>)
    requires X.WellTyped(at.typ, at.value)
    ensures m.Some? <==> MemberType(at.typ, name).Some?
    ensures m.Some? ==> m.value.typ == X.Resolve(MemberType(at.typ, name).value)
  {
    if MemberType(at.typ, name).None? then None
    else
      var k := MemberAt(at.typ, name);
      if at.typ.Struct? then Some(DataOf(at.typ.members[k].typ, at.value.vals[k]))
      else if X.ActiveCase(at.typ.cases, at.value.disc) == k then Some(DataOf(at.typ.cases[k].typ, at.value.payload))
      else Some(DataOf(at.typ.cases[k].typ, T.Default(at.typ.cases[k].typ)))
  }

  /** What member `i` of some data is: a field, the payload of the active case, or a new default of the case. */
  function MemberValue(at: Located, i: nat): Located
    requires X.WellTyped(at.typ, at.value) && IsAggregation(at.typ) && i < MemberCount(at.typ)
  {
    Located(X.Resolve(Declared(at.typ, i)),
            if at.typ.Struct? then at.value.vals[i]
            else if X.ActiveCase(at.typ.cases, at.value.disc) == i then at.value.payload
            else T.Default(X.Resolve(Declared(at.typ, i))))
  }

  lemma {:induction false} DefaultResolved(t: X.XType)
    ensures T.Default(t) == T.Default(X.Resolve(t))
  {
    if t.Alias? {
      DefaultResolved(t.target);
    }
  }

  /** Data is looked up by the name of a member. */
  lemma DataByName(at: Located, name: string)
    requires X.WellTyped(at.typ, at.value)
    ensures forall i | IsMember(at.typ, name, i) :: MemberData(at, name) == Some(MemberValue(at, i))
    ensures MemberData(at, name).None? <==>
              !IsAggregation(at.typ) || forall i | 0 <= i < MemberCount(at.typ) :: MemberName(at.typ, i) != name
  {
    MembersByName(at.typ, name);
    forall i | IsMember(at.typ, name, i) ensures MemberData(at, name) == Some(MemberValue(at, i)) {
      DefaultResolved(Declared(at.typ, i));
    }
  }

  lemma MemberWellTyped(at: Located, name: string)
    requires X.WellTyped(at.typ, at.value) && MemberType(at.typ, name).Some?
    requires at.typ.Union? ==> X.ActiveCase(at.typ.cases, at.value.disc) == MemberAt(at.typ, name)
    ensures X.WellTyped(MemberData(at, name).value.typ, MemberData(at, name).value.value)
  {
    X.ResolveKeepsValues(MemberType(at.typ, name).value, MemberData(at, name).value.value);
  }

  /** The value a path leads to through members that are there: every union case on it is active. */
  function Follow(at: Located, names: seq<string>): Option<Located>
    requires X.WellTyped(at.typ, at.value)
    decreases |names|
  {
    if names == [] then Some(at)
    else if MemberType(at.typ, names[0]).None? then None
    else if at.typ.Union? && X.ActiveCase(at.typ.cases, at.value.disc) != MemberAt(at.typ, names[0]) then None
    else
      MemberWellTyped(at, names[0]);
      Follow(MemberData(at, names[0]).value, names[1..])
  }

  /** Member `i` is there: a field, or the active case of a union. */
  predicate IsPresent(at: Located, i: nat)
    requires X.WellTyped(at.typ, at.value) && IsAggregation(at.typ) && i < MemberCount(at.typ)
  {
    at.typ.Union? ==> X.ActiveCase(at.typ.cases, at.value.disc) == i
  }

  lemma PresentWellTyped(at: Located, i: nat)
    requires X.WellTyped(at.typ, at.value) && IsAggregation(at.typ) && i < MemberCount(at.typ) && IsPresent(at, i)
    ensures X.WellTyped(MemberValue(at, i).typ, MemberValue(at, i).value)
  {
    X.ResolveKeepsValues(Declared(at.typ, i), MemberValue(at, i).value);
  }

  /** Members called so and present, one in the other, lead from `at` to `to`. */
  ghost predicate LeadsTo(at: Located, names: seq<string>, to: Located)
    requires X.WellTyped(at.typ, at.value)
    decreases |names|
  {
    if names == [] then to == at
    else exists i | IsMember(at.typ, names[0], i) && IsPresent(at, i) ::
           PresentWellTyped(at, i); LeadsTo(MemberValue(at, i), names[1..], to)
  }

  /** Following names is to be led by them. */
  lemma {:induction false} FollowExactly(at: Located, names: seq<string>, to: Located)
    requires X.WellTyped(at.typ, at.value)
    ensures Follow(at, names) == Some(to) <==> LeadsTo(at, names, to)
    decreases |names|
  {
    if names != [] {
      MembersByName(at.typ, names[0]);
      DataByName(at, names[0]);
      if MemberType(at.typ, names[0]).Some? && IsPresent(at, MemberAt(at.typ, names[0])) {
        PresentWellTyped(at, MemberAt(at.typ, names[0]));
        FollowExactly(MemberValue(at, MemberAt(at.typ, names[0])), names[1..], to);
      }
    }
  }

  // Below a case that was just selected there are only default values.
  function AccessDefault(at: Located, tokens: seq<string>, index: nat): Option<Located>
    decreases |tokens| - index
  {
    if index >= |tokens| then Some(at)
    else
      match MemberType(at.typ, tokens[index])
      case None => None
      case Some(m) => AccessDefault(DataOf(m, T.Default(m)), tokens, index + 1)
  }

  /** The recursive walker over tokens, from `index` on; union cases on the way get selected. */
  function AccessTokens(at: Located, tokens: seq<string>, index: nat): (r: Option<Located>)
    requires X.WellTyped(at.typ, at.value)
    decreases |tokens| - index
  {
    if tokens == [] || index >= |tokens| then Some(at)
    else
      match MemberData(at, tokens[index])
      case None => None
      case Some(m) =>
        if X.WellTyped(m.typ, m.value) then AccessTokens(m, tokens, index + 1) else AccessDefault(m, tokens, index + 1)
  }

  function AccessMemberData(t: X.XType, v: X.Value, path: string): Option<Located>
    requires X.WellTyped(t, v)
  {
    X.ResolveKeepsValues(t, v);
    AccessTokens(DataOf(t, v), Tokens(path), 1)
  }

  /** The type of the data that members named one after the other lead to: aliases are seen through. */
  function DataWalk(t: X.XType, names: seq<string>): Option<X.XType>
    decreases |names|
  {
    if names == [] then Some(X.Resolve(t))
    else
      match MemberType(X.Resolve(t), names[0])
      case None => None
      case Some(m) => DataWalk(m, names[1..])
  }

  /** Below a default there are the defaults of the types that the names lead to. */
  lemma {:induction false} DefaultReaches(t: X.XType, tokens: seq<string>, index: nat)
    requires index <= |tokens|
    ensures AccessDefault(DataOf(t, T.Default(t)), tokens, index) ==
            match DataWalk(t, tokens[index..]) case None => None case Some(u) => Some(Located(u, T.Default(u)))
    decreases |tokens| - index
  {
    DefaultResolved(t);
    if index < |tokens| {
      assert tokens[index..][1..] == tokens[index + 1..];
      match MemberType(X.Resolve(t), tokens[index])
      case None =>
      case Some(m) => DefaultReaches(m, tokens, index + 1);
    }
  }

  lemma SameWalk(t: X.XType, names: seq<string>)
    ensures DataWalk(X.Resolve(t), names) == DataWalk(t, names)
  {
  }

  /** The data walker succeeds exactly on the paths that the data has, with data of the type there. */
  lemma {:induction false} AccessReaches(at: Located, tokens: seq<string>, index: nat)
    requires X.WellTyped(at.typ, at.value) && index <= |tokens| && !at.typ.Alias?
    ensures var r, w := AccessTokens(at, tokens, index), DataWalk(at.typ, tokens[index..]);
            (r.Some? <==> w.Some?) && (r.Some? ==> r.value.typ == w.value)
    decreases |tokens| - index
  {
    if index < |tokens| {
      assert tokens[index..][1..] == tokens[index + 1..];
      match MemberData(at, tokens[index])
      case None =>
      case Some(m) =>
        SameWalk(MemberType(at.typ, tokens[index]).value, tokens[index + 1..]);
        if X.WellTyped(m.typ, m.value) {
          AccessReaches(m, tokens, index + 1);
        } else {
          DefaultReaches(MemberType(at.typ, tokens[index]).value, tokens, index + 1);
        }
    }
  }

  /** Through active cases only, the data walker changes nothing and finds the live value. */
  lemma {:induction false} AccessFollows(at: Located, tokens: seq<string>, index: nat)
    requires X.WellTyped(at.typ, at.value) && index <= |tokens|
    requires Follow(at, tokens[index..]).Some?
    ensures AccessTokens(at, tokens, index) == Follow(at, tokens[index..])
    decreases |tokens| - index
  {
    if index < |tokens| {
      assert tokens[index..][1..] == tokens[index + 1..];
      MemberWellTyped(at, tokens[index]);
      AccessFollows(MemberData(at, tokens[index]).value, tokens, index + 1);
    }
  }

  /** The data walker finds what the path leads to. */
  lemma AccessLeads(t: X.XType, v: X.Value, path: string, to: Located)
    requires X.WellTyped(t, v) && X.WellTyped(X.Resolve(t), v) && path != ""
    requires LeadsTo(DataOf(t, v), Tokens(path)[1..], to)
    ensures AccessMemberData(t, v, path) == Some(to)
  {
    FollowExactly(DataOf(t, v), Tokens(path)[1..], to);
    AccessFollows(DataOf(t, v), Tokens(path), 1);
  }

  /**
   A path of a root and a member leads to that member: of a struct, the field at its position; of a
   union, the payload if it is the active case, and a default otherwise.
   */
  lemma MemberIsAccessed(t: X.XType, v: X.Value, root: string, i: nat)
    requires X.WellTyped(t, v)
    requires var r := X.Resolve(t);
             && IsAggregation(r) && DistinctMembers(r) && i < MemberCount(r)
             && '.' !in root && '.' !in MemberName(r, i) && MemberName(r, i) != ""
    ensures X.WellTyped(X.Resolve(t), v)
    ensures var r := X.Resolve(t);
            && (r.Struct? ==> AccessMemberData(t, v, root + "." + r.members[i].name) ==
                                Some(Located(X.Resolve(r.members[i].typ), v.vals[i])))
            && (r.Union? ==> AccessMemberData(t, v, root + "." + r.cases[i].name) ==
                               var u := X.Resolve(r.cases[i].typ);
                               Some(Located(u, if X.ActiveCase(r.cases, v.disc) == i then v.payload else T.Default(u))))
  {
    var r := X.Resolve(t);
    X.ResolveKeepsValues(t, v);
    TwoTokens(root, MemberName(r, i));
    MemberOfItsName(r, i);
    DataByName(DataOf(t, v), MemberName(r, i));
    LastToken(DataOf(t, v), [root, MemberName(r, i)]);
  }

  lemma LastToken(at: Located, tokens: seq<string>)
    requires X.WellTyped(at.typ, at.value) && |tokens| == 2
    ensures AccessTokens(at, tokens, 1) == MemberData(at, tokens[1])
  {
    if MemberData(at, tokens[1]).Some? {
      var m := MemberData(at, tokens[1]).value;
      if X.WellTyped(m.typ, m.value) {
        assert AccessTokens(m, tokens, 2) == Some(m);
      }
    }
  }

  /** A path valid in the type leads to data of the type it leads to. */
  lemma {:induction false} ValidReaches(t: X.XType, names: seq<string>)
    requires Walk(t, names).Some?
    ensures DataWalk(t, names) == Some(X.Resolve(Walk(t, names).value))
    decreases |names|
  {
    if names != [] {
      ValidReaches(MemberType(t, names[0]).value, names[1..]);
    }
  }

  // ---------------------------------------------------------------------------------------------
  // The two walkers

  /** Both fail, or both succeed and the data is of the type found. */
  ghost predicate Agree(t: X.XType, names: seq<string>) {
    match ResolveNames(t, names)
    case None => DataWalk(t, names).None?
    case Some(u) => DataWalk(t, names) == Some(X.Resolve(u))
  }

  /** Every step makes the type smaller. */
  lemma {:induction false} WalkSmaller(t: X.XType, names: seq<string>)
    requires names != [] && DataWalk(t, names).Some?
    ensures DataWalk(t, names).value != X.Resolve(t) && DataWalk(t, names).value < X.Resolve(t)
    decreases |names|
  {
    var m := MemberType(X.Resolve(t), names[0]).value;
    ResolveSmaller(m);
    if |names| > 1 {
      WalkSmaller(m, names[1..]);
    } else {
      assert names[1..] == [];
    }
  }

  /** The two walkers agree exactly when the path is valid or its longest valid part ends in an aggregation. */
  lemma {:induction false} NamesAgree(t: X.XType, names: seq<string>)
    ensures Agree(t, names) <==> LongestValid(t, names) == names || IsAggregation(Walk(t, LongestValid(t, names)).value)
    decreases |names|
  {
    ResolveExactly(t, names);
    if names == [] {
    } else if MemberType(t, names[0]).Some? {
      var m := MemberType(t, names[0]).value;
      var rest := LongestValid(m, names[1..]);
      assert LongestValid(t, names) == [names[0]] + rest && ([names[0]] + rest)[1..] == rest;
      assert LongestValid(t, names) == names <==> rest == names[1..];
      NamesAgree(m, names[1..]);
      assert Agree(t, names) <==> Agree(m, names[1..]);
    } else if DataWalk(t, names).Some? {
      WalkSmaller(t, names);
    }
  }

  /** A path that does not end in a dot has the same tokens for both walkers. */
  lemma {:induction false} SameTokens(path: string)
    requires path != "" && path[|path| - 1] != '.'
    ensures Tokens(path) == Split(path)
    decreases |path|
  {
    var i := Find(path, '.', 0);
    if i >= 0 {
      assert path[i] == '.' && i < |path| - 1;
      SameTokens(path[i + 1..]);
    }
  }

  lemma {:induction false} JoinEnds(names: seq<string>)
    requires |names| > 0 && names[|names| - 1] != ""
    ensures var (s, last) := (Join(names), names[|names| - 1]); s != "" && s[|s| - 1] == last[|last| - 1]
  {
    if |names| > 1 {
      JoinEnds(names[1..]);
    }
  }

  /** Reading the tokens of a printed list gives the list, unless it ends in an empty token. */
  lemma TokensJoin(names: seq<string>)
    requires |names| > 0 && (forall t | t in names :: '.' !in t) && names[|names| - 1] != ""
    ensures Tokens(Join(names)) == names
  {
    SplitJoin(names);
    JoinEnds(names);
    assert names[|names| - 1] in names;
    SameTokens(Join(names));
  }

  /**
   The two walkers agree on a path exactly when it is valid in the type, or its longest valid part
   ends in an aggregation. On a valid path both succeed.
   */
  lemma WalkersAgree(t: X.XType, v: X.Value, path: string)
    requires X.WellTyped(t, v) && path != "" && path[|path| - 1] != '.'
    ensures var (names, at) := (Split(path)[1..], AccessMemberData(t, v, path));
            var (r, valid) := (ResolveNames(t, names), LongestValid(t, names));
            && ((at.Some? <==> r.Some?) && (at.Some? ==> at.value.typ == X.Resolve(r.value)) <==>
                  valid == names || IsAggregation(Walk(t, valid).value))
            && (valid == names ==> at.Some? && r == Walk(t, names))
  {
    X.ResolveKeepsValues(t, v);
    SameTokens(path);
    AccessReaches(DataOf(t, v), Tokens(path), 1);
    SameWalk(t, Split(path)[1..]);
    NamesAgree(t, Split(path)[1..]);
    ResolveExactly(t, Split(path)[1..]);
    if LongestValid(t, Split(path)[1..]) == Split(path)[1..] {
      ValidReaches(t, Split(path)[1..]);
    }
  }

  /** Past a member that is no aggregation the type walker goes on where the data walker gives up. */
  lemma WalkersDisagree()
    ensures var t := X.Struct("Point", [X.Member("x", X.Scalar(X.Int32))]);
            ResolveNames(t, ["x", "y"]) == Some(X.Scalar(X.Int32)) && DataWalk(t, ["x", "y"]) == None
  {
    var t := X.Struct("Point", [X.Member("x", X.Scalar(X.Int32))]);
    assert X.MemberNamed(t.members, "x") == 0;
    assert MemberType(t, "x") == Some(X.Scalar(X.Int32));
    assert ["x", "y"][1..] == ["y"] && ["y"][1..] == [];
  }

  /** Behind an alias the data walker goes on where the type walker stays. */
  lemma AliasDividesWalkers()
    ensures var point := X.Struct("Point", [X.Member("x", X.Scalar(X.Int32))]);
            var t := X.Struct("Line", [X.Member("start", X.Alias("Corner", point))]);
            && ResolveNames(t, ["start", "x"]) == Some(X.Alias("Corner", point))
            && DataWalk(t, ["start", "x"]) == Some(X.Scalar(X.Int32))
  {
    var point := X.Struct("Point", [X.Member("x", X.Scalar(X.Int32))]);
    var t := X.Struct("Line", [X.Member("start", X.Alias("Corner", point))]);
    assert X.MemberNamed(point.members, "x") == 0 && X.MemberNamed(t.members, "start") == 0;
    assert MemberType(point, "x") == Some(X.Scalar(X.Int32)) && MemberType(t, "start") == Some(X.Alias("Corner", point));
    assert ["start", "x"][1..] == ["x"] && ["x"][1..] == [];
  }
}
