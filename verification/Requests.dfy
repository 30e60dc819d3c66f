/**
 What becomes of a request after any configurations: when the client finds nothing in it and follows
 a null pointer, and when what it finds goes by two names.
 */
module Requests {
  import opened Options
  import opened Strings
  import opened Paths
  import opened Navigation
  import opened Discriminator
  import opened Routing
  import X = XTypes
  import S = ServerSide

  // ---------------------------------------------------------------------------------------------
  // Requests that find no node

  method AddOne(client: Client, c: Configuration, callback: Callback)
    requires client.Valid() && client.Settled() && client.Noted() && client.asked == map[]
    modifies client, client.tree
    ensures client.Valid() && client.Settled() && client.Noted() && client.asked == map[]
    ensures client.configs == old(client.configs) + [(c, callback)]
  {
    var result := client.AddConfig(c, callback);
  }

  method ConfiguredClient(ts: ServiceTypes, cs: seq<(Configuration, Callback)>) returns (client: Client)
    requires GoodTypes(ts)
    ensures fresh(client) && fresh(client.tree) && client.types == ts && client.configs == cs
    ensures client.Valid() && client.Settled() && client.Noted() && client.asked == map[]
  {
    client := new Client(ts);
    for i := 0 to |cs|
      invariant fresh(client) && fresh(client.tree) && client.types == ts && client.configs == cs[..i]
      invariant client.Valid() && client.Settled() && client.Noted() && client.asked == map[]
    {
      AddOne(client, cs[i].0, cs[i].1);
      assert cs[..i] + [cs[i]] == cs[..i + 1];
    }
  }

  /** A request comes in after some configurations: `part` is what is found in it, `noted` the name it is noted under. */
  method ReceiveAfter(ts: ServiceTypes, cs: seq<(Configuration, Callback)>, v: X.Value, sample: S.SampleId)
    returns (r: Reception, ghost tree: NavigationTree, ghost part: Option<Part>, ghost noted: string)
    requires GoodTypes(ts) && X.WellTyped(ts.request, v) && '.' !in Name(X.Resolve(ts.request))
    ensures fresh(tree) && tree.Valid() && tree.Recorded() && tree.added == Configured(ts, cs).added
    ensures forall n | n in tree.types :: tree.types[n] == ts.request || tree.types[n] == ts.reply
    ensures X.WellTyped(X.Resolve(ts.request), v)
    ensures var t := X.Resolve(ts.request);
            if Name(t) in tree.roots then IsPart(tree, t, v, Configured(ts, cs).memberTypes, part) else part.Some?
    ensures r == if part.None? then NoNode else CallFor(Configured(ts, cs).callbacks, part.value.message)
    ensures part.Some? ==> noted == part.value.typeName
  {
    var client := ConfiguredClient(ts, cs);
    tree := client.tree;
    r, part := client.Receive(sample, v);
    noted := if part.Some? then client.asked[sample] else "";
  }

  /**
   After any configurations, nothing is found in a request, and the client follows a null pointer,
   exactly when paths were added for the type of the request and none of them is live in it.
   */
  method AfterConfigurations(ts: ServiceTypes, cs: seq<(Configuration, Callback)>, v: X.Value) returns (r: Reception)
    requires GoodTypes(ts) && X.WellTyped(ts.request, v) && '.' !in Name(X.Resolve(ts.request))
    ensures X.WellTyped(X.Resolve(ts.request), v)
    ensures var t := Configured(ts, cs); r == NoNode <==> Missed(t.added, X.Resolve(ts.request), v, t.memberTypes)
  {
    ghost var tree, part, noted;
    r, tree, part, noted := ReceiveAfter(ts, cs, v, S.SampleId(0, 0));
    NoPart(tree, X.Resolve(ts.request), v, Configured(ts, cs).memberTypes, part);
  }

  /** The tokens of a path of two names, and of the part after the first. */
  lemma PathParts(first: string, second: string)
    requires '.' !in first && '.' !in second && second != ""
    ensures var path := first + "." + second;
            && Split(path)[1..] == [second]
            && FirstToken(path) == first && AfterFirst(path) == second && Tokens(AfterFirst(path)) == [second]
  {
    var path := first + "." + second;
    TwoTokens(first, second);
    FindFirst(first, second);
    assert path[..|first|] == first && path[|first| + 1..] == second;
  }

  /** What a path to a member of a type leads to, and what it adds. */
  lemma MemberPath(t: X.XType, name: string)
    requires '.' !in Name(t) && '.' !in name && name != "" && MemberType(t, name).Some?
    ensures var path := Name(t) + "." + name;
            && NameAt(t, path) == Some(Stripped(Name(MemberType(t, name).value)))
            && ValidPart(t, path) == [name]
  {
    PathParts(Name(t), name);
    assert [name][1..] == [];
    assert LongestValid(t, [name]) == [name];
    ResolveExactly(t, [name]);
  }

  /** The member is there: in a union, its case is the active one. */
  predicate IsThere(t: X.XType, v: X.Value, name: string)
    requires X.WellTyped(t, v) && MemberType(t, name).Some?
  {
    t.Union? ==> X.ActiveCase(t.cases, v.disc) == MemberAt(t, name)
  }

  lemma MemberIsLive(t: X.XType, v: X.Value, name: string, listed: seq<string>)
    requires X.WellTyped(t, v) && MemberType(t, name).Some?
    ensures Live(Located(t, v), [name], listed) <==>
            IsThere(t, v, name) && Name(X.Resolve(MemberType(t, name).value)) in listed
  {
    assert [name][1..] == [] && [name] + [] == [name];
    if IsThere(t, v, name) {
      FollowStep(Located(t, v), name, []);
    }
  }

  /** A path to a member is live when the whole is listed, or the member is there and its true name listed. */
  lemma MemberPathIsLive(t: X.XType, v: X.Value, name: string, listed: seq<string>)
    requires X.WellTyped(t, v) && '.' !in Name(t) && '.' !in name && name != "" && MemberType(t, name).Some?
    requires Name(t) !in listed
    ensures PathIsLive((t, Name(t) + "." + name), t, v, listed) <==>
            IsThere(t, v, name) && Name(X.Resolve(MemberType(t, name).value)) in listed
  {
    MemberPath(t, name);
    MemberIsLive(t, v, name, listed);
    assert [name][..0] == [] && [name][..1] == [name];
  }

  /** One more request type configured, by a path to a member. */
  lemma OneMoreMember(ts: ServiceTypes, cs: seq<(Configuration, Callback)>, r: Tables, name: string, callback: Callback)
    requires '.' !in Name(ts.request) && '.' !in name && name != "" && MemberType(ts.request, name).Some?
    requires r == Configured(ts, cs)
    ensures var (path, n) := (Name(ts.request) + "." + name, Stripped(Name(MemberType(ts.request, name).value)));
            var r' := Configured(ts, cs + [(RequestOnly(path), callback)]);
            && r'.added == r.added + [(ts.request, path)]
            && r'.memberTypes == r.memberTypes + [n] && r'.callbacks == r.callbacks[n := callback]
  {
    MemberPath(ts.request, name);
    OneRequest(ts, cs, Name(ts.request) + "." + name, callback);
  }

  lemma MemberConfigured(ts: ServiceTypes, name: string)
    requires '.' !in Name(ts.request) && '.' !in name && name != "" && MemberType(ts.request, name).Some?
    ensures var path := Name(ts.request) + "." + name;
            var r := Configured(ts, [(RequestOnly(path), 0)]);
            r.added == [(ts.request, path)] && r.memberTypes == [Stripped(Name(MemberType(ts.request, name).value))]
  {
    var cs: seq<(Configuration, Callback)> := [(RequestOnly(Name(ts.request) + "." + name), 0)];
    OneMoreMember(ts, [], Configured(ts, []), name, 0);
    assert [] + cs == cs;
  }

  lemma MemberMissed(t: X.XType, v: X.Value, name: string)
    requires X.WellTyped(t, v) && '.' !in Name(t) && '.' !in name && name != "" && MemberType(t, name).Some?
    requires Stripped(Name(MemberType(t, name).value)) != Name(t)
    ensures var m := MemberType(t, name).value;
            Missed([(t, Name(t) + "." + name)], t, v, [Stripped(Name(m))]) <==>
              !(IsThere(t, v, name) && Name(X.Resolve(m)) == Stripped(Name(m)))
  {
    var added := [(t, Name(t) + "." + name)];
    assert added[0] in added;
    MemberPathIsLive(t, v, name, [Stripped(Name(MemberType(t, name).value))]);
  }

  /**
   So with one request type configured, by a path to a member: the client follows a null pointer
   exactly when the member is not the active case or is declared by an alias of another name.
   */
  method OneMember(ts: ServiceTypes, name: string, v: X.Value) returns (r: Reception)
    requires GoodTypes(ts) && '.' !in Name(ts.request) && '.' !in name && MemberType(ts.request, name).Some?
    requires Stripped(Name(MemberType(ts.request, name).value)) != Name(ts.request)
    requires X.WellTyped(ts.request, v)
    ensures var m := MemberType(ts.request, name).value;
            r == NoNode <==> !(IsThere(ts.request, v, name) && Name(X.Resolve(m)) == Stripped(Name(m)))
  {
    MemberIdentifiers(ts.request, name);
    MemberConfigured(ts, name);
    MemberMissed(ts.request, v, name);
    r := AfterConfigurations(ts, [(RequestOnly(Name(ts.request) + "." + name), 0)], v);
  }

  const CHOICE := X.Union("U", X.Scalar(X.Int32), 1,
                          [X.Case("a", X.Struct("A", []), [0], false), X.Case("b", X.Struct("B", []), [1], false)])

  lemma ChoiceMembers()
    ensures X.CaseNamed(CHOICE.cases, "a") == 0 && MemberType(CHOICE, "a") == Some(X.Struct("A", []))
    ensures Identifiers(CHOICE)
  {
    assert X.CaseNamed(CHOICE.cases, "a") == 0;
  }

  lemma ChoiceOfB()
    ensures X.ActiveCase(CHOICE.cases, 1) == 1 && X.WellTyped(CHOICE, X.Choice(1, X.Fields([])))
  {
    assert X.LabelledCase(CHOICE.cases, 1) == 1;
  }

  /** A union of cases "a" and "b", of which "a" is configured and "b" comes in. */
  method OtherCaseComesIn() returns (r: Reception)
    ensures r == NoNode
  {
    ChoiceMembers();
    ChoiceOfB();
    r := OneMember(ServiceTypes(CHOICE, X.Struct("R", [])), "a", X.Choice(1, X.Fields([])));
  }

  const HOLDER := X.Struct("H", [X.Member("a", X.Alias("L", X.Struct("A", [])))])

  lemma HolderMembers()
    ensures X.MemberNamed(HOLDER.members, "a") == 0 && MemberType(HOLDER, "a") == Some(X.Alias("L", X.Struct("A", [])))
    ensures Identifiers(HOLDER) && X.WellTyped(HOLDER, X.Fields([X.Fields([])]))
  {
  }

  /** A member declared by an alias "L" of "A": configured as a request type, it is called "L", and "A" comes in. */
  method AliasComesIn() returns (r: Reception)
    ensures r == NoNode
  {
    HolderMembers();
    r := OneMember(ServiceTypes(HOLDER, X.Struct("R", [])), "a", X.Fields([X.Fields([])]));
  }

  // ---------------------------------------------------------------------------------------------
  // Requests that go by two names

  /** Two members that are different, and what their types are called. */
  predicate TwoMembers(t: X.XType, first: string, second: string) {
    && '.' !in Name(t) && '.' !in first && '.' !in second && first != "" && second != ""
    && MemberType(t, first).Some? && MemberType(t, second).Some?
  }

  /** A tree for paths to two members of a type has nodes for the whole and for the members. */
  lemma AtMembers(tree: NavigationTree, t: X.XType, first: string, second: string, j: nat)
    requires tree.Valid() && tree.Recorded() && j < |tree.place| && TwoMembers(t, first, second)
    requires tree.added == [(t, Name(t) + "." + first), (t, Name(t) + "." + second)]
    ensures tree.place[j].names == [] || tree.place[j].names == [first] || tree.place[j].names == [second]
  {
    MemberPath(t, first);
    MemberPath(t, second);
    assert tree.place[j] in PlaceSet(tree.place);
    StoredBySome(tree.added, tree.place[j]);
    StoredAre(t, Name(t) + "." + first, tree.place[j]);
    StoredAre(t, Name(t) + "." + second, tree.place[j]);
  }

  /** When only the first is there, it is what can be found. */
  lemma OnlyFirst(tree: NavigationTree, t: X.XType, v: X.Value, first: string, second: string, listed: seq<string>, j: nat)
    requires tree.Valid() && tree.Recorded() && X.WellTyped(t, v) && TwoMembers(t, first, second)
    requires tree.added == [(t, Name(t) + "." + first), (t, Name(t) + "." + second)] && Name(t) !in listed
    requires !IsThere(t, v, second) && Name(t) in tree.roots
    requires Candidate(tree.place, tree.roots[Name(t)], Located(t, v), listed, j)
    ensures tree.place[j] == Place(Name(t), [first])
  {
    CandidateOfRoot(tree, t, v, listed, j);
    AtMembers(tree, t, first, second, j);
    MemberIsLive(t, v, second, listed);
  }

  /** The part at the node of a member. */
  lemma PartAtMember(tree: NavigationTree, t: X.XType, v: X.Value, name: string, p: Part, j: nat)
    requires IsPartUnder(tree, t, v, p, j) && tree.place[j].names == [name]
    ensures MemberType(t, name).Some? && p == Part(Name(MemberType(t, name).value), MemberData(Located(t, v), name).value)
  {
    assert GoodNode(tree.nodes, tree.place, tree.roots, tree.types, j);
    assert [name] + [] == [name] && [name][1..] == [];
    assert [] + [name] == [name];
    WalkSnoc(t, [], name);
    FollowStep(Located(t, v), name, []);
  }

  lemma FirstOfTwo(tree: NavigationTree, t: X.XType, v: X.Value, first: string, second: string, listed: seq<string>, p: Part)
    requires tree.Valid() && tree.Recorded() && X.WellTyped(t, v) && TwoMembers(t, first, second) && !t.Alias?
    requires tree.added == [(t, Name(t) + "." + first), (t, Name(t) + "." + second)] && Name(t) !in listed
    requires !IsThere(t, v, second) && Name(t) in tree.roots && Name(t) in tree.types && tree.types[Name(t)] == t
    requires IsPart(tree, t, v, listed, Some(p))
    ensures p == Part(Name(MemberType(t, first).value), MemberData(Located(t, v), first).value)
  {
    var j: nat :| Topmost(tree.place, tree.roots[Name(t)], Located(t, v), listed, j) && IsPartAt(tree, t, v, p, j);
    OnlyFirst(tree, t, v, first, second, listed, j);
    PartAtMember(tree, t, v, first, p, j);
  }

  /** The request types configured by paths to two members: callback 0 for the first, 1 for the second. */
  function TwoRequests(t: X.XType, first: string, second: string): seq<(Configuration, Callback)> {
    [(RequestOnly(Name(t) + "." + first), 0), (RequestOnly(Name(t) + "." + second), 1)]
  }

  lemma TwoConfigured(ts: ServiceTypes, first: string, second: string, r: Tables)
    requires TwoMembers(ts.request, first, second) && r == Configured(ts, TwoRequests(ts.request, first, second))
    ensures var (t, a, b) := (ts.request, Name(MemberType(ts.request, first).value), Name(MemberType(ts.request, second).value));
            && r.added == [(t, Name(t) + "." + first), (t, Name(t) + "." + second)]
            && r.memberTypes == [Stripped(a), Stripped(b)] && r.callbacks == map[Stripped(a) := 0][Stripped(b) := 1]
  {
    var one: seq<(Configuration, Callback)> := [(RequestOnly(Name(ts.request) + "." + first), 0)];
    OneMoreMember(ts, [], Configured(ts, []), first, 0);
    assert [] + one == one;
    OneMoreMember(ts, one, Configured(ts, one), second, 1);
    assert one + [(RequestOnly(Name(ts.request) + "." + second), 1)] == TwoRequests(ts.request, first, second);
  }

  /** The part found of a request that has the first of two members configured, by any alias of the second's type. */
  lemma AliasedPart(
    tree: NavigationTree, ts: ServiceTypes, first: string, second: string, v: X.Value, listed: seq<string>, part: Option<Part>)
    requires tree.Valid() && tree.Recorded() && GoodTypes(ts) && X.WellTyped(ts.request, v)
    requires TwoMembers(ts.request, first, second)
    requires forall n | n in tree.types :: tree.types[n] == ts.request || tree.types[n] == ts.reply
    requires var t := ts.request; tree.added == [(t, Name(t) + "." + first), (t, Name(t) + "." + second)]
    requires IsThere(ts.request, v, first) && !IsThere(ts.request, v, second)
    requires Name(ts.request) !in listed && Name(X.Resolve(MemberType(ts.request, first).value)) in listed
    requires if Name(ts.request) in tree.roots then IsPart(tree, ts.request, v, listed, part) else part.Some?
    ensures part == Some(Part(Name(MemberType(ts.request, first).value), MemberData(Located(ts.request, v), first).value))
  {
    var t := ts.request;
    assert tree.added[0] in tree.added;
    RootsOfPaths(tree, Name(t));
    RootKnown(tree, ts);
    MemberPathIsLive(t, v, first, listed);
    NoPart(tree, t, v, listed, part);
    FirstOfTwo(tree, t, v, first, second, listed, part.value);
  }

  /**
   A union with a case declared by an alias of the type of another, both configured: a request that
   has the first is noted under the name of the alias, and passed to the callback of the second.
   */
  method AliasedCase(ts: ServiceTypes, first: string, second: string, v: X.Value, sample: S.SampleId)
    returns (r: Reception, ghost noted: string)
    requires GoodTypes(ts) && X.WellTyped(ts.request, v) && TwoMembers(ts.request, first, second)
    requires IsThere(ts.request, v, first) && !IsThere(ts.request, v, second)
    requires X.Resolve(MemberType(ts.request, first).value) == MemberType(ts.request, second).value
    requires var (a, b) := (Name(MemberType(ts.request, first).value), Name(MemberType(ts.request, second).value));
             a != b && Stripped(a) == a && Stripped(b) == b && Name(ts.request) != a && Name(ts.request) != b
    ensures r == Call(1, MemberData(Located(ts.request, v), first).value)
    ensures noted == Name(MemberType(ts.request, first).value) != Name(r.message.typ)
  {
    ghost var tree, part;
    var cs := TwoRequests(ts.request, first, second);
    r, tree, part, noted := ReceiveAfter(ts, cs, v, sample);
    ghost var tables := Configured(ts, cs);
    TwoConfigured(ts, first, second, tables);
    AliasedPart(tree, ts, first, second, v, tables.memberTypes, part);
  }

  const ALIASED := X.Union("U", X.Scalar(X.Int32), 1,
                           [X.Case("a", X.Alias("L", X.Struct("A", [])), [0], false), X.Case("b", X.Struct("A", []), [1], false)])

  lemma AliasedMembers()
    ensures MemberType(ALIASED, "a") == Some(X.Alias("L", X.Struct("A", []))) && MemberAt(ALIASED, "a") == 0
    ensures MemberType(ALIASED, "b") == Some(X.Struct("A", [])) && MemberAt(ALIASED, "b") == 1
    ensures Identifiers(ALIASED) && TwoMembers(ALIASED, "a", "b")
  {
    assert X.CaseNamed(ALIASED.cases, "a") == 0;
    assert X.CaseNamed(ALIASED.cases[1..], "b") == 0;
  }

  lemma AliasedTypes()
    ensures GoodTypes(ServiceTypes(ALIASED, X.Struct("R", []))) && Stripped("L") == "L" && Stripped("A") == "A"
    ensures X.Resolve(X.Alias("L", X.Struct("A", []))) == X.Struct("A", [])
  {
    AliasedMembers();
  }

  lemma AliasedValue()
    ensures X.ActiveCase(ALIASED.cases, 0) == 0 && X.WellTyped(ALIASED, X.Choice(0, X.Fields([])))
  {
    assert X.LabelledCase(ALIASED.cases, 0) == 0;
  }

  /** Such a union: case "a" of type "L", an alias of "A", and case "b" of type "A". */
  method AliasIsMisrouted() returns (r: Reception, ghost noted: string)
    ensures r.Call? && r.callback == 1 && Name(r.message.typ) == "A" && noted == "L"
  {
    AliasedMembers();
    AliasedTypes();
    AliasedValue();
    r, noted := AliasedCase(ServiceTypes(ALIASED, X.Struct("R", [])), "a", "b", X.Choice(0, X.Fields([])), S.SampleId(0, 0));
  }

  lemma WordConfigured(ts: ServiceTypes, word: string, r: Tables)
    requires '.' !in word && r == Configured(ts, [(RequestOnly(word), 0)])
    ensures r.added == [(ts.request, word)] && r.memberTypes == [Stripped(Name(ts.request))]
    ensures r.callbacks == map[Stripped(Name(ts.request)) := 0]
    ensures FirstToken(word) == word && NameAt(ts.request, word) == Some(Stripped(Name(ts.request)))
  {
    UndottedParts(word);
    OneRequest(ts, [], word, 0);
    var cs: seq<(Configuration, Callback)> := [(RequestOnly(word), 0)];
    assert [] + cs == cs;
  }

  /** The part found of a request whose own type is listed: the whole, by the name of the root, if it has one. */
  lemma WholePart(tree: NavigationTree, t: X.XType, v: X.Value, listed: seq<string>, p: Part)
    requires tree.Valid() && X.WellTyped(t, v) && !t.Alias? && Name(t) in listed
    requires Name(t) in tree.roots && Name(t) in tree.types && tree.types[Name(t)] == t && IsPart(tree, t, v, listed, Some(p))
    ensures p == Part(if HasName(tree, tree.roots[Name(t)]) then Name(t) else "", Located(t, v))
  {
    var root := tree.roots[Name(t)];
    var j: nat :| Topmost(tree.place, root, Located(t, v), listed, j) && IsPartAt(tree, t, v, p, j);
    CandidateOfRoot(tree, t, v, listed, j);
    assert tree.place[root] == Place(Name(t), []);
    assert NamesFrom(tree.place, root, j)[..0] == [];
    assert tree.place[j].names == [];
    OnePlaceEach(tree.nodes, tree.place, tree.roots, tree.types, root, j);
  }

  lemma MisspeltPart(tree: NavigationTree, ts: ServiceTypes, word: string, v: X.Value, listed: seq<string>, part: Option<Part>)
    requires tree.Valid() && tree.Recorded() && GoodTypes(ts) && X.WellTyped(ts.request, v) && !ts.request.Alias?
    requires forall n | n in tree.types :: tree.types[n] == ts.request || tree.types[n] == ts.reply
    requires tree.added == [(ts.request, word)] && FirstToken(word) == word != Name(ts.request) && Name(ts.request) in listed
    requires if Name(ts.request) in tree.roots then IsPart(tree, ts.request, v, listed, part) else part.Some?
    ensures part == Some(Part("", Located(ts.request, v)))
  {
    var t := ts.request;
    assert tree.added[0] in tree.added;
    RootsOfPaths(tree, Name(t));
    RootHasName(tree, Name(t));
    RootKnown(tree, ts);
    var whole := ValidPart(t, word)[..0];
    assert whole == [] && Live(Located(t, v), whole, listed);
    assert PathIsLive((t, word), t, v, listed);
    NoPart(tree, t, v, listed, part);
    WholePart(tree, t, v, listed, part.value);
  }

  /**
   The request type configured by a word that is not its name: the type is listed, but its root goes
   without a name. A request is passed to the callback and noted under no name.
   */
  method MisspeltRoot(ts: ServiceTypes, word: string, v: X.Value, sample: S.SampleId) returns (r: Reception, ghost noted: string)
    requires GoodTypes(ts) && X.WellTyped(ts.request, v) && !ts.request.Alias? && '.' !in Name(ts.request)
    requires '.' !in word && word != Name(ts.request) && Stripped(Name(ts.request)) == Name(ts.request)
    ensures r == Call(0, Located(ts.request, v)) && noted == "" != Name(ts.request)
  {
    ghost var tree, part;
    r, tree, part, noted := ReceiveAfter(ts, [(RequestOnly(word), 0)], v, sample);
    ghost var tables := Configured(ts, [(RequestOnly(word), 0)]);
    WordConfigured(ts, word, tables);
    MisspeltPart(tree, ts, word, v, tables.memberTypes, part);
  }

  const REQ := X.Struct("Req", [])

  lemma ReqAndFoo()
    ensures GoodTypes(ServiceTypes(REQ, X.Struct("R", []))) && '.' !in "Foo" && "Foo" != Name(REQ) && '.' !in Name(REQ)
    ensures Stripped(Name(REQ)) == Name(REQ)
  {
    assert "Foo"[0] == 'F' && Name(REQ)[0] == 'R' && |Name(REQ)| == 3;
    assert forall k | 0 <= k < 3 :: "Foo"[k] != '.';
    assert forall k | 0 <= k < 3 :: "Req"[k] != '.';
  }

  /** Such a type: "Req", configured as "Foo". */
  method RootIsMisspelt() returns (r: Reception, ghost noted: string)
    ensures r == Call(0, Located(REQ, X.Fields([]))) && noted == ""
  {
    ReqAndFoo();
    r, noted := MisspeltRoot(ServiceTypes(REQ, X.Struct("R", [])), "Foo", X.Fields([]), S.SampleId(0, 0));
  }
}
