/** The search of the navigation tree for the part of a received message that is of a configured type. */
module Discriminator {
  import opened Options
  import opened Strings
  import opened Paths
  import opened Navigation
  import opened Compiler
  import X = XTypes

  /** Node `j` stands below node `i`. */
  ghost predicate Below(ps: seq<Place>, i: nat, j: nat)
    requires i < |ps| && j < |ps|
  {
    && ps[j].root == ps[i].root && |ps[i].names| <= |ps[j].names|
    && ps[j].names[..|ps[i].names|] == ps[i].names
  }

  /** The member names from node `i` down to node `j`. */
  ghost function NamesFrom(ps: seq<Place>, i: nat, j: nat): seq<string>
    requires i < |ps| && j < |ps| && Below(ps, i, j)
  {
    ps[j].names[|ps[i].names|..]
  }

  /** Data that is there: members of structs and active cases lead to it, and its type is listed. */
  ghost predicate Live(at: Located, names: seq<string>, types: seq<string>)
    requires X.WellTyped(at.typ, at.value)
  {
    Follow(at, names).Some? && Name(Follow(at, names).value.typ) in types
  }

  /** Node `j` stands for live data of a listed type, where `at` is the data node `i` stands for. */
  ghost predicate Candidate(ps: seq<Place>, i: nat, at: Located, types: seq<string>, j: nat)
    requires i < |ps| && X.WellTyped(at.typ, at.value)
  {
    j < |ps| && Below(ps, i, j) && Live(at, NamesFrom(ps, i, j), types)
  }

  /** And nothing on the way to it has a listed type. */
  ghost predicate Topmost(ps: seq<Place>, i: nat, at: Located, types: seq<string>, j: nat)
    requires i < |ps| && X.WellTyped(at.typ, at.value)
  {
    && Candidate(ps, i, at, types, j)
    && forall k | 0 <= k < |NamesFrom(ps, i, j)| :: !Live(at, NamesFrom(ps, i, j)[..k], types)
  }

  /** The node on the way from node `i` down to node `j`. */
  lemma {:induction false} ChildOnTheWay(
    ns: seq<Node>, ps: seq<Place>, roots: map<string, nat>, types: Types, i: nat, j: nat)
    requires Tree(ns, ps, roots, types) && i < |ns| && j < |ns| && Below(ps, i, j) && NamesFrom(ps, i, j) != []
    ensures var name := NamesFrom(ps, i, j)[0];
            && name in ns[i].children
            && var c := ns[i].children[name];
               && c < |ns| && Below(ps, c, j) && NamesFrom(ps, c, j) == NamesFrom(ps, i, j)[1..]
    decreases j
  {
    assert GoodNode(ns, ps, roots, types, j);
    assert GoodLink(ns, ps, j);
    var up := ns[j].parent.value;
    if |ps[up].names| == |ps[i].names| {
      OnePlaceEach(ns, ps, roots, types, up, i);
    } else {
      assert NamesFrom(ps, i, j) == NamesFrom(ps, i, up) + [ns[j].memberName];
      ChildOnTheWay(ns, ps, roots, types, i, up);
    }
  }

  /** What a child of node `i` stands for: the member of its name. */
  lemma ChildData(ns: seq<Node>, ps: seq<Place>, roots: map<string, nat>, types: Types, i: nat, name: string, t: X.XType)
    requires Tree(ns, ps, roots, types) && i < |ns| && name in ns[i].children
    requires ps[i].root in types && Walk(types[ps[i].root], ps[i].names) == Some(t)
    ensures var c := ns[i].children[name];
            && i < c < |ns| && ps[c] == Place(ps[i].root, ps[i].names + [name])
            && MemberType(t, name).Some? && Walk(types[ps[c].root], ps[c].names) == MemberType(t, name)
  {
    ChildStands(ns, ps, roots, types, i, name);
    assert GoodNode(ns, ps, roots, types, ns[i].children[name]);
    WalkSnoc(types[ps[i].root], ps[i].names, name);
  }

  lemma FollowStep(at: Located, name: string, rest: seq<string>)
    requires X.WellTyped(at.typ, at.value) && MemberType(at.typ, name).Some?
    requires at.typ.Union? ==> X.ActiveCase(at.typ.cases, at.value.disc) == MemberAt(at.typ, name)
    ensures var m := MemberData(at, name).value;
            X.WellTyped(m.typ, m.value) && Follow(at, [name] + rest) == Follow(m, rest)
  {
    MemberWellTyped(at, name);
    assert ([name] + rest)[1..] == rest;
  }

  /** What is found below a child is found below the node, if the node's own type is not listed. */
  lemma FoundBelow(ps: seq<Place>, i: nat, c: nat, at: Located, name: string, types: seq<string>, j: nat)
    requires i < |ps| && c < |ps| && ps[c] == Place(ps[i].root, ps[i].names + [name])
    requires X.WellTyped(at.typ, at.value) && MemberType(at.typ, name).Some?
    requires at.typ.Union? ==> X.ActiveCase(at.typ.cases, at.value.disc) == MemberAt(at.typ, name)
    requires Name(at.typ) !in types
    requires var m := MemberData(at, name).value; X.WellTyped(m.typ, m.value) && Topmost(ps, c, m, types, j)
    ensures Topmost(ps, i, at, types, j)
  {
    var m := MemberData(at, name).value;
    var rest := NamesFrom(ps, c, j);
    assert ps[j].names[..|ps[i].names|] == ps[c].names[..|ps[i].names|];
    assert NamesFrom(ps, i, j) == [name] + rest;
    FollowStep(at, name, rest);
    forall k | 0 <= k < |NamesFrom(ps, i, j)| ensures !Live(at, NamesFrom(ps, i, j)[..k], types) {
      if k > 0 {
        assert NamesFrom(ps, i, j)[..k] == [name] + rest[..k - 1];
        FollowStep(at, name, rest[..k - 1]);
      } else {
        assert NamesFrom(ps, i, j)[..0] == [];
      }
    }
  }

  /** A candidate below a node whose own type is not listed is one below the child on the way. */
  lemma CandidateBelow(
    ns: seq<Node>, ps: seq<Place>, roots: map<string, nat>, types: Types, i: nat, at: Located, listed: seq<string>, j: nat)
    requires Tree(ns, ps, roots, types) && i < |ns| && X.WellTyped(at.typ, at.value)
    requires Candidate(ps, i, at, listed, j) && Name(at.typ) !in listed
    ensures NamesFrom(ps, i, j) != []
    ensures var name := NamesFrom(ps, i, j)[0];
            && IsAggregation(at.typ) && name in ns[i].children && MemberType(at.typ, name).Some?
            && (at.typ.Union? ==> X.ActiveCase(at.typ.cases, at.value.disc) == MemberAt(at.typ, name))
            && var (c, m) := (ns[i].children[name], MemberData(at, name).value);
               c < |ps| && X.WellTyped(m.typ, m.value) && Candidate(ps, c, m, listed, j)
  {
    var names := NamesFrom(ps, i, j);
    assert names != [];
    ChildOnTheWay(ns, ps, roots, types, i, j);
    MemberWellTyped(at, names[0]);
  }

  /** The way down to node `j` starts with one of these members. */
  ghost predicate Via(ps: seq<Place>, i: nat, j: nat, names: set<string>)
    requires i < |ps| && j < |ps| && Below(ps, i, j)
  {
    NamesFrom(ps, i, j) != [] && NamesFrom(ps, i, j)[0] in names
  }

  /** A node with children stands for an aggregation, by its own name: below an alias there are none. */
  lemma HasMembers(ns: seq<Node>, ps: seq<Place>, roots: map<string, nat>, types: Types, i: nat, name: string)
    requires Tree(ns, ps, roots, types) && i < |ns| && name in ns[i].children
    ensures ps[i].root in types && Walk(types[ps[i].root], ps[i].names).Some?
    ensures IsAggregation(Walk(types[ps[i].root], ps[i].names).value)
  {
    assert GoodNode(ns, ps, roots, types, i);
    ChildData(ns, ps, roots, types, i, name, Walk(types[ps[i].root], ps[i].names).value);
  }

  lemma ActiveMember(t: X.XType, v: X.Value)
    requires t.Union? && X.WellTyped(t, v) && Identifiers(t)
    ensures var k := X.ActiveCase(t.cases, v.disc); MemberAt(t, t.cases[k].name) == k
  {
  }

  /** The search below a node for live data of a listed type. */
  method Search(tree: NavigationTree, i: nat, at: Located, listed: seq<string>) returns (found: Option<nat>)
    requires tree.Valid() && i < |tree.nodes| && X.WellTyped(at.typ, at.value)
    requires X.Resolve(tree.TypeOf(i)) == at.typ && Identifiers(tree.TypeOf(i))
    ensures found.Some? ==> Topmost(tree.place, i, at, listed, found.value)
    ensures found.None? ==> forall j :: !Candidate(tree.place, i, at, listed, j)
    decreases at.typ, 1
  {
    if Name(at.typ) in listed {
      assert NamesFrom(tree.place, i, i) == [];
      return Some(i);
    }
    forall j | Candidate(tree.place, i, at, listed, j)
      ensures IsAggregation(at.typ) && Via(tree.place, i, j, tree.nodes[i].children.Keys)
      ensures at.typ.Union? ==> Via(tree.place, i, j, {at.typ.cases[X.ActiveCase(at.typ.cases, at.value.disc)].name})
    {
      CandidateBelow(tree.nodes, tree.place, tree.roots, tree.types, i, at, listed, j);
    }
    found := None;
    if at.typ.Union? {
      var member := at.typ.cases[X.ActiveCase(at.typ.cases, at.value.disc)].name;
      if member in tree.nodes[i].children {
        HasMembers(tree.nodes, tree.place, tree.roots, tree.types, i, member);
        ActiveMember(at.typ, at.value);
        found := SearchMember(tree, i, at, listed, member);
      }
    } else if at.typ.Struct? {
      var names := tree.nodes[i].children.Keys;
      while names != {} && found.None?
        invariant names <= tree.nodes[i].children.Keys
        invariant found.Some? ==> Topmost(tree.place, i, at, listed, found.value)
        invariant found.None? ==> forall j | Candidate(tree.place, i, at, listed, j) :: Via(tree.place, i, j, names)
        decreases |names|
      {
        var name :| name in names;
        HasMembers(tree.nodes, tree.place, tree.roots, tree.types, i, name);
        if MemberType(at.typ, name).Some? {
          found := SearchMember(tree, i, at, listed, name);
        }
        names := names - {name};
      }
    }
  }

  /** The search below one child of a node whose own type is not listed. */
  method SearchMember(tree: NavigationTree, i: nat, at: Located, listed: seq<string>, name: string)
    returns (found: Option<nat>)
    requires tree.Valid() && i < |tree.nodes| && X.WellTyped(at.typ, at.value)
    requires tree.TypeOf(i) == at.typ && Identifiers(at.typ) && Name(at.typ) !in listed && !at.typ.Alias?
    requires name in tree.nodes[i].children && MemberType(at.typ, name).Some?
    requires at.typ.Union? ==> X.ActiveCase(at.typ.cases, at.value.disc) == MemberAt(at.typ, name)
    ensures found.Some? ==> Topmost(tree.place, i, at, listed, found.value)
    ensures found.None? ==> forall j | Candidate(tree.place, i, at, listed, j) :: !Via(tree.place, i, j, {name})
    decreases at.typ, 0
  {
    ghost var (ns, ps, roots, types) := (tree.nodes, tree.place, tree.roots, tree.types);
    assert GoodNode(ns, ps, roots, types, i);
    var c := tree.nodes[i].children[name];
    ChildData(ns, ps, roots, types, i, name, at.typ);
    MemberIdentifiers(at.typ, name);
    ResolveSmaller(MemberType(at.typ, name).value);
    FollowStep(at, name, []);
    var m := MemberData(at, name).value;
    found := Search(tree, c, m, listed);
    if found.Some? {
      FoundBelow(ps, i, c, at, name, listed, found.value);
    } else {
      forall j | Candidate(ps, i, at, listed, j) ensures !Via(ps, i, j, {name}) {
        CandidateBelow(ns, ps, roots, types, i, at, listed, j);
      }
    }
  }

  /** What the search in a whole message yields: the type name of a root that is not there, a node, or nothing. */
  datatype Found = Whole(typeName: string) | InTree(node: nat) | Nothing

  /** The message gives itself the type behind any alias, so the type is none here. */
  method GetDiscriminator(tree: NavigationTree, t: X.XType, v: X.Value, listed: seq<string>) returns (found: Found)
    requires tree.Valid() && X.WellTyped(t, v) && Identifiers(t) && !t.Alias?
    requires Name(t) in tree.roots ==> Name(t) in tree.types && tree.types[Name(t)] == t
    ensures found.Whole? <==> Name(t) !in tree.roots
    ensures found.Whole? ==> found.typeName == Name(t)
    ensures found.InTree? ==> Topmost(tree.place, tree.roots[Name(t)], Located(t, v), listed, found.node)
    ensures found.Nothing? ==> forall j :: !Candidate(tree.place, tree.roots[Name(t)], Located(t, v), listed, j)
  {
    if Name(t) !in tree.roots {
      return Whole(Name(t));
    }
    var root := tree.roots[Name(t)];
    if Name(t) in listed {
      assert NamesFrom(tree.place, root, root) == [];
      return InTree(root);
    }
    var below := Search(tree, root, Located(t, v), listed);
    found := if below.Some? then InTree(below.value) else Nothing;
  }

  /** The path the search leads to. */
  function PathFound(tree: NavigationTree, found: Found): string
    requires tree.Valid() && !found.Nothing? && (found.InTree? ==> found.node < |tree.nodes|)
    reads tree
  {
    if found.Whole? then found.typeName else tree.GetPath(found.node)
  }

  /** Live data is of the type its path leads to. */
  lemma {:induction false} FollowReaches(at: Located, names: seq<string>)
    requires X.WellTyped(at.typ, at.value) && !at.typ.Alias? && Follow(at, names).Some?
    ensures DataWalk(at.typ, names) == Some(Follow(at, names).value.typ)
    ensures X.WellTyped(Follow(at, names).value.typ, Follow(at, names).value.value)
    decreases |names|
  {
    if names != [] {
      MemberWellTyped(at, names[0]);
      FollowReaches(MemberData(at, names[0]).value, names[1..]);
      SameWalk(MemberType(at.typ, names[0]).value, names[1..]);
    }
  }

  /** Live data that a node stands for is of the type of the node, behind its aliases. */
  lemma LiveType(tree: NavigationTree, t: X.XType, v: X.Value, j: nat)
    requires tree.Valid() && X.WellTyped(t, v) && !t.Alias? && j < |tree.nodes|
    requires Name(t) in tree.roots && Name(t) in tree.types && tree.types[Name(t)] == t && tree.place[j].root == Name(t)
    requires Follow(Located(t, v), tree.place[j].names).Some?
    ensures Follow(Located(t, v), tree.place[j].names).value.typ == X.Resolve(tree.TypeOf(j))
  {
    assert GoodNode(tree.nodes, tree.place, tree.roots, tree.types, j);
    FollowReaches(Located(t, v), tree.place[j].names);
    ValidReaches(t, tree.place[j].names);
  }

  /**
   The nodes that can be found are those whose data is live and whose type, behind its aliases, is
   listed: a type that is listed by the name of an alias is not found.
   */
  lemma FoundByTrueName(tree: NavigationTree, t: X.XType, v: X.Value, listed: seq<string>, j: nat)
    requires tree.Valid() && X.WellTyped(t, v) && !t.Alias? && j < |tree.nodes|
    requires Name(t) in tree.roots && Name(t) in tree.types && tree.types[Name(t)] == t
    ensures Candidate(tree.place, tree.roots[Name(t)], Located(t, v), listed, j) <==>
              && tree.place[j].root == Name(t) && Follow(Located(t, v), tree.place[j].names).Some?
              && Name(X.Resolve(tree.TypeOf(j))) in listed
  {
    assert tree.place[tree.roots[Name(t)]] == Place(Name(t), []);
    if tree.place[j].root == Name(t) {
      assert NamesFrom(tree.place, tree.roots[Name(t)], j) == tree.place[j].names;
      if Follow(Located(t, v), tree.place[j].names).Some? {
        LiveType(tree, t, v, j);
      }
    }
  }

  /** What a reader of tokens makes of the path of a node. */
  lemma PathTokens(tree: NavigationTree, j: nat)
    requires tree.Valid() && Named(tree.nodes) && j < |tree.nodes|
    ensures var tokens := Tokens(tree.GetPath(j));
            if tokens == [] then tree.place[j].names == [] else tokens[1..] == tree.place[j].names
  {
    assert GoodNode(tree.nodes, tree.place, tree.roots, tree.types, j);
    if tree.place[j].names != [] || tree.nodes[j].typeName != "" {
      tree.GetPathPrintsPlace(j);
      var tokens := [tree.place[j].root] + tree.place[j].names;
      TokensJoin(tokens);
      assert tokens[1..] == tree.place[j].names;
    }
  }

  /**
   The path of a node found, followed in the message, leads to the live data the node stands for,
   which is of a listed type.
   */
  lemma FoundIsReached(tree: NavigationTree, t: X.XType, v: X.Value, listed: seq<string>, j: nat)
    requires tree.Valid() && Named(tree.nodes) && X.WellTyped(t, v) && !t.Alias?
    requires Name(t) in tree.roots && Name(t) in tree.types && tree.types[Name(t)] == t
    requires Candidate(tree.place, tree.roots[Name(t)], Located(t, v), listed, j)
    ensures var at := AccessMemberData(t, v, tree.GetPath(j));
            && at.Some? && Name(at.value.typ) in listed
            && at == Follow(Located(t, v), tree.place[j].names)
            && at.value.typ == X.Resolve(tree.TypeOf(j))
  {
    var (ns, ps, root) := (tree.nodes, tree.place, tree.roots[Name(t)]);
    assert ps[root] == Place(Name(t), []);
    assert NamesFrom(ps, root, j) == ps[j].names;
    LiveType(tree, t, v, j);
    PathTokens(tree, j);
    if Tokens(tree.GetPath(j)) != [] {
      AccessFollows(Located(t, v), Tokens(tree.GetPath(j)), 1);
    }
  }

  /** The path of a message whose type has no root leads to the whole message. */
  lemma WholeIsReached(t: X.XType, v: X.Value, name: string)
    requires X.WellTyped(t, v) && '.' !in name
    ensures AccessMemberData(t, v, name) == Some(DataOf(t, v))
  {
    X.ResolveKeepsValues(t, v);
    if name != "" {
      TokensJoin([name]);
      assert Join([name]) == name;
    }
  }

  /** A node found, other than a root without its type name, is named after its type. */
  lemma FoundIsNamed(tree: NavigationTree, j: nat)
    requires tree.Valid() && j < |tree.nodes| && (tree.nodes[j].parent.Some? || tree.nodes[j].typeName != "")
    ensures tree.nodes[j].typeName == Name(tree.TypeOf(j))
  {
    assert GoodNode(tree.nodes, tree.place, tree.roots, tree.types, j);
  }

  // ---------------------------------------------------------------------------------------------
  // From the paths added

  /** The message is of the type of the path, and it or something on the way along the path is live and listed. */
  ghost predicate PathIsLive(a: (X.XType, string), t: X.XType, v: X.Value, listed: seq<string>)
    requires X.WellTyped(t, v)
  {
    && Name(a.0) == Name(t)
    && exists k :: 0 <= k <= |ValidPart(a.0, a.1)| && Live(Located(t, v), ValidPart(a.0, a.1)[..k], listed)
  }

  /** There is a root for a type exactly when a path was added for it. */
  lemma RootsOfPaths(tree: NavigationTree, n: string)
    requires tree.Valid() && tree.Recorded()
    ensures n in tree.roots <==> exists a | a in tree.added :: Name(a.0) == n
  {
    if n in tree.roots {
      assert tree.place[tree.roots[n]] == Place(n, []);
      assert tree.place[tree.roots[n]] in PlaceSet(tree.place);
      StoredBySome(tree.added, Place(n, []));
      var a :| a in tree.added && Place(n, []) in Stored(a.0, a.1);
      StoredAre(a.0, a.1, Place(n, []));
    }
    forall a | a in tree.added ensures Name(a.0) in tree.roots {
      AddedHaveRoots(tree.nodes, tree.place, tree.roots, tree.types, tree.added, a);
    }
  }

  /** Below a root, node `j` is a candidate when the data at its place is live and listed. */
  lemma CandidateOfRoot(tree: NavigationTree, t: X.XType, v: X.Value, listed: seq<string>, j: nat)
    requires tree.Valid() && Name(t) in tree.roots && X.WellTyped(t, v) && j < |tree.place|
    ensures Candidate(tree.place, tree.roots[Name(t)], Located(t, v), listed, j) <==>
              tree.place[j].root == Name(t) && Live(Located(t, v), tree.place[j].names, listed)
  {
    var root := tree.roots[Name(t)];
    assert tree.place[root] == Place(Name(t), []);
    if tree.place[j].root == Name(t) {
      assert NamesFrom(tree.place, root, j) == tree.place[j].names;
    }
  }

  lemma CandidateIsOnPath(tree: NavigationTree, t: X.XType, v: X.Value, listed: seq<string>, j: nat)
    returns (a: (X.XType, string))
    requires tree.Valid() && tree.Recorded() && Name(t) in tree.roots && X.WellTyped(t, v)
    requires Candidate(tree.place, tree.roots[Name(t)], Located(t, v), listed, j)
    ensures a in tree.added && PathIsLive(a, t, v, listed)
  {
    CandidateOfRoot(tree, t, v, listed, j);
    assert tree.place[j] in PlaceSet(tree.place);
    StoredBySome(tree.added, tree.place[j]);
    a :| a in tree.added && tree.place[j] in Stored(a.0, a.1);
    StoredAre(a.0, a.1, tree.place[j]);
  }

  lemma PathHasCandidate(tree: NavigationTree, t: X.XType, v: X.Value, listed: seq<string>, a: (X.XType, string))
    returns (j: nat)
    requires tree.Valid() && tree.Recorded() && Name(t) in tree.roots && X.WellTyped(t, v)
    requires a in tree.added && PathIsLive(a, t, v, listed)
    ensures Candidate(tree.place, tree.roots[Name(t)], Located(t, v), listed, j)
  {
    var k :| 0 <= k <= |ValidPart(a.0, a.1)| && Live(Located(t, v), ValidPart(a.0, a.1)[..k], listed);
    var p := Place(Name(t), ValidPart(a.0, a.1)[..k]);
    StoredAre(a.0, a.1, p);
    StoredIsKept(tree.added, a.0, a.1, p);
    assert p in PlaceSet(tree.place);
    j :| 0 <= j < |tree.place| && tree.place[j] == p;
    CandidateOfRoot(tree, t, v, listed, j);
  }

  /** The search has something to find exactly when a path added is live. */
  lemma LivePathsAreFound(tree: NavigationTree, t: X.XType, v: X.Value, listed: seq<string>)
    requires tree.Valid() && tree.Recorded() && Name(t) in tree.roots && X.WellTyped(t, v)
    ensures (exists j :: Candidate(tree.place, tree.roots[Name(t)], Located(t, v), listed, j)) <==>
            exists a :: a in tree.added && PathIsLive(a, t, v, listed)
  {
    if j: nat :| Candidate(tree.place, tree.roots[Name(t)], Located(t, v), listed, j) {
      var a := CandidateIsOnPath(tree, t, v, listed, j);
    }
    if a :| a in tree.added && PathIsLive(a, t, v, listed) {
      var j := PathHasCandidate(tree, t, v, listed, a);
    }
  }
}
