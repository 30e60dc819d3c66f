/**
 The tree of configured member paths: grown in place, searched along live data, printed back as
 dotted paths. Nodes are kept in the order they are made, and refer to each other by position.
 */
module Navigation {
  import opened Options
  import opened Strings
  import opened Paths
  import X = XTypes

  datatype Node = Node(memberName: string, typeName: string, children: map<string, nat>, parent: Option<nat>)

  /** Where a node stands: under which root, at the end of which member names. */
  datatype Place = Place(root: string, names: seq<string>)

  lemma ValidStep(t: X.XType, path: string)
    requires path != ""
    ensures LongestValid(t, Tokens(path)) ==
            match MemberType(t, FirstToken(path))
            case None => []
            case Some(m) => [FirstToken(path)] + LongestValid(m, Tokens(AfterFirst(path)))
    ensures '.' !in FirstToken(path)
  {
    TokensParts(path);
  }

  /** The places on the way from `base` along `names`, both ends included. */
  function Along(root: string, base: seq<string>, names: seq<string>): set<Place>
    decreases |names|
  {
    {Place(root, base)} + if names == [] then {} else Along(root, base + [names[0]], names[1..])
  }

  lemma {:induction false} AlongAre(root: string, base: seq<string>, names: seq<string>, p: Place)
    ensures p in Along(root, base, names) <==> exists k | 0 <= k <= |names| :: p == Place(root, base + names[..k])
    decreases |names|
  {
    assert base + names[..0] == base;
    if names != [] {
      var b, rest := base + [names[0]], names[1..];
      AlongAre(root, b, rest, p);
      assert forall k | 0 <= k <= |rest| :: b + rest[..k] == base + names[..k + 1];
      if k :| 0 <= k <= |names| && p == Place(root, base + names[..k]) {
        if k > 0 {
          assert p == Place(root, b + rest[..k - 1]);
        }
      }
    }
  }

  lemma AlongStep(root: string, base: seq<string>, name: string, rest: seq<string>)
    ensures Along(root, base, []) == {Place(root, base)}
    ensures Along(root, base, [name] + rest) == {Place(root, base)} + Along(root, base + [name], rest)
  {
    assert ([name] + rest)[1..] == rest;
  }

  type Types = map<string, X.XType>

  /** Every member, at any depth of aggregations, has a name of its own. */
  predicate Identifiers(t: X.XType) {
    match t
    case Struct(_, ms) =>
      && (forall m | m in ms :: m.name != "" && Identifiers(m.typ))
      && forall i, j | 0 <= i < j < |ms| :: ms[i].name != ms[j].name
    case Union(_, _, _, cs) =>
      && (forall c | c in cs :: c.name != "" && Identifiers(c.typ))
      && forall i, j | 0 <= i < j < |cs| :: cs[i].name != cs[j].name
    case _ => true
  }

  lemma MemberIdentifiers(t: X.XType, name: string)
    requires Identifiers(t) && MemberType(t, name).Some?
    ensures name != "" && Identifiers(MemberType(t, name).value)
  {
  }

  /** What is known of one node, from the type its root was made for. */
  ghost predicate GoodNode(ns: seq<Node>, ps: seq<Place>, roots: map<string, nat>, types: Types, i: nat)
    requires |ps| == |ns| && i < |ns|
  {
    var (n, p) := (ns[i], ps[i]);
    && p.root in types && p.root in roots && Walk(types[p.root], p.names).Some?
    && (if n.parent.None?
        then p.names == [] && roots[p.root] == i && (n.typeName == "" || (n.typeName == p.root && '.' !in p.root))
        else n.typeName == Name(Walk(types[p.root], p.names).value) && GoodLink(ns, ps, i))
    && (forall k | k in n.children :: GoodChild(ns, i, k))
  }

  /** The parent link: back to the node one name short, which has this one under that name. */
  ghost predicate GoodLink(ns: seq<Node>, ps: seq<Place>, i: nat)
    requires |ps| == |ns| && i < |ns| && ns[i].parent.Some?
  {
    var (n, up) := (ns[i], ns[i].parent.value);
    && up < i && ps[i] == Place(ps[up].root, ps[up].names + [n.memberName]) && '.' !in n.memberName && n.memberName != ""
    && n.memberName in ns[up].children && ns[up].children[n.memberName] == i
  }

  ghost predicate GoodChild(ns: seq<Node>, i: nat, name: string)
    requires i < |ns| && name in ns[i].children
  {
    var c := ns[i].children[name];
    i < c < |ns| && ns[c].memberName == name && ns[c].parent == Some(i)
  }

  ghost predicate Tree(ns: seq<Node>, ps: seq<Place>, roots: map<string, nat>, types: Types) {
    && |ps| == |ns| && roots.Keys == types.Keys
    && (forall n | n in types :: Name(types[n]) == n && n != "")
    && (forall i | 0 <= i < |ns| :: GoodNode(ns, ps, roots, types, i))
    && (forall n | n in roots :: roots[n] < |ns| && ns[roots[n]].parent.None? && ps[roots[n]] == Place(n, []))
  }

  /** A root that has children has its type name set. */
  ghost predicate Named(ns: seq<Node>) {
    forall i | 0 <= i < |ns| && ns[i].parent.None? && ns[i].children != map[] :: ns[i].typeName != ""
  }

  /** Nodes stay what they are and where they stand; they may only gain children. */
  ghost predicate Grown(ns: seq<Node>, ps: seq<Place>, ns': seq<Node>, ps': seq<Place>)
    requires |ps| == |ns|
  {
    && |ns| <= |ns'| && |ps'| == |ns'| && (forall j | 0 <= j < |ns| :: ps'[j] == ps[j] && NodeGrown(ns[j], ns'[j]))
    && (forall j | |ns| <= j < |ns'| :: ns'[j].parent.Some?)
  }

  /** Roots other than `i` are as they were. */
  ghost predicate RootsKept(ns: seq<Node>, ns': seq<Node>, i: nat)
    requires |ns| <= |ns'|
  {
    forall j | 0 <= j < |ns| && j != i && ns[j].parent.None? :: ns'[j] == ns[j]
  }

  lemma GrownTwice(
    ns: seq<Node>, ps: seq<Place>, ns1: seq<Node>, ps1: seq<Place>, ns2: seq<Node>, ps2: seq<Place>, i: nat, c: nat)
    requires |ns| == |ps| && |ns1| == |ps1|
    requires Grown(ns, ps, ns1, ps1) && Grown(ns1, ps1, ns2, ps2)
    requires RootsKept(ns, ns1, i) && RootsKept(ns1, ns2, c) && c < |ns1| && ns1[c].parent.Some?
    ensures Grown(ns, ps, ns2, ps2) && RootsKept(ns, ns2, i)
  {
    forall j | 0 <= j < |ns| ensures ps2[j] == ps[j] && NodeGrown(ns[j], ns2[j]) {
      assert NodeGrown(ns[j], ns1[j]) && NodeGrown(ns1[j], ns2[j]);
    }
  }

  ghost predicate NodeGrown(n: Node, m: Node) {
    && m.(children := map[]) == n.(children := map[])
    && forall k | k in n.children :: k in m.children && m.children[k] == n.children[k]
  }

  /** As `Grown`, but the root `i` may have got its type name. */
  ghost predicate Kept(ns: seq<Node>, ns': seq<Node>, i: nat) {
    && |ns| <= |ns'|
    && (forall j | 0 <= j < |ns| && j != i :: NodeGrown(ns[j], ns'[j]))
    && (i < |ns| ==> NodeGrown(ns[i].(typeName := ""), ns'[i].(typeName := "")))
  }

  lemma KeptFrom(ns: seq<Node>, ns1: seq<Node>, ns2: seq<Node>, i: nat)
    requires ns <= ns1 && Kept(ns1, ns2, i)
    ensures Kept(ns, ns2, i)
  {
  }

  function PlaceSet(ps: seq<Place>): set<Place> {
    set p | p in ps
  }

  function WithChild(ns: seq<Node>, i: nat, name: string, typeName: string): seq<Node>
    requires i < |ns|
  {
    ns[i := ns[i].(children := ns[i].children[name := |ns|])] + [Node(name, typeName, map[], Some(i))]
  }

  lemma NodeStays(
    ns: seq<Node>, ps: seq<Place>, roots: map<string, nat>, types: Types,
    i: nat, name: string, typeName: string, p: Place, j: nat)
    requires |ps| == |ns| && i < |ns| && name !in ns[i].children && j < |ns|
    requires GoodNode(ns, ps, roots, types, j)
    ensures GoodNode(WithChild(ns, i, name, typeName), ps + [p], roots, types, j)
  {
    var ns', ps' := WithChild(ns, i, name, typeName), ps + [p];
    if ns[j].parent.Some? {
      assert GoodLink(ns, ps, j);
      assert GoodLink(ns', ps', j);
    }
    forall k | k in ns'[j].children ensures GoodChild(ns', j, k) {
      if k in ns[j].children {
        assert GoodChild(ns, j, k);
      }
    }
  }

  lemma NewNode(ns: seq<Node>, ps: seq<Place>, roots: map<string, nat>, types: Types, i: nat, name: string, t: X.XType)
    requires |ps| == |ns| && i < |ns| && GoodNode(ns, ps, roots, types, i) && '.' !in name && name != ""
    requires Walk(types[ps[i].root], ps[i].names + [name]) == Some(t)
    ensures GoodNode(WithChild(ns, i, name, Name(t)), ps + [Place(ps[i].root, ps[i].names + [name])], roots, types, |ns|)
  {
    assert GoodLink(WithChild(ns, i, name, Name(t)), ps + [Place(ps[i].root, ps[i].names + [name])], |ns|);
  }

  lemma ChildAdds(ns: seq<Node>, ps: seq<Place>, i: nat, name: string, typeName: string, p: Place)
    requires |ps| == |ns| && i < |ns| && name !in ns[i].children
    ensures var ns' := WithChild(ns, i, name, typeName); Grown(ns, ps, ns', ps + [p]) && RootsKept(ns, ns', i)
    ensures PlaceSet(ps + [p]) == PlaceSet(ps) + {p}
  {
  }

  lemma NodeAdded(ns: seq<Node>, ps: seq<Place>, roots: map<string, nat>, types: Types, i: nat, name: string, t: X.XType)
    requires Tree(ns, ps, roots, types) && i < |ns| && name !in ns[i].children && '.' !in name && name != ""
    requires ps[i].root in types && Walk(types[ps[i].root], ps[i].names + [name]) == Some(t)
    ensures var (ns', ps') := (WithChild(ns, i, name, Name(t)), ps + [Place(ps[i].root, ps[i].names + [name])]);
            && Tree(ns', ps', roots, types) && Grown(ns, ps, ns', ps') && RootsKept(ns, ns', i)
            && PlaceSet(ps') == PlaceSet(ps) + {Place(ps[i].root, ps[i].names + [name])}
  {
    var ns', ps' := WithChild(ns, i, name, Name(t)), ps + [Place(ps[i].root, ps[i].names + [name])];
    forall j | 0 <= j < |ns'| ensures GoodNode(ns', ps', roots, types, j) {
      if j < |ns| {
        NodeStays(ns, ps, roots, types, i, name, Name(t), ps'[|ns|], j);
      } else {
        assert GoodNode(ns, ps, roots, types, i);
        NewNode(ns, ps, roots, types, i, name, t);
      }
    }
    ChildAdds(ns, ps, i, name, Name(t), ps'[|ns|]);
  }

  /** A child stands one name below its parent. */
  lemma ChildStands(ns: seq<Node>, ps: seq<Place>, roots: map<string, nat>, types: Types, i: nat, name: string)
    requires Tree(ns, ps, roots, types) && i < |ns| && name in ns[i].children
    ensures var c := ns[i].children[name];
            i < c < |ns| && ns[c].parent == Some(i) && ps[c] == Place(ps[i].root, ps[i].names + [name]) && ps[c] in ps
  {
    var c := ns[i].children[name];
    assert GoodNode(ns, ps, roots, types, i);
    assert GoodChild(ns, i, name);
    assert GoodNode(ns, ps, roots, types, c);
    assert GoodLink(ns, ps, c);
    assert ps[c] in ps;
  }

  /** No two nodes stand in the same place. */
  lemma {:induction false} OnePlaceEach(ns: seq<Node>, ps: seq<Place>, roots: map<string, nat>, types: Types, i: nat, j: nat)
    requires Tree(ns, ps, roots, types) && i < |ns| && j < |ns| && ps[i] == ps[j]
    ensures i == j
    decreases i
  {
    assert GoodNode(ns, ps, roots, types, i) && GoodNode(ns, ps, roots, types, j);
    if ns[i].parent.Some? {
      assert |ps[i].names| > 0;
      assert ns[j].parent.Some?;
      var a, b := ns[i].parent.value, ns[j].parent.value;
      assert ps[a].names == ps[i].names[..|ps[i].names| - 1] == ps[b].names;
      assert ps[i].names[|ps[i].names| - 1] == ns[i].memberName == ns[j].memberName;
      OnePlaceEach(ns, ps, roots, types, a, b);
    }
  }

  /** What one path makes the tree hold: the root, and the way along its longest valid part. */
  function Stored(t: X.XType, path: string): set<Place> {
    {Place(Name(t), [])} +
    if FirstToken(path) == Name(t) then Along(Name(t), [], LongestValid(t, Tokens(AfterFirst(path)))) else {}
  }

  function AllStored(added: seq<(X.XType, string)>): set<Place> {
    if added == [] then {}
    else AllStored(added[..|added| - 1]) + Stored(added[|added| - 1].0, added[|added| - 1].1)
  }

  /** A path that gives its root the name: it starts with it, and goes on, if at all, with a member. */
  predicate Accepted(t: X.XType, path: string) {
    FirstToken(path) == Name(t) && (AfterFirst(path) == "" || LongestValid(t, Tokens(AfterFirst(path))) != [])
  }

  lemma StoredOneMore(added: seq<(X.XType, string)>, t: X.XType, path: string)
    ensures AllStored(added + [(t, path)]) == AllStored(added) + {Place(Name(t), [])} +
            if Accepted(t, path) then Along(Name(t), [], LongestValid(t, Tokens(AfterFirst(path)))) else {}
  {
    assert (added + [(t, path)])[..|added|] == added;
  }

  lemma {:induction false} StoredIsKept(added: seq<(X.XType, string)>, t: X.XType, path: string, p: Place)
    requires (t, path) in added && p in Stored(t, path)
    ensures p in AllStored(added)
  {
    if added[|added| - 1] != (t, path) {
      StoredIsKept(added[..|added| - 1], t, path, p);
    }
  }

  /** What the tree holds comes from some path. */
  lemma {:induction false} StoredBySome(added: seq<(X.XType, string)>, p: Place)
    requires p in AllStored(added)
    ensures exists a | a in added :: p in Stored(a.0, a.1)
  {
    var last := added[|added| - 1];
    if p !in Stored(last.0, last.1) {
      StoredBySome(added[..|added| - 1], p);
    }
  }

  /** The member names a path adds below its root. */
  function ValidPart(t: X.XType, path: string): seq<string> {
    if FirstToken(path) == Name(t) then LongestValid(t, Tokens(AfterFirst(path))) else []
  }

  lemma StoredAre(t: X.XType, path: string, p: Place)
    ensures p in Stored(t, path) <==>
              exists k | 0 <= k <= |ValidPart(t, path)| :: p == Place(Name(t), ValidPart(t, path)[..k])
  {
    AlongAre(Name(t), [], ValidPart(t, path), p);
    assert forall k | 0 <= k <= |ValidPart(t, path)| :: [] + ValidPart(t, path)[..k] == ValidPart(t, path)[..k];
    assert ValidPart(t, path)[..0] == [];
  }

  /** The roots that have their name are those of the paths accepted. */
  ghost predicate RootsNamed(ns: seq<Node>, roots: map<string, nat>, added: seq<(X.XType, string)>)
    requires forall n | n in roots :: roots[n] < |ns|
  {
    forall n | n in roots ::
      ns[roots[n]].typeName != "" <==> exists a | a in added :: Name(a.0) == n && Accepted(a.0, a.1)
  }

  /** Every path added has its root. */
  lemma AddedHaveRoots(
    ns: seq<Node>, ps: seq<Place>, roots: map<string, nat>, types: Types, added: seq<(X.XType, string)>, a: (X.XType, string))
    requires Tree(ns, ps, roots, types) && PlaceSet(ps) == AllStored(added) && a in added
    ensures Name(a.0) in roots
  {
    var p := Place(Name(a.0), []);
    StoredIsKept(added, a.0, a.1, p);
    var i :| 0 <= i < |ps| && ps[i] == p;
    assert GoodNode(ns, ps, roots, types, i);
  }

  lemma OtherRootsKept(
    ns: seq<Node>, ps: seq<Place>, roots: map<string, nat>, types: Types, ns': seq<Node>, root: nat, name: string)
    requires Tree(ns, ps, roots, types) && Kept(ns, ns', root) && if name in roots then root == roots[name] else |ns| <= root
    ensures forall n | n in roots && n != name :: roots[n] != root && ns'[roots[n]].typeName == ns[roots[n]].typeName
  {
    forall n | n in roots && n != name ensures roots[n] != root && ns'[roots[n]].typeName == ns[roots[n]].typeName {
      assert ps[roots[n]] == Place(n, []);
      assert NodeGrown(ns[roots[n]], ns'[roots[n]]);
    }
  }

  /** One more path names its root if it is accepted, and no other. */
  lemma OneMoreNamed(
    ns: seq<Node>, roots: map<string, nat>, added: seq<(X.XType, string)>,
    ns': seq<Node>, roots': map<string, nat>, t: X.XType, path: string)
    requires (forall n | n in roots :: roots[n] < |ns|) && (forall n | n in roots' :: roots'[n] < |ns'|) && |ns| <= |ns'|
    requires RootsNamed(ns, roots, added) && (forall a | a in added :: Name(a.0) in roots) && Name(t) != ""
    requires Name(t) in roots' && roots' == roots[Name(t) := roots'[Name(t)]]
    requires forall n | n in roots && n != Name(t) :: ns'[roots[n]].typeName == ns[roots[n]].typeName
    requires var was := if Name(t) in roots then ns[roots[Name(t)]].typeName else "";
             ns'[roots'[Name(t)]].typeName == if Accepted(t, path) then Name(t) else was
    ensures RootsNamed(ns', roots', added + [(t, path)])
  {
    var all := added + [(t, path)];
    assert forall a :: a in all <==> a in added || a == (t, path);
    forall n | n in roots'
      ensures ns'[roots'[n]].typeName != "" <==> exists a | a in all :: Name(a.0) == n && Accepted(a.0, a.1)
    {
      if n == Name(t) && Accepted(t, path) {
        assert (t, path) in all;
      }
    }
  }

  lemma NamesRecorded(
    ns: seq<Node>, ps: seq<Place>, roots: map<string, nat>, types: Types, added: seq<(X.XType, string)>,
    ns': seq<Node>, roots': map<string, nat>, t: X.XType, path: string)
    requires Tree(ns, ps, roots, types) && PlaceSet(ps) == AllStored(added) && RootsNamed(ns, roots, added) && Name(t) != ""
    requires Name(t) in roots' && roots' == roots[Name(t) := roots'[Name(t)]] && roots'[Name(t)] < |ns'|
    requires Kept(ns, ns', roots'[Name(t)])
    requires if Name(t) in roots then roots'[Name(t)] == roots[Name(t)] else |ns| <= roots'[Name(t)]
    requires var was := if Name(t) in roots then ns[roots[Name(t)]].typeName else "";
             ns'[roots'[Name(t)]].typeName == if Accepted(t, path) then Name(t) else was
    ensures (forall n | n in roots' :: roots'[n] < |ns'|) && RootsNamed(ns', roots', added + [(t, path)])
  {
    forall a | a in added ensures Name(a.0) in roots {
      AddedHaveRoots(ns, ps, roots, types, added, a);
    }
    OtherRootsKept(ns, ps, roots, types, ns', roots'[Name(t)], Name(t));
    OneMoreNamed(ns, roots, added, ns', roots', t, path);
  }

  lemma FirstTokenDotFree(path: string)
    ensures '.' !in FirstToken(path)
  {
    if path != "" {
      TokensParts(path);
    }
  }

  lemma RootNamed(ns: seq<Node>, ps: seq<Place>, roots: map<string, nat>, types: Types, root: nat, name: string)
    requires Tree(ns, ps, roots, types) && root < |ns| && ns[root].parent.None?
    requires ps[root].root == name && '.' !in name
    ensures Tree(ns[root := ns[root].(typeName := name)], ps, roots, types)
  {
    var ns' := ns[root := ns[root].(typeName := name)];
    forall j | 0 <= j < |ns'| ensures GoodNode(ns', ps, roots, types, j) {
      assert GoodNode(ns, ps, roots, types, j);
      if ns[j].parent.Some? {
        assert GoodLink(ns, ps, j);
        assert GoodLink(ns', ps, j);
      }
      forall k | k in ns'[j].children ensures GoodChild(ns', j, k) {
        assert GoodChild(ns, j, k);
      }
    }
  }

  lemma NamedKept(ns: seq<Node>, ps: seq<Place>, ns': seq<Node>, ps': seq<Place>, root: nat, name: string)
    requires |ps| == |ns| && Named(ns) && Grown(ns, ps, ns', ps') && RootsKept(ns, ns', root) && root < |ns| && name != ""
    ensures Named(ns'[root := ns'[root].(typeName := name)])
  {
  }

  lemma RootAdded(ns: seq<Node>, ps: seq<Place>, roots: map<string, nat>, types: Types, t: X.XType)
    requires Tree(ns, ps, roots, types) && Name(t) !in roots && Name(t) != ""
    ensures Tree(ns + [Node("", "", map[], None)], ps + [Place(Name(t), [])], roots[Name(t) := |ns|], types[Name(t) := t])
  {
    var (ns', ps') := (ns + [Node("", "", map[], None)], ps + [Place(Name(t), [])]);
    var (roots', types') := (roots[Name(t) := |ns|], types[Name(t) := t]);
    forall j | 0 <= j < |ns'| ensures GoodNode(ns', ps', roots', types', j) {
      if j < |ns| {
        assert GoodNode(ns, ps, roots, types, j);
        if ns[j].parent.Some? {
          assert GoodLink(ns, ps, j);
          assert GoodLink(ns', ps', j);
        }
        forall k | k in ns'[j].children ensures GoodChild(ns', j, k) {
          assert GoodChild(ns, j, k);
        }
      }
    }
  }

  class NavigationTree {
    var nodes: seq<Node>
    var roots: map<string, nat>
    ghost var place: seq<Place>  // where each node stands
    ghost var types: Types       // the type each root was made for
    ghost var added: seq<(X.XType, string)>

    ghost predicate Valid()
      reads this
    {
      Tree(nodes, place, roots, types)
    }

    constructor ()
      ensures Valid() && Named(nodes) && Recorded() && nodes == [] && roots == map[] && types == map[] && added == []
    {
      nodes, roots, place, types, added := [], map[], [], map[], [];
    }

    /** The type a node stands for. */
    ghost function TypeOf(i: nat): X.XType
      requires Valid() && i < |nodes|
      reads this
    {
      assert GoodNode(nodes, place, roots, types, i);
      Walk(types[place[i].root], place[i].names).value
    }

    /** The child of that name, made if there is none. */
    method Child(i: nat, name: string, t: X.XType) returns (c: nat)
      requires Valid() && i < |nodes| && MemberType(TypeOf(i), name) == Some(t) && '.' !in name && name != ""
      modifies this`nodes, this`place
      ensures Valid() && Grown(old(nodes), old(place), nodes, place)
      ensures i < c < |nodes| && place[c] == Place(place[i].root, place[i].names + [name]) && TypeOf(c) == t
      ensures PlaceSet(place) == PlaceSet(old(place)) + {place[c]}
      ensures RootsKept(old(nodes), nodes, i) && nodes[c].parent.Some?
    {
      assert GoodNode(nodes, place, roots, types, i);
      WalkSnoc(types[place[i].root], place[i].names, name);
      if name in nodes[i].children {
        c := nodes[i].children[name];
        ChildStands(nodes, place, roots, types, i, name);
      } else {
        c := |nodes|;
        NodeAdded(nodes, place, roots, types, i, name, t);
        nodes := WithChild(nodes, i, name, Name(t));
        place := place + [Place(place[i].root, place[i].names + [name])];
      }
    }

    /** The node for one member, and those for the rest of the path below it. */
    method FillChild(i: nat, name: string, t: X.XType, rest: string)
      requires Valid() && i < |nodes| && MemberType(TypeOf(i), name) == Some(t) && '.' !in name && name != ""
      requires Identifiers(t)
      modifies this`nodes, this`place
      ensures Valid() && Grown(old(nodes), old(place), nodes, place) && RootsKept(old(nodes), nodes, i)
      ensures PlaceSet(place)
           == PlaceSet(old(place)) + Along(place[i].root, place[i].names + [name], LongestValid(t, Tokens(rest)))
      decreases |rest|, 1
    {
      var c := Child(i, name, t);
      if rest != "" {
        ghost var ns, ps := nodes, place;
        FillMemberNode(c, t, rest);
        GrownTwice(old(nodes), old(place), ns, ps, nodes, place, i, c);
      }
    }

    /** Adds the nodes for a path below node `i`, as far as the type has its members. */
    method FillMemberNode(i: nat, t: X.XType, path: string)
      requires Valid() && i < |nodes| && TypeOf(i) == t && Identifiers(t) && path != ""
      modifies this`nodes, this`place
      ensures Valid() && Grown(old(nodes), old(place), nodes, place) && RootsKept(old(nodes), nodes, i)
      ensures PlaceSet(place)
           == PlaceSet(old(place)) + Along(place[i].root, place[i].names, LongestValid(t, Tokens(path)))
      decreases |path|, 0
    {
      ValidStep(t, path);
      assert place[i] in place;
      if !IsAggregation(t) {
        return;
      }
      var member := FirstToken(path);
      var m := MemberType(t, member);
      if m.None? {
        return;
      }
      MemberIdentifiers(t, member);
      AlongStep(place[i].root, place[i].names, member, LongestValid(m.value, Tokens(AfterFirst(path))));
      FillChild(i, member, m.value, AfterFirst(path));
    }

    /** The part of a path after the type's name; refused if its first token is no member. */
    method FillBelowRoot(root: nat, t: X.XType, path: string) returns (accepted: bool)
      requires Valid() && root < |nodes| && TypeOf(root) == t && Identifiers(t)
      modifies this`nodes, this`place
      ensures Valid() && Grown(old(nodes), old(place), nodes, place) && RootsKept(old(nodes), nodes, root)
      ensures accepted <==> path == "" || LongestValid(t, Tokens(path)) != []
      ensures !accepted ==> nodes == old(nodes) && place == old(place)
      ensures PlaceSet(place)
           == PlaceSet(old(place)) + Along(place[root].root, place[root].names, LongestValid(t, Tokens(path)))
    {
      assert place[root] in place;
      if path == "" {
        return true;
      }
      ValidStep(t, path);
      if !IsAggregation(t) {
        return false;
      }
      var member := FirstToken(path);
      var m := MemberType(t, member);
      if m.None? {
        return false;
      }
      MemberIdentifiers(t, member);
      AlongStep(place[root].root, place[root].names, member, LongestValid(m.value, Tokens(AfterFirst(path))));
      FillChild(root, member, m.value, AfterFirst(path));
      accepted := true;
    }

    /**
     Adds the nodes for a path whose first token must be the name of the type. The root gets its
     type name once the path is accepted: its second token, if it has one, is a member of the type.
     */
    method FillRootNode(root: nat, t: X.XType, fullPath: string)
      requires Valid() && Named(nodes) && root < |nodes| && Identifiers(t)
      requires nodes[root].parent.None? && TypeOf(root) == t && place[root] == Place(Name(t), [])
      modifies this`nodes, this`place
      ensures Valid() && Named(nodes) && |old(nodes)| <= |nodes| && old(place) <= place
      ensures nodes[root].typeName == if Accepted(t, fullPath) then Name(t) else old(nodes)[root].typeName
      ensures PlaceSet(place) == PlaceSet(old(place)) +
              if Accepted(t, fullPath) then Along(Name(t), [], LongestValid(t, Tokens(AfterFirst(fullPath)))) else {}
      ensures Kept(old(nodes), nodes, root)
    {
      assert GoodNode(nodes, place, roots, types, root);
      if FirstToken(fullPath) != Name(t) {
        return;
      }
      var accepted := FillBelowRoot(root, t, AfterFirst(fullPath));
      if accepted {
        FirstTokenDotFree(fullPath);
        NameRoot(root, Name(t), old(nodes), old(place));
      }
    }

    /** Sets the type name of a root; the state before the path was added is given for reference. */
    method NameRoot(root: nat, name: string, ghost ns: seq<Node>, ghost ps: seq<Place>)
      requires Valid() && root < |ns| && |ps| == |ns| && name != "" && '.' !in name
      requires Named(ns) && Grown(ns, ps, nodes, place) && RootsKept(ns, nodes, root)
      requires nodes[root].parent.None? && place[root] == Place(name, [])
      modifies this`nodes
      ensures Valid() && Named(nodes) && Kept(ns, nodes, root)
      ensures |nodes| == |old(nodes)| && nodes[root].typeName == name
    {
      RootNamed(nodes, place, roots, types, root, name);
      NamedKept(ns, ps, nodes, place, root, name);
      assert forall j | 0 <= j < |ns| :: NodeGrown(ns[j], nodes[j]);
      nodes := nodes[root := nodes[root].(typeName := name)];
    }

    /** The root of a type, made if there is none. */
    method RootOf(t: X.XType) returns (root: nat)
      requires Valid() && Named(nodes) && Name(t) != ""
      requires Name(t) in types ==> types[Name(t)] == t
      modifies this`nodes, this`place, this`roots, this`types
      ensures Valid() && Named(nodes) && types == old(types)[Name(t) := t]
      ensures Name(t) in roots && root == roots[Name(t)] && root < |nodes|
      ensures nodes[root].parent.None? && TypeOf(root) == t && place[root] == Place(Name(t), [])
      ensures PlaceSet(place) == PlaceSet(old(place)) + {Place(Name(t), [])}
      ensures old(nodes) <= nodes && old(place) <= place && roots == old(roots)[Name(t) := root]
      ensures if Name(t) in old(roots) then root == old(roots)[Name(t)] else root == |old(nodes)| && nodes[root].typeName == ""
    {
      if Name(t) !in roots {
        RootAdded(nodes, place, roots, types, t);
        roots := roots[Name(t) := |nodes|];
        nodes := nodes + [Node("", "", map[], None)];
        place := place + [Place(Name(t), [])];
        types := types[Name(t) := t];
      }
      root := roots[Name(t)];
      assert place[root] in place;
    }

    /** The tree holds exactly what the paths added so far make it hold, and its roots have the names they give. */
    ghost predicate Recorded()
      requires Valid()
      reads this
    {
      PlaceSet(place) == AllStored(added) && RootsNamed(nodes, roots, added)
    }

    /** Adds a path under the root of a type, which is made if there is none. */
    method AddPath(t: X.XType, path: string)
      requires Valid() && Named(nodes) && Name(t) != "" && Identifiers(t)
      requires Name(t) in types ==> types[Name(t)] == t
      modifies this`nodes, this`place, this`roots, this`types
      ensures Valid() && Named(nodes) && types == old(types)[Name(t) := t] && old(place) <= place
      ensures Name(t) in roots && roots == old(roots)[Name(t) := roots[Name(t)]] && Kept(old(nodes), nodes, roots[Name(t)])
      ensures if Name(t) in old(roots) then roots[Name(t)] == old(roots)[Name(t)] else |old(nodes)| <= roots[Name(t)]
      ensures var was := if Name(t) in old(roots) then old(nodes)[old(roots)[Name(t)]].typeName else "";
              nodes[roots[Name(t)]].typeName == if Accepted(t, path) then Name(t) else was
      ensures PlaceSet(place) == PlaceSet(old(place)) + {Place(Name(t), [])} +
              if Accepted(t, path) then Along(Name(t), [], LongestValid(t, Tokens(AfterFirst(path)))) else {}
    {
      var root := RootOf(t);
      ghost var ns := nodes;
      FillRootNode(root, t, path);
      KeptFrom(old(nodes), ns, nodes, root);
    }

    method AddMember(t: X.XType, path: string)
      requires Valid() && Named(nodes) && Recorded() && Name(t) != "" && Identifiers(t)
      requires Name(t) in types ==> types[Name(t)] == t
      modifies this
      ensures Valid() && Named(nodes) && Recorded() && added == old(added) + [(t, path)]
      ensures types == old(types)[Name(t) := t] && old(place) <= place
      ensures Name(t) in roots && Kept(old(nodes), nodes, roots[Name(t)])
      ensures forall n | n in old(roots) :: n in roots && roots[n] == old(roots)[n]
    {
      AddPath(t, path);
      StoredOneMore(added, t, path);
      NamesRecorded(old(nodes), old(place), old(roots), old(types), added, nodes, roots, t, path);
      added := added + [(t, path)];
    }

    /** The dotted path of a node: the type name of its root, then the member names. */
    function GetPath(i: nat): string
      requires Valid() && i < |nodes|
      reads this
      decreases i
    {
      assert GoodNode(nodes, place, roots, types, i);
      if nodes[i].parent.None? then nodes[i].typeName
      else
        assert GoodLink(nodes, place, i);
        GetPath(nodes[i].parent.value) + "." + nodes[i].memberName
    }

    /** The path printed is the place of the node, once the root is named. */
    lemma {:induction false} GetPathPrintsPlace(i: nat)
      requires Valid() && Named(nodes) && i < |nodes|
      requires place[i].names != [] || nodes[i].typeName != ""
      ensures GetPath(i) == Join([place[i].root] + place[i].names)
      ensures '.' !in place[i].root && forall x | x in place[i].names :: '.' !in x
      ensures place[i].names != [] ==> place[i].names[|place[i].names| - 1] != ""
      decreases i
    {
      assert GoodNode(nodes, place, roots, types, i);
      if nodes[i].parent.Some? {
        assert GoodLink(nodes, place, i);
        var up := nodes[i].parent.value;
        assert GoodNode(nodes, place, roots, types, up);
        if nodes[up].parent.Some? {
          assert GoodLink(nodes, place, up);
        }
        GetPathPrintsPlace(up);
        JoinSnoc([place[up].root] + place[up].names, nodes[i].memberName);
        assert [place[up].root] + place[up].names + [nodes[i].memberName] == [place[i].root] + place[i].names;
      }
    }

    /** After a valid path was added there is a node for it, and the node prints the path back. */
    lemma AddedPathIsPrinted(t: X.XType, path: string) returns (i: nat)
      requires Valid() && Named(nodes) && Recorded() && (t, path) in added
      requires FirstToken(path) == Name(t) && AfterFirst(path) != "" && path[|path| - 1] != '.'
      requires Walk(t, Tokens(AfterFirst(path))).Some?
      ensures i < |nodes| && place[i] == Place(Name(t), Tokens(AfterFirst(path))) && GetPath(i) == path
    {
      var names := Tokens(AfterFirst(path));
      LongestValidWhole(t, names);
      AlongAre(Name(t), [], names, Place(Name(t), names));
      assert Place(Name(t), [] + names[..|names|]) == Place(Name(t), names);
      StoredIsKept(added, t, path, Place(Name(t), names));
      i :| 0 <= i < |place| && place[i] == Place(Name(t), names);
      GetPathPrintsPlace(i);
      SameTokens(path);
      TokensParts(path);
      JoinSplit(path);
      assert [Name(t)] + names == Tokens(path);
    }
  }
}
