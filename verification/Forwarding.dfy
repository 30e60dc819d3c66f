/** A request forwarded and answered, from the configuration of the client to the data its reply is placed at. */
module Forwarding {
  import opened Options
  import opened Strings
  import opened Paths
  import opened Navigation
  import opened Correlation
  import R = Routing
  import S = ServerSide
  import X = XTypes

  /**
   In every run, each reply written by a client that was configured so has its body placed at data of
   the reply type configured for the type of the node found in its request. `reply` is the reply it is
   placed in.
   */
  lemma ReplyIsPlaced(
    b: Bridge, steps: seq<Step>, states: seq<State>, k: nat, o: Output,
    ts: R.ServiceTypes, cs: seq<(R.Configuration, R.Callback)>, r: R.Tables, reply: X.Value)
    requires IsRun(b, steps, states) && k < |states| && o in states[k].outputs && o.request in states[k].arrivals
    requires r == R.Configured(ts, cs) && o.request.client in b.clients && b.clients[o.request.client] == R.Routes(r, ts)
    requires var q := states[k].arrivals[o.request].node; q in r.requestReply && r.requestReply[q] in r.asReply
    requires o.path != "" && o.path[|o.path| - 1] != '.' && Walk(ts.reply, Split(o.path)[1..]).Some?
    requires X.WellTyped(ts.reply, reply)
    ensures var (at, u) := (AccessMemberData(ts.reply, reply, o.path), Walk(ts.reply, Split(o.path)[1..]).value);
            && at.Some? && at.value.typ == X.Resolve(u)
            && R.Stripped(Name(u)) == r.requestReply[states[k].arrivals[o.request].node]
    ensures o.readAt == S.ReplyPath(b.server, states[k].arrivals[o.request].typ)
    ensures exists i :: i in states[k].issued && Reply(i, o.body) in states[k].replies
  {
    EndToEnd(b, steps, states, k);
    R.ReplyHasItsPlace(ts, cs, r, states[k].arrivals[o.request].node, reply);
  }

  /**
   A request that arrives by the names of a part of a received message: the reply is read for the
   very type it is placed for exactly when the node found has a name, and its type is declared by no
   alias of another name. Otherwise the node's name is another, and the reply goes to its path.
   */
  lemma ReadAndPlaced(
    b: Bridge, steps: seq<Step>, states: seq<State>, k: nat, o: Output,
    tree: NavigationTree, t: X.XType, v: X.Value, p: R.Part, j: nat)
    requires IsRun(b, steps, states) && k < |states| && o in states[k].outputs && o.request in states[k].arrivals
    requires R.IsPartUnder(tree, t, v, p, j)
    requires states[k].arrivals[o.request].node == p.typeName && states[k].arrivals[o.request].typ == Name(p.message.typ)
    ensures o.readAt == S.ReplyPath(b.server, Name(X.Resolve(tree.TypeOf(j))))
    ensures o.path == S.ReplyPath(ClientConfig(b, o.request.client), p.typeName)
    ensures p.typeName == Name(X.Resolve(tree.TypeOf(j))) <==>
              R.HasName(tree, j) && Name(X.Resolve(tree.TypeOf(j))) == Name(tree.TypeOf(j))
  {
    EndToEnd(b, steps, states, k);
    R.NamesCoincide(tree, t, v, p, j);
  }
}
