/** What clients write: one reply for each successful send, and a way to it for every pending request. */
module Replies {
  import opened Options
  import opened ServerSide
  import opened Correlation

  // ---------------------------------------------------------------------------------------------
  // Every send writes one reply

  /** The reply to a delivery: read at the path for the message, placed at the path for the node. */
  function ReplyTo(b: Bridge, s: State, d: nat): Output
    requires d < |s.deliveries| && s.deliveries[d].handle in s.calls
  {
    var x := s.deliveries[d];
    var call := s.calls[x.handle];
    Output(d, call.request, ReplyPath(b.server, call.typ), ReplyPath(ClientConfig(b, call.request.client), call.node),
           x.reply.body)
  }

  lemma SendWrites(b: Bridge, s: State, d: nat)
    requires Inv(b, s) && Enabled(s, Send(d))
    ensures Apply(b, s, Send(d)).outputs == s.outputs + [ReplyTo(b, s, d)]
  {
    DeliveryOrigin(b, s, d);
  }

  /**
   In every run, a send writes exactly one reply: that of its delivery, for the request of its call,
   with the body of a reply to the request the server wrote for it. No other step writes any.
   */
  lemma OneReplyEach(b: Bridge, steps: seq<Step>, states: seq<State>, k: nat)
    requires IsRun(b, steps, states) && k < |steps|
    ensures var (s, t) := (states[k], states[k + 1]);
            match steps[k]
            case Send(d) =>
              && d < |s.deliveries| && s.deliveries[d].handle in s.calls
              && t.outputs == s.outputs + [ReplyTo(b, s, d)]
              && var i := s.deliveries[d].reply.related; i in s.issued && s.issued[i] == s.deliveries[d].handle
            case _ => t.outputs == s.outputs
  {
    RunKeeps(b, steps, states, k);
    if steps[k].Send? {
      SendWrites(b, states[k], steps[k].delivery);
      DeliveryOrigin(b, states[k], steps[k].delivery);
    }
  }

  /** The deliveries sent successfully, in order. */
  function Sends(steps: seq<Step>): seq<nat> {
    if steps == [] then []
    else
      var last := |steps| - 1;
      Sends(steps[..last]) + if steps[last].Send? then [steps[last].delivery] else []
  }

  function Origins(outputs: seq<Output>): seq<nat> {
    seq(|outputs|, k requires 0 <= k < |outputs| => outputs[k].from)
  }

  /** The replies written in a run are those of its successful sends, in that order. */
  lemma {:induction false} WrittenAreSent(b: Bridge, steps: seq<Step>, states: seq<State>, k: nat)
    requires IsRun(b, steps, states) && k < |states|
    ensures Origins(states[k].outputs) == Sends(steps[..k])
  {
    if k > 0 {
      WrittenAreSent(b, steps, states, k - 1);
      OneReplyEach(b, steps, states, k - 1);
      assert steps[..k][..k - 1] == steps[..k - 1] && steps[..k][k - 1] == steps[k - 1];
    }
  }

  // ---------------------------------------------------------------------------------------------
  // Every pending request can be answered

  /** Some run ends in this state. */
  ghost predicate Reached(b: Bridge, s: State) {
    exists steps: seq<Step>, states: seq<State> :: IsRun(b, steps, states) && states[|steps|] == s
  }

  lemma ReachedKeeps(b: Bridge, s: State)
    requires Reached(b, s)
    ensures Inv(b, s)
  {
    var steps: seq<Step>, states: seq<State> :| IsRun(b, steps, states) && states[|steps|] == s;
    RunKeeps(b, steps, states, |steps|);
  }

  /** One step after the other leads from `s` to `t`. */
  ghost predicate Passes(b: Bridge, s: State, steps: seq<Step>, t: State)
    decreases |steps|
  {
    if steps == [] then s == t else Enabled(s, steps[0]) && Passes(b, Apply(b, s, steps[0]), steps[1..], t)
  }

  lemma {:induction false} PassesOn(b: Bridge, s: State, xs: seq<Step>, t: State, ys: seq<Step>, u: State)
    requires Passes(b, s, xs, t) && Passes(b, t, ys, u)
    ensures Passes(b, s, xs + ys, u)
    decreases |xs|
  {
    if xs == [] {
      assert xs + ys == ys;
    } else {
      assert (xs + ys)[1..] == xs[1..] + ys;
      PassesOn(b, Apply(b, s, xs[0]), xs[1..], t, ys, u);
    }
  }

  /** Passing on from the end of a run makes a run. */
  lemma {:induction false} RunPasses(b: Bridge, steps: seq<Step>, states: seq<State>, more: seq<Step>, t: State)
    returns (after: seq<State>)
    requires IsRun(b, steps, states) && Passes(b, states[|steps|], more, t)
    ensures IsRun(b, steps + more, states + after) && (states + after)[|steps + more|] == t
    decreases |more|
  {
    if more == [] {
      after := [];
      assert steps + more == steps && states + after == states;
    } else {
      var next := Apply(b, states[|steps|], more[0]);
      var rest := RunPasses(b, steps + [more[0]], states + [next], more[1..], t);
      after := [next] + rest;
      assert steps + [more[0]] + more[1..] == steps + more && states + [next] + rest == states + after;
    }
  }

  lemma ReachedOn(b: Bridge, s: State, steps: seq<Step>, t: State)
    requires Reached(b, s) && Passes(b, s, steps, t)
    ensures Reached(b, t)
  {
    var before: seq<Step>, states: seq<State> :| IsRun(b, before, states) && states[|before|] == s;
    var after := RunPasses(b, before, states, steps, t);
  }

  lemma TwoSteps(b: Bridge, s: State, x: Step, y: Step)
    requires Enabled(s, x) && Enabled(Apply(b, s, x), y)
    ensures Passes(b, s, [x, y], Apply(b, Apply(b, s, x), y))
  {
    assert [x, y][1..] == [y] && [y][1..] == [];
  }

  /** The server's reader takes the reply. */
  lemma ReplyIsTaken(b: Bridge, s: State, th: nat, reply: Reply) returns (t: State)
    requires Reached(b, s) && th !in s.threads
    ensures Reached(b, t) && Passes(b, s, [Answer(reply), Spawn(th, reply)], t)
    ensures t == s.(replies := s.replies + {reply}, threads := s.threads[th := Thread(reply, Started)])
  {
    t := Apply(b, Apply(b, s, Answer(reply)), Spawn(th, reply));
    TwoSteps(b, s, Answer(reply), Spawn(th, reply));
    ReachedOn(b, s, [Answer(reply), Spawn(th, reply)], t);
  }

  lemma PendingIsFound(b: Bridge, s: State, th: nat)
    requires Inv(b, s) && Enabled(s, Look(th))
    requires var i := s.threads[th].reply.related; i in s.issued && s.issued[i] !in Answered(s.deliveries)
    ensures Enabled(Apply(b, s, Look(th)), Hand(th))
    ensures Apply(b, s, Look(th)).threads[th].stage == Found(s.issued[s.threads[th].reply.related])
  {
    PendingAre(b.server, s.calls, s.issued, s.maps, Answered(s.deliveries), s.threads[th].reply.related);
  }

  lemma FoundIsHanded(b: Bridge, s: State, th: nat)
    requires Inv(b, s) && Enabled(s, Hand(th)) && s.threads[th].stage.handle !in Answered(s.deliveries)
    ensures var (t, h) := (Apply(b, s, Hand(th)), s.threads[th].stage.handle);
            && h in s.calls && t.calls == s.calls && t.outputs == s.outputs
            && t.deliveries == s.deliveries + [Delivery(h, s.threads[th].reply,
                 Response(s.calls[h].request.client, ReplyPath(b.server, s.calls[h].typ)), Handed)]
  {
    HandFinds(b, s, th);
    HandEffect(b, s, th);
  }

  /** Its thread finds the call and hands the response over. */
  lemma ReplyIsHanded(b: Bridge, s: State, th: nat) returns (t: State)
    requires Reached(b, s) && Enabled(s, Look(th))
    requires var i := s.threads[th].reply.related; i in s.issued && s.issued[i] !in Answered(s.deliveries)
    ensures Reached(b, t) && Passes(b, s, [Look(th), Hand(th)], t)
    ensures var h := s.issued[s.threads[th].reply.related];
            && h in s.calls && t.calls == s.calls && t.outputs == s.outputs
            && t.deliveries == s.deliveries + [Delivery(h, s.threads[th].reply,
                 Response(s.calls[h].request.client, ReplyPath(b.server, s.calls[h].typ)), Handed)]
  {
    ReachedKeeps(b, s);
    PendingIsFound(b, s, th);
    var u := Apply(b, s, Look(th));
    StepKeeps(b, s, Look(th));
    FoundIsHanded(b, u, th);
    t := Apply(b, u, Hand(th));
    TwoSteps(b, s, Look(th), Hand(th));
    ReachedOn(b, s, [Look(th), Hand(th)], t);
  }

  /** Its client places it and writes it. */
  lemma ReplyIsWritten(b: Bridge, s: State, d: nat) returns (t: State)
    requires Reached(b, s) && d < |s.deliveries| && s.deliveries[d].handling == Handed
    ensures Passes(b, s, [Place(d), Send(d)], t)
    ensures s.deliveries[d].handle in s.calls && t.outputs == s.outputs + [ReplyTo(b, s, d)]
  {
    ReachedKeeps(b, s);
    DeliveryOrigin(b, s, d);
    var u := Apply(b, s, Place(d));
    StepKeeps(b, s, Place(d));
    SendWrites(b, u, d);
    t := Apply(b, u, Send(d));
    TwoSteps(b, s, Place(d), Send(d));
  }

  /** The way of a reply from its writer to the client's. */
  function Way(s: State, th: nat, reply: Reply): seq<Step> {
    [Answer(reply), Spawn(th, reply), Look(th), Hand(th), Place(|s.deliveries|), Send(|s.deliveries|)]
  }

  /** What the client of its request writes at the end of it. */
  function Answering(b: Bridge, s: State, reply: Reply): Output
    requires reply.related in s.issued && s.issued[reply.related] in s.calls
  {
    var call := s.calls[s.issued[reply.related]];
    Output(|s.deliveries|, call.request, ReplyPath(b.server, call.typ),
           ReplyPath(ClientConfig(b, call.request.client), call.node), reply.body)
  }

  /**
   From any state reached in which no request is being written, whatever else is going on, a reply to
   a request not answered so far can go that way, and is written.
   */
  lemma PendingCanBeAnswered(b: Bridge, s: State, th: nat, reply: Reply) returns (t: State)
    requires Reached(b, s) && s.writing.None? && th !in s.threads
    requires reply.related in s.issued && s.issued[reply.related] !in Answered(s.deliveries)
    ensures Passes(b, s, Way(s, th, reply), t)
    ensures s.issued[reply.related] in s.calls && t.outputs == s.outputs + [Answering(b, s, reply)]
  {
    var d := |s.deliveries|;
    var taken := ReplyIsTaken(b, s, th, reply);
    var handed := ReplyIsHanded(b, taken, th);
    t := ReplyIsWritten(b, handed, d);
    PassesOn(b, taken, [Look(th), Hand(th)], handed, [Place(d), Send(d)], t);
    PassesOn(b, s, [Answer(reply), Spawn(th, reply)], taken, [Look(th), Hand(th)] + [Place(d), Send(d)], t);
    assert Way(s, th, reply) == [Answer(reply), Spawn(th, reply)] + ([Look(th), Hand(th)] + [Place(d), Send(d)]);
  }

  function Asking(r: Request, node: string, typ: string, h: Handle, i: SampleId): seq<Step> {
    [Arrive(r, node, typ), Note(r), Begin(r, h), WriteRequest(i), Record]
  }

  lemma RequestIsNoted(b: Bridge, s: State, r: Request, node: string, typ: string) returns (t: State)
    requires r !in s.arrivals
    ensures Passes(b, s, [Arrive(r, node, typ), Note(r)], t)
    ensures t == s.(arrivals := s.arrivals[r := Arrival(node, typ, Noted)], noted := t.noted)
  {
    t := Apply(b, Apply(b, s, Arrive(r, node, typ)), Note(r));
    TwoSteps(b, s, Arrive(r, node, typ), Note(r));
  }

  lemma CallIsWritten(b: Bridge, s: State, r: Request, h: Handle, i: SampleId) returns (t: State)
    requires s.writing.None? && r in s.arrivals && s.arrivals[r].stage == Noted && h !in s.calls && i !in s.issued
    ensures Passes(b, s, [Begin(r, h), WriteRequest(i), Record], t)
    ensures t.writing.None? && t.issued == s.issued[i := h]
    ensures t.calls == s.calls[h := Call(r, s.arrivals[r].node, s.arrivals[r].typ)]
    ensures t.deliveries == s.deliveries && t.outputs == s.outputs && t.threads == s.threads
  {
    var written := Apply(b, Apply(b, s, Begin(r, h)), WriteRequest(i));
    TwoSteps(b, s, Begin(r, h), WriteRequest(i));
    t := Apply(b, written, Record);
    assert [Record][1..] == [];
    assert Passes(b, written, [Record], t);
    PassesOn(b, s, [Begin(r, h), WriteRequest(i)], written, [Record], t);
    assert [Begin(r, h), WriteRequest(i)] + [Record] == [Begin(r, h), WriteRequest(i), Record];
  }

  /** A new request can be taken in, passed on, written and recorded. */
  lemma RequestIsWritten(b: Bridge, s: State, r: Request, node: string, typ: string, h: Handle, i: SampleId)
    returns (t: State)
    requires s.writing.None? && r !in s.arrivals && h !in s.calls && i !in s.issued
    ensures Passes(b, s, Asking(r, node, typ, h, i), t)
    ensures t.writing.None? && t.issued == s.issued[i := h] && t.calls == s.calls[h := Call(r, node, typ)]
    ensures t.deliveries == s.deliveries && t.outputs == s.outputs && t.threads == s.threads
  {
    var noted := RequestIsNoted(b, s, r, node, typ);
    t := CallIsWritten(b, noted, r, h, i);
    PassesOn(b, s, [Arrive(r, node, typ), Note(r)], noted, [Begin(r, h), WriteRequest(i), Record], t);
    assert Asking(r, node, typ, h, i) == [Arrive(r, node, typ), Note(r)] + [Begin(r, h), WriteRequest(i), Record];
  }

  lemma NewIsUnanswered(b: Bridge, s: State, h: Handle)
    requires Reached(b, s) && h !in s.calls
    ensures h !in Answered(s.deliveries)
  {
    ReachedKeeps(b, s);
    AnsweredCalls(b, s);
  }

  /** From any such state, a new request can be answered, and its client writes the reply where the two configurations say. */
  lemma RequestCanBeAnswered(
    b: Bridge, s: State, r: Request, node: string, typ: string, h: Handle, i: SampleId, th: nat, body: int)
    returns (steps: seq<Step>, t: State)
    requires Reached(b, s) && s.writing.None?
    requires r !in s.arrivals && h !in s.calls && i !in s.issued && th !in s.threads
    ensures Passes(b, s, steps, t)
    ensures t.outputs == s.outputs +
              [Output(|s.deliveries|, r, ReplyPath(b.server, typ), ReplyPath(ClientConfig(b, r.client), node), body)]
  {
    NewIsUnanswered(b, s, h);
    var asked := RequestIsWritten(b, s, r, node, typ, h, i);
    ReachedOn(b, s, Asking(r, node, typ, h, i), asked);
    t := PendingCanBeAnswered(b, asked, th, Reply(i, body));
    steps := Asking(r, node, typ, h, i) + Way(asked, th, Reply(i, body));
    PassesOn(b, s, Asking(r, node, typ, h, i), asked, Way(asked, th, Reply(i, body)), t);
  }

  /** So there are runs in which replies are written. */
  lemma SomeReplyIsWritten(b: Bridge, r: Request, node: string, typ: string, body: int)
    returns (steps: seq<Step>, states: seq<State>)
    ensures IsRun(b, steps, states)
    ensures states[|steps|].outputs ==
              [Output(0, r, ReplyPath(b.server, typ), ReplyPath(ClientConfig(b, r.client), node), body)]
  {
    var none: seq<Step> := [];
    assert IsRun(b, none, [INIT]);
    var t;
    steps, t := RequestCanBeAnswered(b, INIT, r, node, typ, 0, SampleId(0, 0), 0, body);
    states := RunPasses(b, none, [INIT], steps, t);
    assert none + steps == steps;
    states := [INIT] + states;
  }
}
