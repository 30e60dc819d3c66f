/**
 Requests from one DDS domain forwarded to a server on another, as a transition system. Clients
 take requests in, the server writes them out and takes replies in, clients write the replies.
 Steps are critical sections, except that a call is three steps during which it holds the server's
 mutex: before the write, the write, and the record of the identity it was given.
 */
module Correlation {
  import opened Options
  import opened ServerSide

  /** A sample on its way through a client; `Called` carries the handle of its call. */
  datatype Stage = New | Noted | Called(handle: Handle)

  /**
   A request a client takes in goes by two names: that of the tree's node for it, under which the
   client notes its reply, and that of the message passed on, by which everything else goes.
   */
  datatype Arrival = Arrival(node: string, typ: string, stage: Stage)

  datatype Request = Request(client: ClientId, sample: SampleId)

  datatype Call = Call(request: Request, node: string, typ: string)

  /** The call that holds the server's mutex, and the identity of its request once written. */
  datatype Writing = Writing(handle: Handle, sample: Option<SampleId>)

  datatype Reply = Reply(related: SampleId, body: int)

  datatype ThreadStage = Started | Found(handle: Handle) | Ended

  datatype Thread = Thread(reply: Reply, stage: ThreadStage)

  datatype Handling = Handed | Placed(path: string) | Sent

  /** A response handed to a client. */
  datatype Delivery = Delivery(handle: Handle, reply: Reply, response: Response, handling: Handling)

  /** A reply a client wrote: the delivery it came from, and where its body was read and placed. */
  datatype Output = Output(from: nat, request: Request, readAt: string, path: string, body: int)

  datatype State = State(
    arrivals: map<Request, Arrival>,
    noted: map<Request, string>,        // the clients' reply_id_type_
    calls: map<Handle, Call>,
    maps: Maps,
    writing: Option<Writing>,
    issued: map<SampleId, Handle>,      // every request the server has written
    replies: set<Reply>,                // every reply there is on the server's domain
    threads: map<nat, Thread>,
    deliveries: seq<Delivery>,
    outputs: seq<Output>)

  datatype Bridge = Bridge(server: Config, clients: map<ClientId, Config>)

  function ClientConfig(b: Bridge, c: ClientId): Config {
    if c in b.clients then b.clients[c] else Config(map[], map[], "")
  }

  const INIT := State(map[], map[], map[], Maps(map[], map[], map[]), None, map[], {}, map[], [], [])

  datatype Step =
    | Arrive(request: Request, node: string, typ: string) // a client's reader takes a request, each one once
    | Note(request: Request)                     // the client notes which type the reply will have
    | Begin(request: Request, handle: Handle)    // its callback calls the server; the mutex is taken
    | WriteRequest(sample: SampleId)             // the request goes out under a new identity
    | FailRequest                                // or it does not, and the mutex is released
    | Record                                     // the identity is recorded, the mutex released
    | Answer(reply: Reply)                       // someone writes a reply, to anything, any number of times
    | Spawn(thread: nat, reply: Reply)           // the server's reader takes a reply
    | Look(thread: nat)                          // first critical section of the reception thread
    | Hand(thread: nat)                          // second one
    | Place(delivery: nat)                       // the client looks up the path of the reply
    | Send(delivery: nat)                        // and writes it
    | FailSend(delivery: nat)

  predicate Enabled(s: State, step: Step) {
    match step
    case Arrive(r, _, _) => r !in s.arrivals
    case Note(r) => r in s.arrivals && s.arrivals[r].stage == New
    case Begin(r, h) => r in s.arrivals && s.arrivals[r].stage == Noted && h !in s.calls && s.writing.None?
    case WriteRequest(i) => s.writing.Some? && s.writing.value.sample.None? && i !in s.issued
    case FailRequest => s.writing.Some? && s.writing.value.sample.None?
    case Record => s.writing.Some? && s.writing.value.sample.Some? && s.writing.value.handle in s.calls
    case Answer(_) => true
    case Spawn(t, reply) => t !in s.threads && reply in s.replies
    case Look(t) => t in s.threads && s.threads[t].stage == Started && s.writing.None?
    case Hand(t) => t in s.threads && s.threads[t].stage.Found? && s.writing.None?
    case Place(d) => d < |s.deliveries| && s.deliveries[d].handling == Handed && s.deliveries[d].handle in s.calls
    case Send(d) => d < |s.deliveries| && s.deliveries[d].handling.Placed? && s.deliveries[d].handle in s.calls
    case FailSend(d) => d < |s.deliveries| && s.deliveries[d].handling.Placed?
  }

  function NoteType(b: Bridge, s: State, r: Request): map<Request, string>
    requires r in s.arrivals
  {
    var c, node := ClientConfig(b, r.client), s.arrivals[r].node;
    if node in c.requestReply then s.noted[r := c.requestReply[node]] else s.noted
  }

  function PlacePath(b: Bridge, s: State, r: Request): string {
    var c := ClientConfig(b, r.client);
    if r in s.noted then PathOf(c, s.noted[r]) else c.replyRoot
  }

  function HandOver(b: Bridge, s: State, t: nat): State
    requires Enabled(s, Hand(t))
  {
    var thread := s.threads[t];
    var (maps, response) := Deliver(s.maps, b.server, thread.reply.related, thread.stage.handle);
    s.(maps := maps,
       threads := s.threads[t := thread.(stage := Ended)],
       deliveries := match response
                     case None => s.deliveries
                     case Some(r) => s.deliveries + [Delivery(thread.stage.handle, thread.reply, r, Handed)])
  }

  function Apply(b: Bridge, s: State, step: Step): State
    requires Enabled(s, step)
  {
    match step
    case Arrive(r, node, typ) => s.(arrivals := s.arrivals[r := Arrival(node, typ, New)])
    case Note(r) => s.(arrivals := s.arrivals[r := s.arrivals[r].(stage := Noted)], noted := NoteType(b, s, r))
    case Begin(r, h) =>
      s.(arrivals := s.arrivals[r := s.arrivals[r].(stage := Called(h))],
         calls := s.calls[h := Call(r, s.arrivals[r].node, s.arrivals[r].typ)],
         maps := BeginCall(s.maps, h, r.client),
         writing := Some(Writing(h, None)))
    case WriteRequest(i) =>
      s.(issued := s.issued[i := s.writing.value.handle],
         writing := Some(Writing(s.writing.value.handle, Some(i))))
    case FailRequest => s.(writing := None)
    case Record =>
      var w := s.writing.value;
      s.(maps := RecordCall(s.maps, b.server, w.sample.value, w.handle, s.calls[w.handle].typ), writing := None)
    case Answer(reply) => s.(replies := s.replies + {reply})
    case Spawn(t, reply) => s.(threads := s.threads[t := Thread(reply, Started)])
    case Look(t) =>
      var stage := match Lookup(s.maps, s.threads[t].reply.related)
                   case Some(h) => Found(h)
                   case None => Ended;
      s.(threads := s.threads[t := s.threads[t].(stage := stage)])
    case Hand(t) => HandOver(b, s, t)
    case Place(d) =>
      var r := s.calls[s.deliveries[d].handle].request;
      s.(deliveries := s.deliveries[d := s.deliveries[d].(handling := Placed(PlacePath(b, s, r)))],
         noted := s.noted - {r})
    case Send(d) =>
      var x := s.deliveries[d];
      s.(deliveries := s.deliveries[d := x.(handling := Sent)],
         outputs := s.outputs + [Output(d, s.calls[x.handle].request, x.response.path, x.handling.path, x.reply.body)])
    case FailSend(d) => s.(deliveries := s.deliveries[d := s.deliveries[d].(handling := Sent)])
  }

  /** `states` are those a run goes through, one more than it has steps. */
  ghost predicate IsRun(b: Bridge, steps: seq<Step>, states: seq<State>) {
    && |states| == |steps| + 1 && states[0] == INIT
    && forall k | 0 <= k < |steps| :: Enabled(states[k], steps[k]) && states[k + 1] == Apply(b, states[k], steps[k])
  }

  // ---------------------------------------------------------------------------------------------
  // The invariant

  /** The calls whose response has been handed over. */
  function Answered(ds: seq<Delivery>): set<Handle> {
    set d | d in ds :: d.handle
  }

  /** Every written request is being recorded, is pending, or has been answered. */
  ghost predicate IssuedInv(
    calls: map<Handle, Call>, issued: map<SampleId, Handle>, writing: Option<Writing>,
    pending: map<SampleId, Handle>, clients: map<Handle, ClientId>, answered: set<Handle>)
  {
    && (forall i | i in issued :: issued[i] in calls)
    && (forall i, j | i in issued && j in issued && i != j :: issued[i] != issued[j])
    && (forall i | i in issued ::
          writing == Some(Writing(issued[i], Some(i))) || i in pending || issued[i] in answered)
    && (forall i | i in pending :: i in issued && issued[i] == pending[i] && issued[i] in clients)
  }

  /** The three maps agree: a pending call has a client, and a reply type exactly when one is configured. */
  ghost predicate MapsInv(c: Config, calls: map<Handle, Call>, m: Maps, answered: set<Handle>) {
    && (forall h | h in m.callhandleClient ::
          h in calls && m.callhandleClient[h] == calls[h].request.client && h !in answered)
    && (forall i | i in m.replyIdType :: i in m.sampleCallhandle)
    && (forall i | i in m.sampleCallhandle :: GoodReplyType(c, calls, m, i))
  }

  ghost predicate GoodReplyType(c: Config, calls: map<Handle, Call>, m: Maps, i: SampleId)
    requires i in m.sampleCallhandle
  {
    && m.sampleCallhandle[i] in calls
    && var typ := calls[m.sampleCallhandle[i]].typ;
       if typ in c.requestReply then i in m.replyIdType && m.replyIdType[i] == c.requestReply[typ]
       else i !in m.replyIdType
  }

  /** While a call holds the mutex, its request is written at most once and not yet recorded. */
  ghost predicate WritingInv(
    calls: map<Handle, Call>, issued: map<SampleId, Handle>, writing: Option<Writing>,
    pending: map<SampleId, Handle>, clients: map<Handle, ClientId>)
  {
    writing.Some? ==>
      var w := writing.value;
      && w.handle in calls && w.handle in clients
      && (forall i | i in pending :: pending[i] != w.handle)
      && (forall i | i in issued && issued[i] == w.handle :: w.sample == Some(i))
      && (w.sample.Some? ==> w.sample.value in issued && issued[w.sample.value] == w.handle)
  }

  /** A reception thread that found a call found the one its reply answers. */
  ghost predicate ThreadInv(
    issued: map<SampleId, Handle>, replies: set<Reply>, threads: map<nat, Thread>,
    pending: map<SampleId, Handle>, answered: set<Handle>)
  {
    forall t | t in threads ::
      var x := threads[t];
      && x.reply in replies
      && (x.stage.Found? ==>
            && x.reply.related in issued && issued[x.reply.related] == x.stage.handle
            && (x.reply.related in pending || x.stage.handle in answered))
  }

  /** Each call comes from one arrival and each arrival makes one call. */
  ghost predicate CallInv(arrivals: map<Request, Arrival>, calls: map<Handle, Call>) {
    && (forall h | h in calls ::
          calls[h].request in arrivals
          && arrivals[calls[h].request] == Arrival(calls[h].node, calls[h].typ, Called(h)))
    && (forall r | r in arrivals && arrivals[r].stage.Called? ::
          arrivals[r].stage.handle in calls && calls[arrivals[r].stage.handle].request == r)
  }

  ghost predicate GoodDelivery(
    b: Bridge, calls: map<Handle, Call>, issued: map<SampleId, Handle>, replies: set<Reply>, x: Delivery)
  {
    && x.handle in calls && x.reply in replies
    && x.reply.related in issued && issued[x.reply.related] == x.handle
    && x.response == Response(calls[x.handle].request.client, ReplyPath(b.server, calls[x.handle].typ))
    && (x.handling.Placed? ==> x.handling.path == ReplyPath(ClientConfig(b, x.response.client), calls[x.handle].node))
  }

  ghost predicate DeliveryInv(
    b: Bridge, calls: map<Handle, Call>, issued: map<SampleId, Handle>, replies: set<Reply>, ds: seq<Delivery>)
  {
    && (forall d | 0 <= d < |ds| :: GoodDelivery(b, calls, issued, replies, ds[d]))
    && (forall d, e | 0 <= d < e < |ds| :: ds[d].handle != ds[e].handle)
  }

  /** The client has noted the request and not yet looked up the path of its reply. */
  ghost predicate Unplaced(a: Arrival, ds: seq<Delivery>) {
    a.stage != New && (a.stage.Called? ==> forall d | d in ds && d.handle == a.stage.handle :: d.handling == Handed)
  }

  /** A client's note of the reply type is there from the time it is made until it is used. */
  ghost predicate NotedInv(b: Bridge, arrivals: map<Request, Arrival>, noted: map<Request, string>, ds: seq<Delivery>) {
    && (forall r | r in noted :: r in arrivals)
    && forall r | r in arrivals && (arrivals[r].stage == New || Unplaced(arrivals[r], ds)) :: GoodNote(b, arrivals[r], noted, r)
  }

  ghost predicate GoodNote(b: Bridge, a: Arrival, noted: map<Request, string>, r: Request) {
    var c := ClientConfig(b, r.client);
    if a.stage != New && a.node in c.requestReply then r in noted && noted[r] == c.requestReply[a.node] else r !in noted
  }

  ghost predicate GoodOutput(b: Bridge, calls: map<Handle, Call>, ds: seq<Delivery>, o: Output) {
    && o.from < |ds| && ds[o.from].handling == Sent
    && var x := ds[o.from];
       && x.handle in calls && o.request == calls[x.handle].request && o.body == x.reply.body
       && o.readAt == x.response.path
       && o.path == ReplyPath(ClientConfig(b, o.request.client), calls[x.handle].node)
  }

  ghost predicate OutputInv(b: Bridge, calls: map<Handle, Call>, ds: seq<Delivery>, outputs: seq<Output>) {
    && (forall k | 0 <= k < |outputs| :: GoodOutput(b, calls, ds, outputs[k]))
    && (forall k, l | 0 <= k < l < |outputs| :: outputs[k].from != outputs[l].from)
  }

  ghost predicate Inv(b: Bridge, s: State) {
    && IssuedInv(s.calls, s.issued, s.writing, s.maps.sampleCallhandle, s.maps.callhandleClient, Answered(s.deliveries))
    && MapsInv(b.server, s.calls, s.maps, Answered(s.deliveries))
    && WritingInv(s.calls, s.issued, s.writing, s.maps.sampleCallhandle, s.maps.callhandleClient)
    && ThreadInv(s.issued, s.replies, s.threads, s.maps.sampleCallhandle, Answered(s.deliveries))
    && CallInv(s.arrivals, s.calls)
    && DeliveryInv(b, s.calls, s.issued, s.replies, s.deliveries)
    && NotedInv(b, s.arrivals, s.noted, s.deliveries)
    && OutputInv(b, s.calls, s.deliveries, s.outputs)
  }

  // ---------------------------------------------------------------------------------------------
  // Every step keeps it

  lemma ArriveKeeps(b: Bridge, s: State, r: Request, node: string, typ: string)
    requires Inv(b, s) && Enabled(s, Arrive(r, node, typ))
    ensures Inv(b, Apply(b, s, Arrive(r, node, typ)))
  {
  }

  lemma NotesAfterNote(b: Bridge, s: State, r: Request)
    requires NotedInv(b, s.arrivals, s.noted, s.deliveries) && Enabled(s, Note(r))
    ensures var t := Apply(b, s, Note(r)); NotedInv(b, t.arrivals, t.noted, t.deliveries)
  {
    assert GoodNote(b, s.arrivals[r], s.noted, r);
  }

  lemma NoteKeeps(b: Bridge, s: State, r: Request)
    requires Inv(b, s) && Enabled(s, Note(r))
    ensures Inv(b, Apply(b, s, Note(r)))
  {
    NotesAfterNote(b, s, r);
    var t := Apply(b, s, Note(r));
    assert CallInv(t.arrivals, t.calls);
  }

  lemma BeginKeepsIssued(b: Bridge, s: State, r: Request, h: Handle)
    requires Inv(b, s) && Enabled(s, Begin(r, h))
    ensures var t := Apply(b, s, Begin(r, h));
            && IssuedInv(t.calls, t.issued, t.writing, t.maps.sampleCallhandle, t.maps.callhandleClient,
                         Answered(t.deliveries))
            && WritingInv(t.calls, t.issued, t.writing, t.maps.sampleCallhandle, t.maps.callhandleClient)
  {
  }

  lemma AnsweredCalls(b: Bridge, s: State)
    requires DeliveryInv(b, s.calls, s.issued, s.replies, s.deliveries)
    ensures Answered(s.deliveries) <= s.calls.Keys
  {
    forall h | h in Answered(s.deliveries) ensures h in s.calls {
      var d :| 0 <= d < |s.deliveries| && s.deliveries[d].handle == h;
      assert GoodDelivery(b, s.calls, s.issued, s.replies, s.deliveries[d]);
    }
  }

  lemma BeginKeepsMaps(b: Bridge, s: State, r: Request, h: Handle)
    requires Inv(b, s) && Enabled(s, Begin(r, h))
    ensures var t := Apply(b, s, Begin(r, h)); MapsInv(b.server, t.calls, t.maps, Answered(t.deliveries))
  {
    AnsweredCalls(b, s);
    var t := Apply(b, s, Begin(r, h));
    forall i | i in t.maps.sampleCallhandle ensures GoodReplyType(b.server, t.calls, t.maps, i) {
      assert GoodReplyType(b.server, s.calls, s.maps, i);
    }
  }

  lemma DeliveriesAfterBegin(b: Bridge, s: State, r: Request, h: Handle)
    requires DeliveryInv(b, s.calls, s.issued, s.replies, s.deliveries) && Enabled(s, Begin(r, h))
    ensures var t := Apply(b, s, Begin(r, h)); DeliveryInv(b, t.calls, t.issued, t.replies, t.deliveries)
  {
    var t := Apply(b, s, Begin(r, h));
    forall d | 0 <= d < |t.deliveries| ensures GoodDelivery(b, t.calls, t.issued, t.replies, t.deliveries[d]) {
      assert GoodDelivery(b, s.calls, s.issued, s.replies, s.deliveries[d]);
    }
  }

  lemma OutputsAfterBegin(b: Bridge, s: State, r: Request, h: Handle)
    requires OutputInv(b, s.calls, s.deliveries, s.outputs) && Enabled(s, Begin(r, h))
    ensures var t := Apply(b, s, Begin(r, h)); OutputInv(b, t.calls, t.deliveries, t.outputs)
  {
    var t := Apply(b, s, Begin(r, h));
    forall k | 0 <= k < |t.outputs| ensures GoodOutput(b, t.calls, t.deliveries, t.outputs[k]) {
      assert GoodOutput(b, s.calls, s.deliveries, s.outputs[k]);
    }
  }

  lemma NotesAfterBegin(b: Bridge, s: State, r: Request, h: Handle)
    requires NotedInv(b, s.arrivals, s.noted, s.deliveries) && Enabled(s, Begin(r, h))
    ensures var t := Apply(b, s, Begin(r, h)); NotedInv(b, t.arrivals, t.noted, t.deliveries)
  {
    assert GoodNote(b, s.arrivals[r], s.noted, r);
  }

  lemma BeginKeepsDeliveries(b: Bridge, s: State, r: Request, h: Handle)
    requires Inv(b, s) && Enabled(s, Begin(r, h))
    ensures var t := Apply(b, s, Begin(r, h));
            && DeliveryInv(b, t.calls, t.issued, t.replies, t.deliveries)
            && OutputInv(b, t.calls, t.deliveries, t.outputs)
            && NotedInv(b, t.arrivals, t.noted, t.deliveries)
            && CallInv(t.arrivals, t.calls)
  {
    DeliveriesAfterBegin(b, s, r, h);
    OutputsAfterBegin(b, s, r, h);
    NotesAfterBegin(b, s, r, h);
  }

  lemma BeginKeeps(b: Bridge, s: State, r: Request, h: Handle)
    requires Inv(b, s) && Enabled(s, Begin(r, h))
    ensures Inv(b, Apply(b, s, Begin(r, h)))
  {
    BeginKeepsIssued(b, s, r, h);
    BeginKeepsMaps(b, s, r, h);
    BeginKeepsDeliveries(b, s, r, h);
  }

  lemma IssuedAfterWrite(
    calls: map<Handle, Call>, issued: map<SampleId, Handle>, pending: map<SampleId, Handle>,
    clients: map<Handle, ClientId>, answered: set<Handle>, h: Handle, i: SampleId)
    requires IssuedInv(calls, issued, Some(Writing(h, None)), pending, clients, answered)
    requires i !in issued && h in calls && forall j | j in issued :: issued[j] != h
    ensures IssuedInv(calls, issued[i := h], Some(Writing(h, Some(i))), pending, clients, answered)
  {
  }

  lemma WriteKeepsIssued(b: Bridge, s: State, i: SampleId)
    requires Inv(b, s) && Enabled(s, WriteRequest(i))
    ensures var t := Apply(b, s, WriteRequest(i));
            IssuedInv(t.calls, t.issued, t.writing, t.maps.sampleCallhandle, t.maps.callhandleClient, Answered(t.deliveries))
  {
    var h := s.writing.value.handle;
    assert s.writing == Some(Writing(h, None));
    IssuedAfterWrite(s.calls, s.issued, s.maps.sampleCallhandle, s.maps.callhandleClient, Answered(s.deliveries), h, i);
  }

  lemma WriteKeepsWriting(b: Bridge, s: State, i: SampleId)
    requires Inv(b, s) && Enabled(s, WriteRequest(i))
    ensures var t := Apply(b, s, WriteRequest(i));
            && WritingInv(t.calls, t.issued, t.writing, t.maps.sampleCallhandle, t.maps.callhandleClient)
            && ThreadInv(t.issued, t.replies, t.threads, t.maps.sampleCallhandle, Answered(t.deliveries))
  {
    var h := s.writing.value.handle;
    assert s.writing == Some(Writing(h, None));
    WritingAfterWrite(s.calls, s.issued, s.maps.sampleCallhandle, s.maps.callhandleClient, h, i);
    ThreadsAfterWrite(s.issued, s.replies, s.threads, s.maps.sampleCallhandle, Answered(s.deliveries), h, i);
  }

  lemma WritingAfterWrite(
    calls: map<Handle, Call>, issued: map<SampleId, Handle>, pending: map<SampleId, Handle>,
    clients: map<Handle, ClientId>, h: Handle, i: SampleId)
    requires WritingInv(calls, issued, Some(Writing(h, None)), pending, clients) && i !in issued
    ensures WritingInv(calls, issued[i := h], Some(Writing(h, Some(i))), pending, clients)
  {
  }

  lemma ThreadsAfterWrite(
    issued: map<SampleId, Handle>, replies: set<Reply>, threads: map<nat, Thread>,
    pending: map<SampleId, Handle>, answered: set<Handle>, h: Handle, i: SampleId)
    requires ThreadInv(issued, replies, threads, pending, answered) && i !in issued
    ensures ThreadInv(issued[i := h], replies, threads, pending, answered)
  {
  }

  lemma WriteKeepsDeliveries(b: Bridge, s: State, i: SampleId)
    requires Inv(b, s) && Enabled(s, WriteRequest(i))
    ensures var t := Apply(b, s, WriteRequest(i)); DeliveryInv(b, t.calls, t.issued, t.replies, t.deliveries)
  {
    var t := Apply(b, s, WriteRequest(i));
    forall d | 0 <= d < |t.deliveries| ensures GoodDelivery(b, t.calls, t.issued, t.replies, t.deliveries[d]) {
      assert GoodDelivery(b, s.calls, s.issued, s.replies, s.deliveries[d]);
    }
  }

  lemma WriteKeeps(b: Bridge, s: State, i: SampleId)
    requires Inv(b, s) && Enabled(s, WriteRequest(i))
    ensures Inv(b, Apply(b, s, WriteRequest(i)))
  {
    WriteKeepsIssued(b, s, i);
    WriteKeepsWriting(b, s, i);
    WriteKeepsDeliveries(b, s, i);
  }

  lemma FailKeeps(b: Bridge, s: State)
    requires Inv(b, s) && Enabled(s, FailRequest)
    ensures Inv(b, Apply(b, s, FailRequest))
  {
  }

  lemma IssuedAfterRecord(
    calls: map<Handle, Call>, issued: map<SampleId, Handle>, pending: map<SampleId, Handle>,
    clients: map<Handle, ClientId>, answered: set<Handle>, h: Handle, i: SampleId)
    requires IssuedInv(calls, issued, Some(Writing(h, Some(i))), pending, clients, answered)
    requires i in issued && issued[i] == h && h in clients
    ensures IssuedInv(calls, issued, None, pending[i := h], clients, answered)
  {
  }

  lemma ThreadsAfterRecord(
    issued: map<SampleId, Handle>, replies: set<Reply>, threads: map<nat, Thread>,
    pending: map<SampleId, Handle>, answered: set<Handle>, h: Handle, i: SampleId)
    requires ThreadInv(issued, replies, threads, pending, answered)
    ensures ThreadInv(issued, replies, threads, pending[i := h], answered)
  {
  }

  lemma RecordKeepsIssued(b: Bridge, s: State)
    requires Inv(b, s) && Enabled(s, Record)
    ensures var t := Apply(b, s, Record);
            && IssuedInv(t.calls, t.issued, t.writing, t.maps.sampleCallhandle, t.maps.callhandleClient,
                         Answered(t.deliveries))
            && WritingInv(t.calls, t.issued, t.writing, t.maps.sampleCallhandle, t.maps.callhandleClient)
            && ThreadInv(t.issued, t.replies, t.threads, t.maps.sampleCallhandle, Answered(t.deliveries))
  {
    var (h, i) := (s.writing.value.handle, s.writing.value.sample.value);
    assert s.writing == Some(Writing(h, Some(i)));
    IssuedAfterRecord(s.calls, s.issued, s.maps.sampleCallhandle, s.maps.callhandleClient, Answered(s.deliveries), h, i);
    ThreadsAfterRecord(s.issued, s.replies, s.threads, s.maps.sampleCallhandle, Answered(s.deliveries), h, i);
  }

  lemma MapsAfterRecord(c: Config, calls: map<Handle, Call>, m: Maps, answered: set<Handle>, i: SampleId, h: Handle)
    requires MapsInv(c, calls, m, answered) && h in calls && i !in m.sampleCallhandle
    ensures MapsInv(c, calls, RecordCall(m, c, i, h, calls[h].typ), answered)
  {
    var n := RecordCall(m, c, i, h, calls[h].typ);
    forall j | j in n.sampleCallhandle ensures GoodReplyType(c, calls, n, j) {
      assert j in m.sampleCallhandle ==> GoodReplyType(c, calls, m, j);
    }
  }

  lemma RecordKeepsMaps(b: Bridge, s: State)
    requires Inv(b, s) && Enabled(s, Record)
    ensures var t := Apply(b, s, Record); MapsInv(b.server, t.calls, t.maps, Answered(t.deliveries))
  {
    var w := s.writing.value;
    MapsAfterRecord(b.server, s.calls, s.maps, Answered(s.deliveries), w.sample.value, w.handle);
  }

  lemma RecordKeeps(b: Bridge, s: State)
    requires Inv(b, s) && Enabled(s, Record)
    ensures Inv(b, Apply(b, s, Record))
  {
    RecordKeepsIssued(b, s);
    RecordKeepsMaps(b, s);
  }

  lemma AnswerKeeps(b: Bridge, s: State, reply: Reply)
    requires Inv(b, s) && Enabled(s, Answer(reply))
    ensures Inv(b, Apply(b, s, Answer(reply)))
  {
    var t := Apply(b, s, Answer(reply));
    forall d | 0 <= d < |t.deliveries| ensures GoodDelivery(b, t.calls, t.issued, t.replies, t.deliveries[d]) {
      assert GoodDelivery(b, s.calls, s.issued, s.replies, s.deliveries[d]);
    }
  }

  lemma SpawnKeeps(b: Bridge, s: State, th: nat, reply: Reply)
    requires Inv(b, s) && Enabled(s, Spawn(th, reply))
    ensures Inv(b, Apply(b, s, Spawn(th, reply)))
  {
  }

  lemma LookKeeps(b: Bridge, s: State, th: nat)
    requires Inv(b, s) && Enabled(s, Look(th))
    ensures Inv(b, Apply(b, s, Look(th)))
  {
  }

  // Handing a response over.

  /** What the second critical section finds, for a thread that found its call in the first. */
  lemma HandFinds(b: Bridge, s: State, th: nat)
    requires Inv(b, s) && Enabled(s, Hand(th))
    ensures var (h, i) := (s.threads[th].stage.handle, s.threads[th].reply.related);
            && i in s.issued && s.issued[i] == h && h in s.calls
            && (h in s.maps.callhandleClient <==> i in s.maps.sampleCallhandle)
            && (h !in s.maps.callhandleClient <==> h in Answered(s.deliveries))
            && (i in s.maps.sampleCallhandle ==>
                  s.maps.sampleCallhandle[i] == h && GoodReplyType(b.server, s.calls, s.maps, i))
            && (i !in s.maps.sampleCallhandle ==> i !in s.maps.replyIdType)
  {
  }

  lemma DeliverEffect(c: Config, calls: map<Handle, Call>, m: Maps, h: Handle, i: SampleId)
    requires h in calls
    requires h in m.callhandleClient <==> i in m.sampleCallhandle
    requires i in m.sampleCallhandle ==> m.sampleCallhandle[i] == h && GoodReplyType(c, calls, m, i)
    requires i !in m.sampleCallhandle ==> i !in m.replyIdType
    ensures Deliver(m, c, i, h) ==
            if h in m.callhandleClient then
              (Maps(m.callhandleClient - {h}, m.sampleCallhandle - {i}, m.replyIdType - {i}),
               Some(Response(m.callhandleClient[h], ReplyPath(c, calls[h].typ))))
            else (m, None)
  {
    if i !in m.replyIdType {
      assert m.replyIdType - {i} == m.replyIdType;
    }
  }

  /** The response, when there is one, goes to the caller with the path configured for its type. */
  lemma HandEffect(b: Bridge, s: State, th: nat)
    requires Inv(b, s) && Enabled(s, Hand(th))
    ensures var (x, m) := (s.threads[th], s.maps);
            var (h, i) := (x.stage.handle, x.reply.related);
            Apply(b, s, Hand(th)) ==
            if h in m.callhandleClient then
              s.(maps := Maps(m.callhandleClient - {h}, m.sampleCallhandle - {i}, m.replyIdType - {i}),
                 threads := s.threads[th := x.(stage := Ended)],
                 deliveries := s.deliveries + [Delivery(h, x.reply,
                   Response(s.calls[h].request.client, ReplyPath(b.server, s.calls[h].typ)), Handed)])
            else s.(threads := s.threads[th := x.(stage := Ended)])
  {
    HandFinds(b, s, th);
    DeliverEffect(b.server, s.calls, s.maps, s.threads[th].stage.handle, s.threads[th].reply.related);
    assert s.threads[th].stage.handle in s.maps.callhandleClient ==>
      s.maps.callhandleClient[s.threads[th].stage.handle] == s.calls[s.threads[th].stage.handle].request.client;
  }

  lemma AnsweredSnoc(ds: seq<Delivery>, d: Delivery)
    ensures Answered(ds + [d]) == Answered(ds) + {d.handle}
  {
    assert forall x :: x in ds + [d] <==> x in ds || x == d;
  }

  lemma IssuedAfterHand(
    calls: map<Handle, Call>, issued: map<SampleId, Handle>, pending: map<SampleId, Handle>,
    clients: map<Handle, ClientId>, answered: set<Handle>, h: Handle, i: SampleId)
    requires IssuedInv(calls, issued, None, pending, clients, answered)
    requires i in pending && pending[i] == h
    ensures IssuedInv(calls, issued, None, pending - {i}, clients - {h}, answered + {h})
  {
  }

  lemma ThreadsAfterHand(
    issued: map<SampleId, Handle>, replies: set<Reply>, threads: map<nat, Thread>,
    pending: map<SampleId, Handle>, answered: set<Handle>, th: nat, i: SampleId)
    requires ThreadInv(issued, replies, threads, pending, answered)
    requires th in threads && i in issued
    ensures ThreadInv(issued, replies, threads[th := threads[th].(stage := Ended)], pending - {i}, answered + {issued[i]})
  {
  }

  lemma HandKeepsIssued(b: Bridge, s: State, th: nat)
    requires Inv(b, s) && Enabled(s, Hand(th)) && s.threads[th].stage.handle in s.maps.callhandleClient
    ensures var t := Apply(b, s, Hand(th));
            && IssuedInv(t.calls, t.issued, t.writing, t.maps.sampleCallhandle, t.maps.callhandleClient,
                         Answered(t.deliveries))
            && ThreadInv(t.issued, t.replies, t.threads, t.maps.sampleCallhandle, Answered(t.deliveries))
  {
    HandFinds(b, s, th);
    HandEffect(b, s, th);
    var t := Apply(b, s, Hand(th));
    AnsweredSnoc(s.deliveries, t.deliveries[|s.deliveries|]);
    var (h, i) := (s.threads[th].stage.handle, s.threads[th].reply.related);
    IssuedAfterHand(s.calls, s.issued, s.maps.sampleCallhandle, s.maps.callhandleClient, Answered(s.deliveries), h, i);
    ThreadsAfterHand(s.issued, s.replies, s.threads, s.maps.sampleCallhandle, Answered(s.deliveries), th, i);
  }

  lemma HandKeepsMaps(b: Bridge, s: State, th: nat)
    requires Inv(b, s) && Enabled(s, Hand(th)) && s.threads[th].stage.handle in s.maps.callhandleClient
    ensures var t := Apply(b, s, Hand(th)); MapsInv(b.server, t.calls, t.maps, Answered(t.deliveries))
  {
    HandFinds(b, s, th);
    HandEffect(b, s, th);
    var t := Apply(b, s, Hand(th));
    AnsweredSnoc(s.deliveries, t.deliveries[|s.deliveries|]);
    forall i | i in t.maps.sampleCallhandle ensures GoodReplyType(b.server, t.calls, t.maps, i) {
      assert GoodReplyType(b.server, s.calls, s.maps, i);
    }
  }

  lemma DeliveriesAfterHand(
    b: Bridge, calls: map<Handle, Call>, issued: map<SampleId, Handle>, replies: set<Reply>, ds: seq<Delivery>, x: Delivery)
    requires DeliveryInv(b, calls, issued, replies, ds) && GoodDelivery(b, calls, issued, replies, x)
    requires x.handle !in Answered(ds)
    ensures DeliveryInv(b, calls, issued, replies, ds + [x])
  {
    forall d | 0 <= d < |ds| ensures ds[d].handle != x.handle {
      assert ds[d].handle in Answered(ds);
    }
  }

  lemma OutputsAfterHand(b: Bridge, calls: map<Handle, Call>, ds: seq<Delivery>, outputs: seq<Output>, x: Delivery)
    requires OutputInv(b, calls, ds, outputs)
    ensures OutputInv(b, calls, ds + [x], outputs)
  {
    forall k | 0 <= k < |outputs| ensures GoodOutput(b, calls, ds + [x], outputs[k]) {
      assert GoodOutput(b, calls, ds, outputs[k]);
    }
  }

  lemma NotesAfterHand(
    b: Bridge, arrivals: map<Request, Arrival>, noted: map<Request, string>, ds: seq<Delivery>, x: Delivery)
    requires NotedInv(b, arrivals, noted, ds)
    ensures NotedInv(b, arrivals, noted, ds + [x])
  {
    forall r | r in arrivals && Unplaced(arrivals[r], ds + [x]) ensures Unplaced(arrivals[r], ds) {
      assert forall d | d in ds :: d in ds + [x];
    }
  }

  lemma HandKeepsDeliveries(b: Bridge, s: State, th: nat)
    requires Inv(b, s) && Enabled(s, Hand(th)) && s.threads[th].stage.handle in s.maps.callhandleClient
    ensures var t := Apply(b, s, Hand(th));
            && DeliveryInv(b, t.calls, t.issued, t.replies, t.deliveries)
            && OutputInv(b, t.calls, t.deliveries, t.outputs)
            && NotedInv(b, t.arrivals, t.noted, t.deliveries)
  {
    HandFinds(b, s, th);
    HandEffect(b, s, th);
    var x := Apply(b, s, Hand(th)).deliveries[|s.deliveries|];
    DeliveriesAfterHand(b, s.calls, s.issued, s.replies, s.deliveries, x);
    OutputsAfterHand(b, s.calls, s.deliveries, s.outputs, x);
    NotesAfterHand(b, s.arrivals, s.noted, s.deliveries, x);
  }

  lemma HandKeeps(b: Bridge, s: State, th: nat)
    requires Inv(b, s) && Enabled(s, Hand(th))
    ensures Inv(b, Apply(b, s, Hand(th)))
  {
    HandEffect(b, s, th);
    if s.threads[th].stage.handle in s.maps.callhandleClient {
      HandKeepsIssued(b, s, th);
      HandKeepsMaps(b, s, th);
      HandKeepsDeliveries(b, s, th);
    }
  }

  // Writing it.

  lemma SameAnswered(ds: seq<Delivery>, d: nat, x: Delivery)
    requires d < |ds| && x.handle == ds[d].handle
    ensures Answered(ds[d := x]) == Answered(ds)
  {
    var es := ds[d := x];
    forall h | h in Answered(ds) ensures h in Answered(es) {
      var i :| 0 <= i < |ds| && ds[i].handle == h;
      assert es[i].handle == h;
    }
    forall h | h in Answered(es) ensures h in Answered(ds) {
      var i :| 0 <= i < |es| && es[i].handle == h;
      assert ds[i].handle == h;
    }
  }

  lemma OneDelivery(
    b: Bridge, calls: map<Handle, Call>, issued: map<SampleId, Handle>, replies: set<Reply>, ds: seq<Delivery>, d: nat)
    requires DeliveryInv(b, calls, issued, replies, ds) && d < |ds|
    ensures GoodDelivery(b, calls, issued, replies, ds[d])
    ensures forall e | e in ds && e.handle == ds[d].handle :: e == ds[d]
  {
  }

  /** The delivery being handled, and the arrival it goes back to. */
  lemma DeliveryOrigin(b: Bridge, s: State, d: nat)
    requires Inv(b, s) && d < |s.deliveries|
    ensures GoodDelivery(b, s.calls, s.issued, s.replies, s.deliveries[d])
    ensures var h := s.deliveries[d].handle;
            && h in s.calls && s.calls[h].request in s.arrivals
            && s.arrivals[s.calls[h].request] == Arrival(s.calls[h].node, s.calls[h].typ, Called(h))
    ensures forall e | e in s.deliveries && e.handle == s.deliveries[d].handle :: e == s.deliveries[d]
  {
    OneDelivery(b, s.calls, s.issued, s.replies, s.deliveries, d);
  }

  /** The client looks up the path configured for the type of the request it took. */
  lemma PlaceFinds(b: Bridge, s: State, d: nat)
    requires Inv(b, s) && Enabled(s, Place(d))
    ensures var call := s.calls[s.deliveries[d].handle];
            PlacePath(b, s, call.request) == ReplyPath(ClientConfig(b, call.request.client), call.node)
  {
    DeliveryOrigin(b, s, d);
    var r := s.calls[s.deliveries[d].handle].request;
    assert Unplaced(s.arrivals[r], s.deliveries);
    assert GoodNote(b, s.arrivals[r], s.noted, r);
  }

  /** Handling one delivery concerns only the arrival its call came from. */
  lemma UnplacedBefore(a: Arrival, ds: seq<Delivery>, d: nat, x: Delivery)
    requires d < |ds| && x.handle == ds[d].handle && a.stage != Called(x.handle)
    ensures Unplaced(a, ds[d := x]) == Unplaced(a, ds)
  {
    forall e | e in ds && e.handle != x.handle ensures e in ds[d := x] {
      var i :| 0 <= i < |ds| && ds[i] == e;
      assert ds[d := x][i] == e;
    }
  }

  lemma NotesAfterHandling(
    b: Bridge, arrivals: map<Request, Arrival>, noted: map<Request, string>, ds: seq<Delivery>,
    d: nat, x: Delivery, r: Request, after: map<Request, string>)
    requires NotedInv(b, arrivals, noted, ds) && d < |ds| && x.handle == ds[d].handle && x.handling != Handed
    requires r in arrivals && arrivals[r].stage == Called(x.handle)
    requires forall q | q in arrivals && q != r :: arrivals[q].stage != Called(x.handle)
    requires after == noted || after == noted - {r}
    ensures NotedInv(b, arrivals, after, ds[d := x])
  {
    var es := ds[d := x];
    assert es[d] == x;
    forall q | q in arrivals && (arrivals[q].stage == New || Unplaced(arrivals[q], es))
      ensures GoodNote(b, arrivals[q], after, q)
    {
      assert q != r;
      UnplacedBefore(arrivals[q], ds, d, x);
      assert GoodNote(b, arrivals[q], noted, q);
    }
  }

  lemma DeliveriesAfterHandling(
    b: Bridge, calls: map<Handle, Call>, issued: map<SampleId, Handle>, replies: set<Reply>, ds: seq<Delivery>,
    d: nat, x: Delivery)
    requires DeliveryInv(b, calls, issued, replies, ds) && d < |ds| && x.handle == ds[d].handle
    requires GoodDelivery(b, calls, issued, replies, x)
    ensures DeliveryInv(b, calls, issued, replies, ds[d := x])
  {
  }

  lemma OutputsAfterHandling(
    b: Bridge, calls: map<Handle, Call>, ds: seq<Delivery>, outputs: seq<Output>, d: nat, x: Delivery)
    requires OutputInv(b, calls, ds, outputs) && d < |ds| && ds[d].handling != Sent
    ensures OutputInv(b, calls, ds[d := x], outputs)
    ensures forall k | 0 <= k < |outputs| :: outputs[k].from != d
  {
    forall k | 0 <= k < |outputs| ensures GoodOutput(b, calls, ds[d := x], outputs[k]) && outputs[k].from != d {
      assert GoodOutput(b, calls, ds, outputs[k]);
    }
  }

  /** Moving a delivery on, without harm to what is known of it, keeps the rest. */
  lemma HandlingKeeps(b: Bridge, s: State, d: nat, x: Delivery, noted: map<Request, string>)
    requires Inv(b, s) && d < |s.deliveries| && s.deliveries[d].handling != Sent
    requires x.handle == s.deliveries[d].handle && x.handling != Handed
    requires GoodDelivery(b, s.calls, s.issued, s.replies, x)
    requires noted == s.noted || noted == s.noted - {s.calls[x.handle].request}
    ensures Inv(b, s.(deliveries := s.deliveries[d := x], noted := noted))
    ensures forall k | 0 <= k < |s.outputs| :: s.outputs[k].from != d
  {
    DeliveryOrigin(b, s, d);
    NotesAfterHandling(b, s.arrivals, s.noted, s.deliveries, d, x, s.calls[x.handle].request, noted);
    DeliveriesAfterHandling(b, s.calls, s.issued, s.replies, s.deliveries, d, x);
    OutputsAfterHandling(b, s.calls, s.deliveries, s.outputs, d, x);
    SameAnswered(s.deliveries, d, x);
  }

  lemma PlaceKeeps(b: Bridge, s: State, d: nat)
    requires Inv(b, s) && Enabled(s, Place(d))
    ensures Inv(b, Apply(b, s, Place(d)))
  {
    DeliveryOrigin(b, s, d);
    PlaceFinds(b, s, d);
    var r := s.calls[s.deliveries[d].handle].request;
    HandlingKeeps(b, s, d, s.deliveries[d].(handling := Placed(PlacePath(b, s, r))), s.noted - {r});
  }

  lemma OutputsAfterSend(b: Bridge, calls: map<Handle, Call>, ds: seq<Delivery>, outputs: seq<Output>, o: Output)
    requires OutputInv(b, calls, ds, outputs) && GoodOutput(b, calls, ds, o)
    requires forall k | 0 <= k < |outputs| :: outputs[k].from != o.from
    ensures OutputInv(b, calls, ds, outputs + [o])
  {
  }

  lemma SendKeeps(b: Bridge, s: State, d: nat)
    requires Inv(b, s) && Enabled(s, Send(d))
    ensures Inv(b, Apply(b, s, Send(d)))
  {
    DeliveryOrigin(b, s, d);
    var x := s.deliveries[d].(handling := Sent);
    HandlingKeeps(b, s, d, x, s.noted);
    var t := Apply(b, s, Send(d));
    OutputsAfterSend(b, s.calls, s.deliveries[d := x], s.outputs, t.outputs[|s.outputs|]);
  }

  lemma FailSendKeeps(b: Bridge, s: State, d: nat)
    requires Inv(b, s) && Enabled(s, FailSend(d))
    ensures Inv(b, Apply(b, s, FailSend(d)))
  {
    DeliveryOrigin(b, s, d);
    HandlingKeeps(b, s, d, s.deliveries[d].(handling := Sent), s.noted);
  }

  lemma StepKeeps(b: Bridge, s: State, step: Step)
    requires Inv(b, s) && Enabled(s, step)
    ensures Inv(b, Apply(b, s, step))
  {
    match step
    case Arrive(r, node, typ) => ArriveKeeps(b, s, r, node, typ);
    case Note(r) => NoteKeeps(b, s, r);
    case Begin(r, h) => BeginKeeps(b, s, r, h);
    case WriteRequest(i) => WriteKeeps(b, s, i);
    case FailRequest => FailKeeps(b, s);
    case Record => RecordKeeps(b, s);
    case Answer(reply) => AnswerKeeps(b, s, reply);
    case Spawn(t, reply) => SpawnKeeps(b, s, t, reply);
    case Look(t) => LookKeeps(b, s, t);
    case Hand(t) => HandKeeps(b, s, t);
    case Place(d) => PlaceKeeps(b, s, d);
    case Send(d) => SendKeeps(b, s, d);
    case FailSend(d) => FailSendKeeps(b, s, d);
  }

  /** The invariant holds in every state of every run. */
  lemma {:induction false} RunKeeps(b: Bridge, steps: seq<Step>, states: seq<State>, k: nat)
    requires IsRun(b, steps, states) && k < |states|
    ensures Inv(b, states[k])
  {
    if k > 0 {
      RunKeeps(b, steps, states, k - 1);
      StepKeeps(b, states[k - 1], steps[k - 1]);
    }
  }

  // ---------------------------------------------------------------------------------------------
  // What it means for requests and replies

  /**
   In every run each call is answered at most once; the answer goes to the client that made the
   call, is a reply to the very request written for it, and is read at the path of its reply type.
   */
  lemma AtMostOnce(b: Bridge, steps: seq<Step>, states: seq<State>, k: nat)
    requires IsRun(b, steps, states) && k < |states|
    ensures var s := states[k];
            && (forall d, e | 0 <= d < e < |s.deliveries| :: s.deliveries[d].handle != s.deliveries[e].handle)
            && forall d | 0 <= d < |s.deliveries| ::
                 var x := s.deliveries[d];
                 && x.handle in s.calls
                 && x.response.client == s.calls[x.handle].request.client
                 && x.response.path == ReplyPath(b.server, s.calls[x.handle].typ)
                 && x.reply in s.replies && x.reply.related in s.issued && s.issued[x.reply.related] == x.handle
  {
    RunKeeps(b, steps, states, k);
    var s := states[k];
    forall d | 0 <= d < |s.deliveries| ensures GoodDelivery(b, s.calls, s.issued, s.replies, s.deliveries[d]) {
    }
  }

  /** With nothing being written, the server knows exactly the requests written and not yet answered. */
  lemma PendingAre(
    c: Config, calls: map<Handle, Call>, issued: map<SampleId, Handle>, m: Maps, answered: set<Handle>, i: SampleId)
    requires IssuedInv(calls, issued, None, m.sampleCallhandle, m.callhandleClient, answered)
    requires MapsInv(c, calls, m, answered)
    ensures Lookup(m, i) == if i in issued && issued[i] !in answered then Some(issued[i]) else None
  {
  }

  /**
   A reception thread gives a reply up in its first critical section exactly when the reply answers
   no request written so far, or one whose answer was handed over before. So a reply that overtakes
   the return of the write is not lost: the thread cannot look before the identity is recorded.
   */
  lemma NoReplyLost(b: Bridge, steps: seq<Step>, states: seq<State>, k: nat, th: nat)
    requires IsRun(b, steps, states) && k < |steps| && steps[k] == Look(th)
    ensures var (s, i) := (states[k], states[k].threads[th].reply.related);
            && (states[k + 1].threads[th].stage == Ended <==> i !in s.issued || s.issued[i] in Answered(s.deliveries))
            && (states[k + 1].threads[th].stage != Ended ==> states[k + 1].threads[th].stage == Found(s.issued[i]))
  {
    RunKeeps(b, steps, states, k);
    var s := states[k];
    PendingAre(b.server, s.calls, s.issued, s.maps, Answered(s.deliveries), s.threads[th].reply.related);
  }

  /** A thread that found its call does not give it up: afterwards the call has been answered. */
  lemma FoundIsAnswered(b: Bridge, steps: seq<Step>, states: seq<State>, k: nat, th: nat)
    requires IsRun(b, steps, states) && k < |steps| && steps[k] == Hand(th)
    ensures states[k].threads[th].stage.handle in Answered(states[k + 1].deliveries)
  {
    RunKeeps(b, steps, states, k);
    HandFinds(b, states[k], th);
    HandEffect(b, states[k], th);
    if states[k].threads[th].stage.handle in states[k].maps.callhandleClient {
      AnsweredSnoc(states[k].deliveries, states[k + 1].deliveries[|states[k].deliveries|]);
    }
  }

  /** A request that was written is in exactly one of three conditions: being recorded, pending, answered. */
  lemma OneCondition(b: Bridge, steps: seq<Step>, states: seq<State>, k: nat, i: SampleId)
    requires IsRun(b, steps, states) && k < |states| && i in states[k].issued
    ensures var s := states[k];
            var h := s.issued[i];
            var recording := s.writing == Some(Writing(h, Some(i)));
            var pending := i in s.maps.sampleCallhandle;
            var answered := h in Answered(s.deliveries);
            && (recording || pending || answered)
            && !(recording && pending) && !(recording && answered) && !(pending && answered)
  {
    RunKeeps(b, steps, states, k);
  }

  /**
   Each reply a client writes carries the body of a reply to the request that the server wrote for
   it. The body is read at the path that the server has configured for the type of the message, and
   placed at the one that the client has configured for the type of the node; and the client writes
   at most one reply for a request.
   */
  lemma EndToEnd(b: Bridge, steps: seq<Step>, states: seq<State>, k: nat)
    requires IsRun(b, steps, states) && k < |states|
    ensures var s := states[k];
            && (forall o | o in s.outputs ::
                  && o.request in s.arrivals
                  && o.readAt == ReplyPath(b.server, s.arrivals[o.request].typ)
                  && o.path == ReplyPath(ClientConfig(b, o.request.client), s.arrivals[o.request].node)
                  && exists i | i in s.issued ::
                       && s.issued[i] in s.calls && s.calls[s.issued[i]].request == o.request
                       && Reply(i, o.body) in s.replies)
            && forall m, n | 0 <= m < n < |s.outputs| :: s.outputs[m].request != s.outputs[n].request
  {
    RunKeeps(b, steps, states, k);
    var s := states[k];
    forall o | o in s.outputs
      ensures o.request in s.arrivals
      ensures o.readAt == ReplyPath(b.server, s.arrivals[o.request].typ)
      ensures o.path == ReplyPath(ClientConfig(b, o.request.client), s.arrivals[o.request].node)
      ensures exists i | i in s.issued ::
                && s.issued[i] in s.calls && s.calls[s.issued[i]].request == o.request
                && Reply(i, o.body) in s.replies
    {
      assert GoodOutput(b, s.calls, s.deliveries, o);
      DeliveryOrigin(b, s, o.from);
      var x := s.deliveries[o.from];
      assert x.reply == Reply(x.reply.related, o.body);
      assert x.reply.related in s.issued && s.calls[s.issued[x.reply.related]].request == o.request;
    }
    forall m, n | 0 <= m < n < |s.outputs| ensures s.outputs[m].request != s.outputs[n].request {
      OutputsDiffer(b, s, m, n);
    }
  }

  lemma OutputsDiffer(b: Bridge, s: State, m: nat, n: nat)
    requires Inv(b, s) && m < n < |s.outputs|
    ensures s.outputs[m].request != s.outputs[n].request
  {
    var x, y := s.outputs[m], s.outputs[n];
    assert GoodOutput(b, s.calls, s.deliveries, x) && GoodOutput(b, s.calls, s.deliveries, y);
    DeliveryOrigin(b, s, x.from);
    DeliveryOrigin(b, s, y.from);
    assert s.deliveries[x.from].handle != s.deliveries[y.from].handle;
  }
}
