/** The request/reply bookkeeping of the server: three maps under one mutex, and its critical sections. */
module ServerSide {
  import opened Options

  type Handle = nat
  type ClientId = nat

  /** A sample is identified by the writer that issued it and its sequence number. */
  datatype SampleId = SampleId(writer: int, number: int)

  /** The order the maps are kept in. */
  predicate Less(a: SampleId, b: SampleId) {
    if a.writer < b.writer then true
    else if b.writer < a.writer then false
    else a.number < b.number
  }

  /** The order is strict and total, so a map ordered by it tells identities apart exactly. */
  lemma LessIsStrictTotal(a: SampleId, b: SampleId, c: SampleId)
    ensures !Less(a, a)
    ensures Less(a, b) && Less(b, c) ==> Less(a, c)
    ensures !Less(a, b) && !Less(b, a) <==> a == b
  {
  }

  /** The configuration of one side: the reply type of each request type, and the path of each type. */
  datatype Config = Config(requestReply: map<string, string>, typeToDiscriminator: map<string, string>, replyRoot: string)

  /** The path looked up for a type; the empty one when nothing was configured. */
  function PathOf(c: Config, typ: string): string {
    if typ in c.typeToDiscriminator then c.typeToDiscriminator[typ] else ""
  }

  /** Where the reply to a request of this type is found. */
  function ReplyPath(c: Config, requestType: string): string {
    if requestType in c.requestReply then PathOf(c, c.requestReply[requestType]) else c.replyRoot
  }

  datatype Maps = Maps(
    callhandleClient: map<Handle, ClientId>,
    sampleCallhandle: map<SampleId, Handle>,
    replyIdType: map<SampleId, string>)

  /** What is handed to a client: its call, and the path at which the reply is read. */
  datatype Response = Response(client: ClientId, path: string)

  // Before the request is written.
  function BeginCall(m: Maps, h: Handle, client: ClientId): Maps {
    m.(callhandleClient := m.callhandleClient[h := client])
  }

  // After the request was written as sample `s`.
  function RecordCall(m: Maps, c: Config, s: SampleId, h: Handle, typ: string): Maps {
    m.(sampleCallhandle := m.sampleCallhandle[s := h],
       replyIdType := if typ in c.requestReply then m.replyIdType[s := c.requestReply[typ]] else m.replyIdType)
  }

  // A reply has arrived: whose call is it?
  function Lookup(m: Maps, s: SampleId): Option<Handle> {
    if s in m.sampleCallhandle then Some(m.sampleCallhandle[s]) else None
  }

  /** The path of a reply, which uses up the entry of its sample. */
  function TakePath(ids: map<SampleId, string>, c: Config, s: SampleId): (string, map<SampleId, string>) {
    if s in ids then (PathOf(c, ids[s]), ids - {s}) else (c.replyRoot, ids)
  }

  // The reply has been converted: hand it over, if the call is still pending.
  function Deliver(m: Maps, c: Config, s: SampleId, h: Handle): (Maps, Option<Response>) {
    var (path, ids) := TakePath(m.replyIdType, c, s);
    if h in m.callhandleClient then
      (Maps(m.callhandleClient - {h}, m.sampleCallhandle - {s}, ids), Some(Response(m.callhandleClient[h], path)))
    else
      (m.(replyIdType := ids), None)
  }
}
