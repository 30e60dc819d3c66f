/** The server itself: its maps, kept in step with the calls made, the requests written and the answers given. */
module Serving {
  import opened Options
  import opened ServerSide
  import opened Correlation

  lemma CallKeepsMaps(c: Config, calls: map<Handle, Call>, m: Maps, answered: set<Handle>, h: Handle, call: Call)
    requires MapsInv(c, calls, m, answered) && h !in calls && h !in answered
    ensures MapsInv(c, calls[h := call], BeginCall(m, h, call.request.client), answered)
  {
    var n := BeginCall(m, h, call.request.client);
    forall i | i in n.sampleCallhandle ensures GoodReplyType(c, calls[h := call], n, i) {
      assert GoodReplyType(c, calls, m, i);
    }
  }

  lemma CallIsIssued(
    calls: map<Handle, Call>, issued: map<SampleId, Handle>, pending: map<SampleId, Handle>,
    clients: map<Handle, ClientId>, answered: set<Handle>, h: Handle, i: SampleId)
    requires IssuedInv(calls, issued, None, pending, clients, answered)
    requires h in calls && h in clients && i !in issued && forall j | j in issued :: issued[j] != h
    ensures IssuedInv(calls, issued[i := h], None, pending[i := h], clients, answered)
  {
  }

  lemma AnswerKeepsMaps(
    c: Config, calls: map<Handle, Call>, issued: map<SampleId, Handle>, m: Maps, answered: set<Handle>, h: Handle, s: SampleId)
    requires IssuedInv(calls, issued, None, m.sampleCallhandle, m.callhandleClient, answered)
    requires MapsInv(c, calls, m, answered) && s in m.sampleCallhandle && m.sampleCallhandle[s] == h
    ensures MapsInv(c, calls, Maps(m.callhandleClient - {h}, m.sampleCallhandle - {s}, m.replyIdType - {s}), answered + {h})
  {
    var n := Maps(m.callhandleClient - {h}, m.sampleCallhandle - {s}, m.replyIdType - {s});
    forall i | i in n.sampleCallhandle ensures GoodReplyType(c, calls, n, i) {
      assert GoodReplyType(c, calls, m, i);
    }
  }

  /** The maps fit the calls made, the requests written and the answers given. */
  ghost predicate Fit(c: Config, calls: map<Handle, Call>, issued: map<SampleId, Handle>, answered: set<Handle>, m: Maps) {
    && IssuedInv(calls, issued, None, m.sampleCallhandle, m.callhandleClient, answered)
    && MapsInv(c, calls, m, answered) && answered <= calls.Keys
  }

  lemma CallFits(
    c: Config, calls: map<Handle, Call>, issued: map<SampleId, Handle>, answered: set<Handle>, m: Maps, h: Handle, call: Call)
    requires Fit(c, calls, issued, answered, m) && h !in calls
    ensures Fit(c, calls[h := call], issued, answered, BeginCall(m, h, call.request.client))
  {
    CallKeepsMaps(c, calls, m, answered, h, call);
  }

  lemma RecordFits(
    c: Config, calls: map<Handle, Call>, issued: map<SampleId, Handle>, answered: set<Handle>, m: Maps, h: Handle, s: SampleId)
    requires Fit(c, calls, issued, answered, m) && h in calls && h in m.callhandleClient
    requires s !in issued && forall j | j in issued :: issued[j] != h
    ensures Fit(c, calls, issued[s := h], answered, RecordCall(m, c, s, h, calls[h].typ))
  {
    MapsAfterRecord(c, calls, m, answered, s, h);
    CallIsIssued(calls, issued, m.sampleCallhandle, m.callhandleClient, answered, h, s);
  }

  lemma AnswerFits(
    c: Config, calls: map<Handle, Call>, issued: map<SampleId, Handle>, answered: set<Handle>, m: Maps, s: SampleId)
    requires Fit(c, calls, issued, answered, m) && s in issued
    ensures var (h, d) := (issued[s], Deliver(m, c, s, issued[s]));
            && Fit(c, calls, issued, answered + {h}, d.0)
            && d.1 == if h in answered then None else Some(Response(calls[h].request.client, ReplyPath(c, calls[h].typ)))
  {
    var h := issued[s];
    if s in m.sampleCallhandle {
      assert GoodReplyType(c, calls, m, s);
      AnswerKeepsMaps(c, calls, issued, m, answered, h, s);
      IssuedAfterHand(calls, issued, m.sampleCallhandle, m.callhandleClient, answered, h, s);
    } else {
      assert answered + {h} == answered;
    }
    DeliverEffect(c, calls, m, h, s);
  }

  class Server {
    const config: Config
    var callhandleClient: map<Handle, ClientId>
    var sampleCallhandle: map<SampleId, Handle>
    var replyIdType: map<SampleId, string>
    ghost var calls: map<Handle, Call>         // every call made
    ghost var issued: map<SampleId, Handle>    // every request written
    ghost var answered: set<Handle>            // the calls whose response was handed over

    function State(): Maps
      reads this
    {
      Maps(callhandleClient, sampleCallhandle, replyIdType)
    }

    ghost predicate Valid()
      reads this
    {
      Fit(config, calls, issued, answered, State())
    }

    constructor (config: Config)
      ensures Valid() && this.config == config && calls == map[] && issued == map[] && answered == {}
    {
      this.config := config;
      callhandleClient, sampleCallhandle, replyIdType := map[], map[], map[];
      calls, issued, answered := map[], map[], {};
    }

    /** `written` is the new identity the data writer gave the request, if it took it. */
    method CallService(typ: string, client: ClientId, h: Handle, written: Option<SampleId>, ghost call: Call)
      requires Valid() && h !in calls && call.request.client == client && call.typ == typ
      requires written.Some? ==> written.value !in issued
      modifies this
      ensures Valid() && calls == old(calls)[h := call] && answered == old(answered)
      ensures issued == if written.Some? then old(issued)[written.value := h] else old(issued)
    {
      CallFits(config, calls, issued, answered, State(), h, call);
      calls := calls[h := call];
      callhandleClient := callhandleClient[h := client];
      if written.Some? {
        Record(typ, h, written.value);
      }
    }

    method Record(typ: string, h: Handle, sample: SampleId)
      requires Valid() && h in calls && calls[h].typ == typ && h in callhandleClient
      requires sample !in issued && forall j | j in issued :: issued[j] != h
      modifies this`sampleCallhandle, this`replyIdType, this`issued
      ensures Valid() && issued == old(issued)[sample := h]
    {
      RecordFits(config, calls, issued, answered, State(), h, sample);
      issued := issued[sample := h];
      sampleCallhandle := sampleCallhandle[sample := h];
      if typ in config.requestReply {
        replyIdType := replyIdType[sample := config.requestReply[typ]];
      }
    }

    /** The call that a reply answers, unless nothing was asked under this identity or it was answered before. */
    method LookUp(s: SampleId) returns (h: Option<Handle>)
      requires Valid()
      ensures h == if s in issued && issued[s] !in answered then Some(issued[s]) else None
    {
      PendingAre(config, calls, issued, State(), answered, s);
      if s in sampleCallhandle {
        h := Some(sampleCallhandle[s]);
      } else {
        h := None;
      }
    }

    /** The first reply to a call is handed to the client that made it, at the path of its reply type. */
    method Receive(s: SampleId, h: Handle) returns (response: Option<Response>)
      requires Valid() && s in issued && issued[s] == h
      modifies this
      ensures Valid() && calls == old(calls) && issued == old(issued) && answered == old(answered) + {h}
      ensures response == if h in old(answered) then None
                          else Some(Response(calls[h].request.client, ReplyPath(config, calls[h].typ)))
    {
      AnswerFits(config, calls, issued, answered, State(), s);
      answered := answered + {h};
      var path := config.replyRoot;
      if s in replyIdType {
        path := PathOf(config, replyIdType[s]);
        replyIdType := replyIdType - {s};
      }
      if h in callhandleClient {
        var client := callhandleClient[h];
        callhandleClient := callhandleClient - {h};
        sampleCallhandle := sampleCallhandle - {s};
        response := Some(Response(client, path));
      } else {
        response := None;
      }
    }
  }
}
