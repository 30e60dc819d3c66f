/**
 The routing tables of a client: which path of the request or reply type each configured type is
 found at, which reply type answers which request type, and which callback takes which request.
 */
module Routing {
  import opened Options
  import opened Strings
  import opened Paths
  import opened Navigation
  import opened Discriminator
  import X = XTypes
  import S = ServerSide

  type Callback = nat

  /** The types named by one part of the configuration; each of them may be left out. */
  datatype Service = Service(typ: Option<string>, requestType: Option<string>, replyType: Option<string>)

  /** `remapped` is the part under "remap" and "dds". */
  datatype Configuration = Configuration(remapped: Option<Service>, plain: Service)

  /** The request and the reply type of the service. */
  datatype ServiceTypes = ServiceTypes(request: X.XType, reply: X.XType)

  /** `requestPath` and `asReply` tell how the types were configured: as requests by which path, as replies last. */
  datatype Tables = Tables(
    typeToDiscriminator: map<string, string>,
    requestReply: map<string, string>,
    memberTypes: seq<string>,
    callbacks: map<string, Callback>,
    added: seq<(X.XType, string)>,          // the paths added to the navigation tree
    requestPath: map<string, string>,       // the path each request type was last configured by
    asReply: set<string>)                   // the types that were last configured as a reply

  const EMPTY := Tables(map[], map[], [], map[], [], map[], {})

  /** How a part of the configuration is taken. `Threw` stands for the exception of a failed lookup. */
  datatype Outcome = Ready(typeName: string) | Refused | Threw

  /** How a whole configuration is taken: the value returned, or the exception. */
  datatype Result = Returned(callbackSet: bool) | Failed

  /** The name of a type without a leading "::". */
  function Stripped(name: string): string {
    if |name| >= 2 && name[..2] == "::" then name[2..] else name
  }

  /** The type a path leads to, by its name. */
  function NameAt(t: X.XType, path: string): Option<string> {
    match ResolveNames(t, Split(path)[1..])
    case None => None
    case Some(m) => Some(Stripped(Name(m)))
  }

  // The tables after a path was taken to a type called `name`.
  function WithPath(r: Tables, name: string, path: string): Tables {
    r.(typeToDiscriminator := r.typeToDiscriminator[name := path], memberTypes := r.memberTypes + [name])
  }

  function TakeRequest(r: Tables, ts: ServiceTypes, path: string, callback: Callback): (Tables, Outcome) {
    match NameAt(ts.request, path)
    case None => (r, Threw)
    case Some(name) =>
      (WithPath(r, name, path).(
         callbacks := r.callbacks[name := callback], added := r.added + [(ts.request, path)],
         requestPath := r.requestPath[name := path], asReply := r.asReply - {name}),
       Ready(name))
  }

  /** A reply is refused when there is no request it could be the reply to, after its path was taken. */
  function TakeReply(r: Tables, ts: ServiceTypes, path: string, request: string): (Tables, Outcome) {
    match NameAt(ts.reply, path)
    case None => (r, Threw)
    case Some(name) =>
      var r' := WithPath(r, name, path).(asReply := r.asReply + {name});
      if request == "" then (r', Refused)
      else (r'.(requestReply := r.requestReply[request := name], added := r.added + [(ts.reply, path)]), Ready(name))
  }

  /** A request type and the reply type for it, either of which may be left out. */
  function TakePair(r: Tables, ts: ServiceTypes, s: Service, callback: Callback): (Tables, Outcome) {
    var (r', o) := if s.requestType.Some? then TakeRequest(r, ts, s.requestType.value, callback) else (r, Ready(""));
    if o.Threw? || s.replyType.None? then (r', o) else TakeReply(r', ts, s.replyType.value, o.typeName)
  }

  /** One part of the configuration; also tells whether a callback was set. */
  function TakeService(r: Tables, ts: ServiceTypes, s: Service, callback: Callback): (Tables, Outcome, bool) {
    if s.typ.Some? then
      var (r', o) := TakeRequest(r, ts, s.typ.value, callback);
      (r', o, true)
    else
      var (r', o) := TakePair(r, ts, s, callback);
      (r', o, s.requestType.Some?)
  }

  function TakePlain(r: Tables, ts: ServiceTypes, s: Service, callback: Callback): (Tables, Result) {
    var (r', o, done) := TakeService(r, ts, s, callback);
    (r', if o.Threw? then Failed else Returned(done && o.Ready?))
  }

  function TakeConfig(r: Tables, ts: ServiceTypes, c: Configuration, callback: Callback): (Tables, Result) {
    var (r', o, done) := if c.remapped.Some? then TakeService(r, ts, c.remapped.value, callback) else (r, Ready(""), false);
    if o.Threw? then (r', Failed)
    else if o.Refused? then (r', Returned(false))
    else if done then (r', Returned(true))
    else TakePlain(r', ts, c.plain, callback)
  }

  /** The tables after some configurations, whatever came of each of them. */
  function Configured(ts: ServiceTypes, cs: seq<(Configuration, Callback)>): Tables {
    if cs == [] then EMPTY
    else
      var last := cs[|cs| - 1];
      TakeConfig(Configured(ts, cs[..|cs| - 1]), ts, last.0, last.1).0
  }

  // ---------------------------------------------------------------------------------------------
  // What configurations put into the tables

  predicate IsEmpty(s: Service) {
    s.typ.None? && s.requestType.None? && s.replyType.None?
  }

  /** The part that counts: the remapped one, unless there is none or nothing is in it. */
  function Deciding(c: Configuration): Service {
    if c.remapped.Some? && !IsEmpty(c.remapped.value) then c.remapped.value else c.plain
  }

  function RequestPath(s: Service): Option<string> {
    if s.typ.Some? then s.typ else s.requestType
  }

  function NameAtAny(t: X.XType, path: Option<string>): Option<string> {
    match path case None => None case Some(p) => NameAt(t, p)
  }

  /** The request type it sets a callback for, if any. */
  function RequestName(ts: ServiceTypes, s: Service): Option<string> {
    NameAtAny(ts.request, RequestPath(s))
  }

  /** The reply type whose path it takes, if any: after a request path that was there and led nowhere, none. */
  function ReplyName(ts: ServiceTypes, s: Service): Option<string> {
    if s.typ.Some? || (s.requestType.Some? && RequestName(ts, s).None?) then None else NameAtAny(ts.reply, s.replyType)
  }

  /** The reply type is paired with the request type. */
  predicate IsPaired(ts: ServiceTypes, s: Service) {
    ReplyName(ts, s).Some? && RequestName(ts, s).Some? && RequestName(ts, s) != Some("")
  }

  function PathsAdded(ts: ServiceTypes, s: Service): seq<(X.XType, string)> {
    (if RequestName(ts, s).Some? then [(ts.request, RequestPath(s).value)] else []) +
    (if IsPaired(ts, s) then [(ts.reply, s.replyType.value)] else [])
  }

  function Entered<T>(m: map<string, T>, name: Option<string>, value: T): map<string, T> {
    match name case None => m case Some(n) => m[n := value]
  }

  /** `r'` is `r` with what a part of a configuration says entered, and nothing else. */
  ghost predicate HasEntered(r: Tables, r': Tables, ts: ServiceTypes, s: Service, callback: Callback) {
    var (q, p) := (RequestName(ts, s), ReplyName(ts, s));
    && r'.callbacks == Entered(r.callbacks, q, callback)
    && r'.added == r.added + PathsAdded(ts, s)
    && r'.memberTypes == r.memberTypes + (if q.Some? then [q.value] else []) + (if p.Some? then [p.value] else [])
    && r'.requestReply == (if IsPaired(ts, s) then r.requestReply[q.value := p.value] else r.requestReply)
    && r'.requestPath == (if q.Some? then r.requestPath[q.value := RequestPath(s).value] else r.requestPath)
    && r'.typeToDiscriminator == PathsEntered(r.typeToDiscriminator, ts, s)
  }

  function PathsEntered(paths: map<string, string>, ts: ServiceTypes, s: Service): map<string, string> {
    var (q, p) := (RequestName(ts, s), ReplyName(ts, s));
    var m := if q.Some? then paths[q.value := RequestPath(s).value] else paths;
    if p.Some? then m[p.value := s.replyType.value] else m
  }

  lemma NothingEnters(r: Tables, ts: ServiceTypes, s: Service, callback: Callback)
    requires (s.typ.Some? || s.replyType.None?) && RequestName(ts, s).None?
    ensures HasEntered(r, TakeService(r, ts, s, callback).0, ts, s, callback)
  {
    assert TakeService(r, ts, s, callback).0 == r && PathsAdded(ts, s) == [];
  }

  lemma RequestEnters(r: Tables, ts: ServiceTypes, s: Service, callback: Callback)
    requires (s.typ.Some? || s.replyType.None?) && RequestName(ts, s).Some?
    ensures HasEntered(r, TakeService(r, ts, s, callback).0, ts, s, callback)
  {
    var path := RequestPath(s).value;
    assert TakeService(r, ts, s, callback).0 == TakeRequest(r, ts, path, callback).0;
    assert PathsAdded(ts, s) == [(ts.request, path)];
  }

  lemma ReplyEnters(r: Tables, ts: ServiceTypes, s: Service, callback: Callback)
    requires s.typ.None? && s.requestType.None? && s.replyType.Some?
    ensures HasEntered(r, TakeService(r, ts, s, callback).0, ts, s, callback)
  {
  }

  lemma PairEnters(r: Tables, ts: ServiceTypes, s: Service, callback: Callback)
    requires s.typ.None? && s.requestType.Some? && s.replyType.Some?
    ensures HasEntered(r, TakeService(r, ts, s, callback).0, ts, s, callback)
  {
    var (q, p) := (s.requestType.value, s.replyType.value);
    var r' := TakePair(r, ts, s, callback).0;
    if IsPaired(ts, s) {
      assert PathsAdded(ts, s) == [(ts.request, q), (ts.reply, p)];
      assert r'.added == r.added + [(ts.request, q)] + [(ts.reply, p)];
    } else if NameAt(ts.request, q).Some? {
      assert r'.added == r.added + [(ts.request, q)];
    } else {
      assert r' == r;
    }
  }

  lemma DecidingIsTaken(r: Tables, ts: ServiceTypes, c: Configuration, callback: Callback)
    ensures TakeConfig(r, ts, c, callback).0 == TakeService(r, ts, Deciding(c), callback).0
  {
  }

  /** One configuration enters what its deciding part says. */
  lemma ConfigEnters(r: Tables, ts: ServiceTypes, c: Configuration, callback: Callback)
    ensures HasEntered(r, TakeConfig(r, ts, c, callback).0, ts, Deciding(c), callback)
  {
    DecidingIsTaken(r, ts, c, callback);
    var s := Deciding(c);
    if s.typ.Some? || s.replyType.None? {
      if RequestName(ts, s).Some? {
        RequestEnters(r, ts, s, callback);
      } else {
        NothingEnters(r, ts, s, callback);
      }
    } else if s.requestType.None? {
      ReplyEnters(r, ts, s, callback);
    } else {
      PairEnters(r, ts, s, callback);
    }
  }

  /** It is taken successfully exactly when its request path is there and leads somewhere, and the reply, if any, is paired. */
  lemma ConfigResult(r: Tables, ts: ServiceTypes, c: Configuration, callback: Callback)
    ensures var (result, s) := (TakeConfig(r, ts, c, callback).1, Deciding(c));
            && (result == Returned(true) <==>
                  RequestName(ts, s).Some? && (s.typ.Some? || s.replyType.None? || IsPaired(ts, s)))
            && (result == Failed <==>
                  (RequestPath(s).Some? && RequestName(ts, s).None?) ||
                  (s.typ.None? && s.replyType.Some? && ReplyName(ts, s).None?))
  {
  }

  /** The request type that configuration `k` sets a callback for. */
  function RequestOf(ts: ServiceTypes, cs: seq<(Configuration, Callback)>, k: nat): Option<string>
    requires k < |cs|
  {
    RequestName(ts, Deciding(cs[k].0))
  }

  /** Configuration `k` is the last one for that request type. */
  predicate IsLastFor(ts: ServiceTypes, cs: seq<(Configuration, Callback)>, name: string, k: int) {
    && 0 <= k < |cs| && RequestOf(ts, cs, k) == Some(name)
    && forall j | k < j < |cs| :: RequestOf(ts, cs, j) != Some(name)
  }

  lemma LastConfig(ts: ServiceTypes, cs: seq<(Configuration, Callback)>) returns (before: Tables, s: Service)
    requires cs != []
    ensures before == Configured(ts, cs[..|cs| - 1]) && s == Deciding(cs[|cs| - 1].0)
    ensures var (r, q) := (Configured(ts, cs), RequestName(ts, s));
            && r.callbacks == Entered(before.callbacks, q, cs[|cs| - 1].1)
            && r.requestPath == (if q.Some? then before.requestPath[q.value := RequestPath(s).value] else before.requestPath)
            && r.added == before.added + PathsAdded(ts, s)
  {
    var last := cs[|cs| - 1];
    before, s := Configured(ts, cs[..|cs| - 1]), Deciding(last.0);
    ConfigEnters(before, ts, last.0, last.1);
  }

  /** After any configurations, a request type has a callback exactly when one of them was for it. */
  lemma {:induction false} CallbackFor(ts: ServiceTypes, cs: seq<(Configuration, Callback)>, name: string)
    ensures name in Configured(ts, cs).callbacks <==> exists k | 0 <= k < |cs| :: RequestOf(ts, cs, k) == Some(name)
  {
    if cs != [] {
      var n := |cs| - 1;
      CallbackFor(ts, cs[..n], name);
      var before, s := LastConfig(ts, cs);
      assert RequestOf(ts, cs, n) == RequestName(ts, s);
      OneMoreRequest(ts, cs, cs[..n], name);
    }
  }

  lemma OneMoreRequest(
    ts: ServiceTypes, cs: seq<(Configuration, Callback)>, prefix: seq<(Configuration, Callback)>, name: string)
    requires cs != [] && prefix == cs[..|cs| - 1]
    ensures (exists k | 0 <= k < |cs| :: RequestOf(ts, cs, k) == Some(name)) <==>
              (exists k | 0 <= k < |prefix| :: RequestOf(ts, prefix, k) == Some(name))
              || RequestOf(ts, cs, |cs| - 1) == Some(name)
  {
    forall k | 0 <= k < |prefix| ensures RequestOf(ts, cs, k) == RequestOf(ts, prefix, k) {
    }
  }

  /** The tables have that callback and that path for the request type. */
  predicate HasCallback(r: Tables, name: string, callback: Callback, path: Option<string>) {
    && name in r.callbacks && r.callbacks[name] == callback
    && name in r.requestPath && Some(r.requestPath[name]) == path
  }

  /** It has the callback and the path of the last one. */
  lemma {:induction false} LastDecides(ts: ServiceTypes, cs: seq<(Configuration, Callback)>, name: string, k: nat)
    requires IsLastFor(ts, cs, name, k)
    ensures HasCallback(Configured(ts, cs), name, cs[k].1, RequestPath(Deciding(cs[k].0)))
  {
    var n := |cs| - 1;
    var before, s := LastConfig(ts, cs);
    if k < n {
      LastBefore(ts, cs, name, k);
      LastDecides(ts, cs[..n], name, k);
      CallbackStays(before, Configured(ts, cs), ts, s, cs[n].1, name, cs[k].1, RequestPath(Deciding(cs[k].0)));
    } else {
      assert RequestOf(ts, cs, n) == Some(name);
      CallbackSet(before, Configured(ts, cs), ts, s, cs[n].1, name);
    }
  }

  lemma CallbackSet(before: Tables, r: Tables, ts: ServiceTypes, s: Service, callback: Callback, name: string)
    requires RequestName(ts, s) == Some(name) && r.callbacks == before.callbacks[name := callback]
    requires r.requestPath == before.requestPath[name := RequestPath(s).value]
    ensures HasCallback(r, name, callback, RequestPath(s))
  {
  }

  /** A part that is not for the request type leaves its callback and path. */
  lemma CallbackStays(
    before: Tables, r: Tables, ts: ServiceTypes, s: Service, last: Callback,
    name: string, callback: Callback, path: Option<string>)
    requires HasCallback(before, name, callback, path)
    requires var q := RequestName(ts, s);
             && q != Some(name) && r.callbacks == Entered(before.callbacks, q, last)
             && r.requestPath == (if q.Some? then before.requestPath[q.value := RequestPath(s).value] else before.requestPath)
    ensures HasCallback(r, name, callback, path)
  {
  }

  lemma LastBefore(ts: ServiceTypes, cs: seq<(Configuration, Callback)>, name: string, k: nat)
    requires IsLastFor(ts, cs, name, k) && k < |cs| - 1
    ensures IsLastFor(ts, cs[..|cs| - 1], name, k) && RequestName(ts, Deciding(cs[|cs| - 1].0)) != Some(name)
  {
    var n := |cs| - 1;
    assert RequestOf(ts, cs, n) != Some(name);
    assert forall j | 0 <= j < n :: RequestOf(ts, cs, j) == RequestOf(ts, cs[..n], j);
  }

  /** The paths that configuration `k` puts into the tree. */
  function PathsOf(ts: ServiceTypes, cs: seq<(Configuration, Callback)>, k: nat): seq<(X.XType, string)>
    requires k < |cs|
  {
    PathsAdded(ts, Deciding(cs[k].0))
  }

  /** The paths that went into the tree are those of all configurations. */
  lemma {:induction false} AddedByConfigs(ts: ServiceTypes, cs: seq<(Configuration, Callback)>, a: (X.XType, string))
    ensures a in Configured(ts, cs).added <==> exists k | 0 <= k < |cs| :: a in PathsOf(ts, cs, k)
  {
    if cs != [] {
      var n := |cs| - 1;
      AddedByConfigs(ts, cs[..n], a);
      var before, s := LastConfig(ts, cs);
      OneMorePaths(ts, cs, cs[..n], a, before.added, Configured(ts, cs).added);
    }
  }

  lemma OneMorePaths(
    ts: ServiceTypes, cs: seq<(Configuration, Callback)>, prefix: seq<(Configuration, Callback)>, a: (X.XType, string),
    before: seq<(X.XType, string)>, after: seq<(X.XType, string)>)
    requires cs != [] && prefix == cs[..|cs| - 1] && after == before + PathsOf(ts, cs, |cs| - 1)
    requires a in before <==> exists k | 0 <= k < |prefix| :: a in PathsOf(ts, prefix, k)
    ensures a in after <==> exists k | 0 <= k < |cs| :: a in PathsOf(ts, cs, k)
  {
    var n := |cs| - 1;
    forall k | 0 <= k < n ensures PathsOf(ts, cs, k) == PathsOf(ts, prefix, k) {
    }
    assert a in after <==> a in before || a in PathsOf(ts, cs, n);
  }

  // ---------------------------------------------------------------------------------------------
  // The invariant

  /**
   A path leads to the type it is stored for: in the reply type, if the type was last configured as
   a reply, and otherwise in the request type, by the path last configured for the request.
   */
  ghost predicate GoodPath(r: Tables, ts: ServiceTypes, name: string)
    requires name in r.typeToDiscriminator
  {
    var path := r.typeToDiscriminator[name];
    if name in r.asReply then NameAt(ts.reply, path) == Some(name)
    else
      && name in r.requestPath && path == r.requestPath[name]
      && NameAt(ts.request, path) == Some(name) && (ts.request, path) in r.added
  }

  ghost predicate Inv(r: Tables, ts: ServiceTypes) {
    && (forall n | n in r.typeToDiscriminator :: GoodPath(r, ts, n))
    && (forall n :: n in r.memberTypes <==> n in r.typeToDiscriminator)
    && (forall q | q in r.requestReply :: q in r.callbacks && r.requestReply[q] in r.typeToDiscriminator)
    && (forall n | n in r.callbacks :: n in r.typeToDiscriminator)
    && r.requestPath.Keys == r.callbacks.Keys
    && (forall a | a in r.added :: a.0 == ts.request || a.0 == ts.reply)
  }

  lemma TakeRequestKeeps(r: Tables, ts: ServiceTypes, path: string, callback: Callback)
    requires Inv(r, ts)
    ensures var (r', o) := TakeRequest(r, ts, path, callback);
            && Inv(r', ts) && !o.Refused? && (o.Ready? ==> o.typeName in r'.callbacks)
  {
    var (r', o) := TakeRequest(r, ts, path, callback);
    forall n | n in r'.typeToDiscriminator ensures GoodPath(r', ts, n) {
      assert n in r.typeToDiscriminator ==> GoodPath(r, ts, n);
    }
  }

  lemma TakeReplyKeeps(r: Tables, ts: ServiceTypes, path: string, request: string)
    requires Inv(r, ts) && (request != "" ==> request in r.callbacks)
    ensures Inv(TakeReply(r, ts, path, request).0, ts)
  {
    var r' := TakeReply(r, ts, path, request).0;
    forall n | n in r'.typeToDiscriminator ensures GoodPath(r', ts, n) {
      assert n in r.typeToDiscriminator ==> GoodPath(r, ts, n);
    }
  }

  lemma TakeServiceKeeps(r: Tables, ts: ServiceTypes, s: Service, callback: Callback)
    requires Inv(r, ts)
    ensures Inv(TakeService(r, ts, s, callback).0, ts)
  {
    if s.typ.Some? {
      TakeRequestKeeps(r, ts, s.typ.value, callback);
    } else {
      var (r', o) := if s.requestType.Some? then TakeRequest(r, ts, s.requestType.value, callback) else (r, Ready(""));
      if s.requestType.Some? {
        TakeRequestKeeps(r, ts, s.requestType.value, callback);
      }
      if !o.Threw? && s.replyType.Some? {
        TakeReplyKeeps(r', ts, s.replyType.value, o.typeName);
      }
    }
  }

  lemma TakeConfigKeeps(r: Tables, ts: ServiceTypes, c: Configuration, callback: Callback)
    requires Inv(r, ts)
    ensures Inv(TakeConfig(r, ts, c, callback).0, ts)
  {
    DecidingIsTaken(r, ts, c, callback);
    TakeServiceKeeps(r, ts, Deciding(c), callback);
  }

  /** After any configurations, also those refused or failed halfway, the tables fit together. */
  lemma {:induction false} ConfiguredKeeps(ts: ServiceTypes, cs: seq<(Configuration, Callback)>)
    ensures Inv(Configured(ts, cs), ts)
  {
    if cs != [] {
      var last := cs[|cs| - 1];
      ConfiguredKeeps(ts, cs[..|cs| - 1]);
      TakeConfigKeeps(Configured(ts, cs[..|cs| - 1]), ts, last.0, last.1);
    }
  }

  lemma ConfiguredOneMore(ts: ServiceTypes, cs: seq<(Configuration, Callback)>, c: Configuration, callback: Callback)
    ensures Configured(ts, cs + [(c, callback)]) == TakeConfig(Configured(ts, cs), ts, c, callback).0
  {
    assert (cs + [(c, callback)])[..|cs|] == cs;
  }

  /** The tables as the correlation of requests and replies sees them. */
  function Routes(r: Tables, ts: ServiceTypes): S.Config {
    S.Config(r.requestReply, r.typeToDiscriminator, Name(ts.reply))
  }

  /** A path that is valid in a type leads to data of the type it resolves to. */
  lemma PathReaches(t: X.XType, v: X.Value, path: string)
    requires X.WellTyped(t, v) && path != "" && path[|path| - 1] != '.' && Walk(t, Split(path)[1..]).Some?
    ensures var (at, u) := (AccessMemberData(t, v, path), Walk(t, Split(path)[1..]).value);
            at.Some? && at.value.typ == X.Resolve(u) && NameAt(t, path) == Some(Stripped(Name(u)))
  {
    LongestValidWhole(t, Split(path)[1..]);
    WalkersAgree(t, v, path);
  }

  /** What tables that fit together have to say about the path of a reply. */
  lemma PathInTables(r: Tables, ts: ServiceTypes, q: string)
    requires Inv(r, ts) && q in r.requestReply
    ensures var (name, path) := (r.requestReply[q], S.ReplyPath(Routes(r, ts), q));
            && q in r.callbacks && name in r.typeToDiscriminator && path == r.typeToDiscriminator[name]
            && (name in r.asReply || name in r.requestPath)
            && (NameAt(ts.reply, path) == Some(name) <==>
                  name in r.asReply || NameAt(ts.reply, r.requestPath[name]) == Some(name))
            && (name !in r.callbacks ==> name in r.asReply)
  {
    assert GoodPath(r, ts, r.requestReply[q]);
  }

  /**
   The path chosen for the response to a request leads, in the reply type, to the reply type
   configured for it exactly when that type was last configured as a reply, or the path it was last
   configured by as a request leads to it there as well.
   */
  lemma ReplyHasItsPath(ts: ServiceTypes, cs: seq<(Configuration, Callback)>, q: string)
    requires q in Configured(ts, cs).requestReply
    ensures var r := Configured(ts, cs);
            var (name, path) := (r.requestReply[q], S.ReplyPath(Routes(r, ts), q));
            && q in r.callbacks && name in r.typeToDiscriminator && path == r.typeToDiscriminator[name]
            && (name in r.asReply || name in r.requestPath)
            && (NameAt(ts.reply, path) == Some(name) <==>
                  name in r.asReply || NameAt(ts.reply, r.requestPath[name]) == Some(name))
            && (name !in r.callbacks ==> name in r.asReply)
  {
    ConfiguredKeeps(ts, cs);
    PathInTables(Configured(ts, cs), ts, q);
  }

  lemma PlaceInTables(r: Tables, ts: ServiceTypes, q: string, reply: X.Value)
    requires Inv(r, ts) && q in r.requestReply && r.requestReply[q] in r.asReply && X.WellTyped(ts.reply, reply)
    requires var path := S.ReplyPath(Routes(r, ts), q);
             path != "" && path[|path| - 1] != '.' && Walk(ts.reply, Split(path)[1..]).Some?
    ensures var path := S.ReplyPath(Routes(r, ts), q);
            var (at, u) := (AccessMemberData(ts.reply, reply, path), Walk(ts.reply, Split(path)[1..]).value);
            at.Some? && at.value.typ == X.Resolve(u) && Stripped(Name(u)) == r.requestReply[q]
  {
    PathInTables(r, ts, q);
    PathReaches(ts.reply, reply, S.ReplyPath(Routes(r, ts), q));
  }

  /** The response then has its place in the reply, if the path is valid: data of that type. */
  lemma ReplyHasItsPlace(ts: ServiceTypes, cs: seq<(Configuration, Callback)>, r: Tables, q: string, reply: X.Value)
    requires r == Configured(ts, cs) && q in r.requestReply && r.requestReply[q] in r.asReply && X.WellTyped(ts.reply, reply)
    requires var path := S.ReplyPath(Routes(r, ts), q);
             path != "" && path[|path| - 1] != '.' && Walk(ts.reply, Split(path)[1..]).Some?
    ensures var path := S.ReplyPath(Routes(r, ts), q);
            var (at, u) := (AccessMemberData(ts.reply, reply, path), Walk(ts.reply, Split(path)[1..]).value);
            at.Some? && at.value.typ == X.Resolve(u) && Stripped(Name(u)) == r.requestReply[q]
  {
    ConfiguredKeeps(ts, cs);
    PlaceInTables(r, ts, q, reply);
  }

  const PART := X.Struct("T", [])
  const SHARED := ServiceTypes(X.Struct("Req", [X.Member("a", PART)]), X.Struct("Rep", [X.Member("b", PART)]))

  lemma SharedNames()
    ensures NameAt(SHARED.request, "Req.a") == Some("T") && NameAt(SHARED.reply, "Rep.b") == Some("T")
    ensures NameAt(SHARED.reply, "Req.a") == None
  {
    SplitJoin(["Req", "a"]);
    SplitJoin(["Rep", "b"]);
    assert Join(["a"]) == "a" && Join(["b"]) == "b";
    assert ["Req", "a"][1..] == ["a"] && ["Rep", "b"][1..] == ["b"];
    assert Join(["Req", "a"]) == "Req.a" && Join(["Rep", "b"]) == "Rep.b";
    assert X.MemberNamed(SHARED.request.members, "a") == 0 && X.MemberNamed(SHARED.reply.members, "b") == 0;
    assert SHARED.reply.members[1..] == [] && X.MemberNamed(SHARED.reply.members, "a") == 1;
    assert ["a"][1..] == [] && ["b"][1..] == [];
  }

  function RequestOnly(path: string): Configuration {
    Configuration(None, Service(Some(path), None, None))
  }

  function RequestAndReply(request: string, reply: string): Configuration {
    Configuration(None, Service(None, Some(request), Some(reply)))
  }

  /** One request configured by a path. */
  lemma OneRequest(ts: ServiceTypes, cs: seq<(Configuration, Callback)>, path: string, callback: Callback)
    requires NameAt(ts.request, path).Some?
    ensures var (r, name) := (Configured(ts, cs), NameAt(ts.request, path).value);
            Configured(ts, cs + [(RequestOnly(path), callback)])
            == WithPath(r, name, path).(
                 callbacks := r.callbacks[name := callback], added := r.added + [(ts.request, path)],
                 requestPath := r.requestPath[name := path], asReply := r.asReply - {name})
  {
    ConfiguredOneMore(ts, cs, RequestOnly(path), callback);
  }

  /** One request configured with its reply, by paths to types of one name. */
  lemma OnePair(ts: ServiceTypes, cs: seq<(Configuration, Callback)>, request: string, reply: string, callback: Callback)
    requires NameAt(ts.request, request).Some? && NameAt(ts.reply, reply) == NameAt(ts.request, request) != Some("")
    ensures var (r, name) := (Configured(ts, cs + [(RequestAndReply(request, reply), callback)]), NameAt(ts.reply, reply).value);
            && name in r.requestReply && r.requestReply[name] == name
            && name in r.asReply && name in r.typeToDiscriminator && r.typeToDiscriminator[name] == reply
  {
    ConfiguredOneMore(ts, cs, RequestAndReply(request, reply), callback);
  }

  /**
   A type that is configured both as a request and as a reply has one path for both, that of the
   last configuration. So after the request is configured once more, the response gets its path,
   whatever that leads to in the reply type.
   */
  lemma SharedName(ts: ServiceTypes, request: string, reply: string, callback: Callback)
    requires NameAt(ts.request, request).Some? && NameAt(ts.reply, reply) == NameAt(ts.request, request) != Some("")
    ensures var cs := [(RequestAndReply(request, reply), callback), (RequestOnly(request), callback)];
            var (r, name) := (Configured(ts, cs), NameAt(ts.request, request).value);
            && name in r.requestReply && r.requestReply[name] == name && name !in r.asReply
            && S.ReplyPath(Routes(r, ts), name) == request
  {
    var one: seq<(Configuration, Callback)> := [(RequestAndReply(request, reply), callback)];
    OnePair(ts, [], request, reply, callback);
    assert [] + one == one;
    OneRequest(ts, one, request, callback);
    assert one + [(RequestOnly(request), callback)]
        == [(RequestAndReply(request, reply), callback), (RequestOnly(request), callback)];
  }

  /** For these types, the response gets a path that does not exist in the reply type. */
  lemma SharedNameMisplaces()
    ensures var r := Configured(SHARED, [(RequestAndReply("Req.a", "Rep.b"), 0), (RequestOnly("Req.a"), 0)]);
            && "T" in r.requestReply && r.requestReply["T"] == "T" && "T" !in r.asReply
            && NameAt(SHARED.reply, S.ReplyPath(Routes(r, SHARED), "T")) == None
  {
    SharedNames();
    SharedName(SHARED, "Req.a", "Rep.b", 0);
  }

  /** With no reply type configured for a request type, the response takes up the whole reply. */
  lemma ReplyIsWhole(ts: ServiceTypes, cs: seq<(Configuration, Callback)>, q: string, reply: X.Value)
    requires q !in Configured(ts, cs).requestReply && X.WellTyped(ts.reply, reply) && '.' !in Name(ts.reply)
    ensures AccessMemberData(ts.reply, reply, S.ReplyPath(Routes(Configured(ts, cs), ts), q))
         == Some(DataOf(ts.reply, reply))
  {
    WholeIsReached(ts.reply, reply, Name(ts.reply));
  }

  // ---------------------------------------------------------------------------------------------
  // The client

  /** Names identify types, among those of the service and the one its requests give themselves. */
  predicate GoodTypes(ts: ServiceTypes) {
    && Name(ts.request) != "" && Name(ts.reply) != ""
    && Identifiers(ts.request) && Identifiers(ts.reply) && Identifiers(X.Resolve(ts.request))
    && (Name(ts.request) == Name(ts.reply) ==> ts.request == ts.reply)
    && (Name(X.Resolve(ts.request)) == Name(ts.request) ==> X.Resolve(ts.request) == ts.request)
    && (Name(X.Resolve(ts.request)) == Name(ts.reply) ==> X.Resolve(ts.request) == ts.reply)
  }

  /** The callback called, if there is one for the message, and the message. */
  datatype Reception =
    | Call(callback: Callback, message: Located)
    | NoCallback(message: Located)
    | NoNode           // nothing was found, and the client goes on with a null pointer

  function CallFor(callbacks: map<string, Callback>, message: Located): Reception {
    if Name(message.typ) in callbacks then Call(callbacks[Name(message.typ)], message) else NoCallback(message)
  }

  /** Part of a message, and the type name of the node that stands for it. */
  datatype Part = Part(typeName: string, message: Located)

  /** The part is the live data of a node found; no part means that there is no such data. */
  ghost predicate IsPart(tree: NavigationTree, t: X.XType, v: X.Value, listed: seq<string>, part: Option<Part>)
    requires tree.Valid() && X.WellTyped(t, v) && Name(t) in tree.roots
    reads tree
  {
    var root := tree.roots[Name(t)];
    match part
    case None => forall j :: !Candidate(tree.place, root, Located(t, v), listed, j)
    case Some(p) => exists j: nat :: Topmost(tree.place, root, Located(t, v), listed, j) && IsPartAt(tree, t, v, p, j)
  }

  /** A node has a name unless it is a root whose path was never accepted. */
  ghost predicate HasName(tree: NavigationTree, j: nat)
    requires j < |tree.nodes|
    reads tree
  {
    tree.nodes[j].parent.Some? || tree.nodes[j].typeName != ""
  }

  /** The part at a node, by the name of the type of the node, if it has one. */
  ghost predicate IsPartAt(tree: NavigationTree, t: X.XType, v: X.Value, p: Part, j: nat)
    requires tree.Valid() && X.WellTyped(t, v) && j < |tree.nodes|
    reads tree
  {
    && Follow(Located(t, v), tree.place[j].names) == Some(p.message)
    && p.message.typ == X.Resolve(tree.TypeOf(j))
    && p.typeName == (if HasName(tree, j) then Name(tree.TypeOf(j)) else "")
  }

  /** The part is at a node of the tree for the type of the message. */
  ghost predicate IsPartUnder(tree: NavigationTree, t: X.XType, v: X.Value, p: Part, j: nat)
    reads tree
  {
    && tree.Valid() && X.WellTyped(t, v) && !t.Alias? && j < |tree.nodes|
    && Name(t) in tree.types && tree.types[Name(t)] == t && tree.place[j].root == Name(t)
    && IsPartAt(tree, t, v, p, j)
  }

  /**
   The name of the node and that of the message coincide exactly when the node has a name, and its
   type is declared by no alias of another name.
   */
  lemma NamesCoincide(tree: NavigationTree, t: X.XType, v: X.Value, p: Part, j: nat)
    requires IsPartUnder(tree, t, v, p, j)
    ensures p.typeName == Name(p.message.typ) <==>
              HasName(tree, j) && Name(X.Resolve(tree.TypeOf(j))) == Name(tree.TypeOf(j))
  {
    assert GoodNode(tree.nodes, tree.place, tree.roots, tree.types, j);
    if !HasName(tree, j) {
      assert tree.place[j].names == [] && tree.TypeOf(j) == t;
    }
  }

  /** A root has its name exactly when some path added for it was accepted. */
  lemma RootHasName(tree: NavigationTree, n: string)
    requires tree.Valid() && tree.Recorded() && n in tree.roots
    ensures HasName(tree, tree.roots[n]) <==> exists a | a in tree.added :: Name(a.0) == n && Accepted(a.0, a.1)
  {
  }

  /** Paths were added for the type, and none of them is live in the message. */
  ghost predicate Missed(added: seq<(X.XType, string)>, t: X.XType, v: X.Value, listed: seq<string>)
    requires X.WellTyped(t, v)
  {
    (exists a | a in added :: Name(a.0) == Name(t)) && forall a | a in added :: !PathIsLive(a, t, v, listed)
  }

  /** So that is when there is no part. */
  lemma NoPart(tree: NavigationTree, t: X.XType, v: X.Value, listed: seq<string>, part: Option<Part>)
    requires tree.Valid() && tree.Recorded() && X.WellTyped(t, v)
    requires if Name(t) in tree.roots then IsPart(tree, t, v, listed, part) else part.Some?
    ensures part.None? <==> Missed(tree.added, t, v, listed)
  {
    RootsOfPaths(tree, Name(t));
    if Name(t) in tree.roots {
      LivePathsAreFound(tree, t, v, listed);
    }
  }

  lemma RootKnown(tree: NavigationTree, ts: ServiceTypes)
    requires tree.Valid() && GoodTypes(ts)
    requires forall n | n in tree.types :: tree.types[n] == ts.request || tree.types[n] == ts.reply
    ensures var r := X.Resolve(ts.request); Name(r) in tree.roots ==> Name(r) in tree.types && tree.types[Name(r)] == r
  {
  }

  /** Whatever the search found is reached by its path, and its node named after its type. */
  lemma FoundIsThere(tree: NavigationTree, t: X.XType, v: X.Value, listed: seq<string>, found: Found)
    requires tree.Valid() && Named(tree.nodes) && X.WellTyped(t, v) && !t.Alias? && !found.Nothing? && '.' !in Name(t)
    requires Name(t) in tree.roots ==> Name(t) in tree.types && tree.types[Name(t)] == t
    requires found.Whole? ==> found.typeName == Name(t)
    requires found.InTree? ==>
               Name(t) in tree.roots && Topmost(tree.place, tree.roots[Name(t)], Located(t, v), listed, found.node)
    ensures var at := AccessMemberData(t, v, PathFound(tree, found));
            && at.Some?
            && (found.Whole? ==> at.value == Located(t, v))
            && (found.InTree? ==> IsPartAt(tree, t, v, Part(tree.nodes[found.node].typeName, at.value), found.node))
  {
    if found.Whole? {
      WholeIsReached(t, v, Name(t));
    } else {
      FoundIsReached(tree, t, v, listed, found.node);
      if tree.nodes[found.node].parent.Some? || tree.nodes[found.node].typeName != "" {
        FoundIsNamed(tree, found.node);
      }
    }
  }

  class Client {
    const types: ServiceTypes
    const tree: NavigationTree
    var typeToDiscriminator: map<string, string>
    var requestReply: map<string, string>
    var memberTypes: seq<string>
    var callbacks: map<string, Callback>
    var replyIdType: map<S.SampleId, string>
    ghost var configs: seq<(Configuration, Callback)>
    ghost var requestPath: map<string, string>
    ghost var asReply: set<string>
    ghost var asked: map<S.SampleId, string>  // the request type of each sample not replied to yet

    ghost predicate Valid()
      reads this, tree
    {
      && GoodTypes(types) && tree.Valid() && Named(tree.nodes) && tree.Recorded()
      && forall n | n in tree.types :: tree.types[n] == types.request || tree.types[n] == types.reply
    }

    ghost function Table(): Tables
      reads this, tree
    {
      Tables(typeToDiscriminator, requestReply, memberTypes, callbacks, tree.added, requestPath, asReply)
    }

    /** The tables are what the configurations so far make them. */
    ghost predicate Settled()
      reads this, tree
    {
      Table() == Configured(types, configs)
    }

    function ReplyConfig(): S.Config
      reads this
    {
      S.Config(requestReply, typeToDiscriminator, Name(types.reply))
    }

    /** Each sample not replied to yet is noted with the reply type of its request, if there is one. */
    ghost predicate Noted()
      reads this
    {
      && (forall s | s in replyIdType :: s in asked)
      && forall s | s in asked ::
           if asked[s] in requestReply then s in replyIdType && replyIdType[s] == requestReply[asked[s]]
           else s !in replyIdType
    }

    constructor (ts: ServiceTypes)
      requires GoodTypes(ts)
      ensures Valid() && Settled() && Noted() && configs == [] && asked == map[]
      ensures types == ts && Table() == EMPTY && replyIdType == map[] && fresh(tree)
    {
      types := ts;
      tree := new NavigationTree();
      typeToDiscriminator, requestReply, memberTypes, callbacks, replyIdType, configs := map[], map[], [], map[], map[], [];
      requestPath, asReply, asked := map[], {}, map[];
    }

    method AddMember(t: X.XType, path: string)
      requires Valid() && (t == types.request || t == types.reply)
      modifies tree
      ensures Valid() && tree.added == old(tree.added) + [(t, path)]
    {
      tree.AddMember(t, path);
    }

    method AddRequestConfig(path: string, callback: Callback) returns (outcome: Outcome)
      requires Valid()
      modifies this`typeToDiscriminator, this`requestReply, this`memberTypes, this`callbacks
      modifies this`requestPath, this`asReply, tree
      ensures Valid() && (Table(), outcome) == TakeRequest(old(Table()), types, path, callback)
    {
      var t := ResolveDiscriminatorType(types.request, path);
      if t.None? {
        return Threw;
      }
      var name := Stripped(Name(t.value));
      typeToDiscriminator := typeToDiscriminator[name := path];
      memberTypes := memberTypes + [name];
      callbacks := callbacks[name := callback];
      requestPath, asReply := requestPath[name := path], asReply - {name};
      AddMember(types.request, path);
      outcome := Ready(name);
    }

    method AddReplyConfig(path: string, request: string) returns (outcome: Outcome)
      requires Valid()
      modifies this`typeToDiscriminator, this`requestReply, this`memberTypes, this`callbacks
      modifies this`requestPath, this`asReply, tree
      ensures Valid() && (Table(), outcome) == TakeReply(old(Table()), types, path, request)
    {
      var t := ResolveDiscriminatorType(types.reply, path);
      if t.None? {
        return Threw;
      }
      var name := Stripped(Name(t.value));
      typeToDiscriminator := typeToDiscriminator[name := path];
      memberTypes := memberTypes + [name];
      asReply := asReply + {name};
      if request == "" {
        return Refused;
      }
      requestReply := requestReply[request := name];
      AddMember(types.reply, path);
      outcome := Ready(name);
    }

    method AddPairConfig(s: Service, callback: Callback) returns (outcome: Outcome)
      requires Valid()
      modifies this`typeToDiscriminator, this`requestReply, this`memberTypes, this`callbacks
      modifies this`requestPath, this`asReply, tree
      ensures Valid() && (Table(), outcome) == TakePair(old(Table()), types, s, callback)
    {
      outcome := Ready("");
      if s.requestType.Some? {
        outcome := AddRequestConfig(s.requestType.value, callback);
      }
      if !outcome.Threw? && s.replyType.Some? {
        outcome := AddReplyConfig(s.replyType.value, outcome.typeName);
      }
    }

    method AddServiceConfig(s: Service, callback: Callback) returns (outcome: Outcome, callbackSet: bool)
      requires Valid()
      modifies this`typeToDiscriminator, this`requestReply, this`memberTypes, this`callbacks
      modifies this`requestPath, this`asReply, tree
      ensures Valid() && (Table(), outcome, callbackSet) == TakeService(old(Table()), types, s, callback)
    {
      if s.typ.Some? {
        outcome := AddRequestConfig(s.typ.value, callback);
        callbackSet := true;
      } else {
        outcome := AddPairConfig(s, callback);
        callbackSet := s.requestType.Some?;
      }
    }

    method AddPlainConfig(s: Service, callback: Callback) returns (result: Result)
      requires Valid()
      modifies this`typeToDiscriminator, this`requestReply, this`memberTypes, this`callbacks
      modifies this`requestPath, this`asReply, tree
      ensures Valid() && (Table(), result) == TakePlain(old(Table()), types, s, callback)
    {
      var outcome, callbackSet := AddServiceConfig(s, callback);
      result := if outcome.Threw? then Failed else Returned(callbackSet && outcome.Ready?);
    }

    method AddWholeConfig(c: Configuration, callback: Callback) returns (result: Result)
      requires Valid()
      modifies this`typeToDiscriminator, this`requestReply, this`memberTypes, this`callbacks
      modifies this`requestPath, this`asReply, tree
      ensures Valid() && (Table(), result) == TakeConfig(old(Table()), types, c, callback)
    {
      if c.remapped.Some? {
        var outcome, callbackSet := AddServiceConfig(c.remapped.value, callback);
        if !outcome.Ready? {
          return if outcome.Threw? then Failed else Returned(false);
        }
        if callbackSet {
          return Returned(true);
        }
      }
      result := AddPlainConfig(c.plain, callback);
    }

    /** Configuring before any request is in leaves the notes in order. */
    method AddConfig(c: Configuration, callback: Callback) returns (result: Result)
      requires Valid() && Settled()
      modifies this`typeToDiscriminator, this`requestReply, this`memberTypes, this`callbacks
      modifies this`requestPath, this`asReply, this`configs, tree
      ensures Valid() && (Table(), result) == TakeConfig(old(Table()), types, c, callback)
      ensures HasEntered(old(Table()), Table(), types, Deciding(c), callback)
      ensures Settled() && configs == old(configs) + [(c, callback)]
      ensures old(Noted()) && asked == map[] ==> Noted()
    {
      ConfiguredOneMore(types, configs, c, callback);
      ConfigEnters(Table(), types, c, callback);
      result := AddWholeConfig(c, callback);
      configs := configs + [(c, callback)];
    }

    /** The part of a request that is of a configured type, with the type name of the node found for it. */
    method Choose(v: X.Value) returns (part: Option<Part>)
      requires Valid() && X.WellTyped(types.request, v) && '.' !in Name(X.Resolve(types.request))
      ensures X.WellTyped(X.Resolve(types.request), v)
      ensures var t := X.Resolve(types.request);
              if Name(t) in tree.roots then IsPart(tree, t, v, memberTypes, part)
              else part == Some(Part(Name(t), Located(t, v)))
      ensures part.None? <==> Missed(tree.added, X.Resolve(types.request), v, memberTypes)
    {
      var t := X.Resolve(types.request);
      X.ResolveKeepsValues(types.request, v);
      RootKnown(tree, types);
      var found := GetDiscriminator(tree, t, v, memberTypes);
      if found.Nothing? {
        NoPart(tree, t, v, memberTypes, None);
        return None;
      }
      FoundIsThere(tree, t, v, memberTypes, found);
      var typeName := if found.Whole? then found.typeName else tree.nodes[found.node].typeName;
      part := Some(Part(typeName, AccessMemberData(t, v, PathFound(tree, found)).value));
      NoPart(tree, t, v, memberTypes, part);
    }

    method Note(sample: S.SampleId, typeName: string)
      modifies this`replyIdType, this`asked
      ensures asked == old(asked)[sample := typeName]
      ensures forall s | s != sample :: s in replyIdType <==> s in old(replyIdType)
      ensures forall s | s in replyIdType && s != sample :: replyIdType[s] == old(replyIdType)[s]
      ensures old(Noted()) && sample !in old(asked) ==> Noted()
    {
      asked := asked[sample := typeName];
      if typeName in requestReply {
        replyIdType := replyIdType[sample := requestReply[typeName]];
      }
    }

    /** Takes a request in: notes the type of its reply, and passes the part chosen on to a callback. */
    method Receive(sample: S.SampleId, v: X.Value) returns (r: Reception, ghost part: Option<Part>)
      requires Valid() && X.WellTyped(types.request, v) && '.' !in Name(X.Resolve(types.request))
      modifies this`replyIdType, this`asked
      ensures X.WellTyped(X.Resolve(types.request), v)
      ensures var t := X.Resolve(types.request);
              if Name(t) in tree.roots then IsPart(tree, t, v, memberTypes, part)
              else part == Some(Part(Name(t), Located(t, v)))
      ensures r == NoNode <==> Missed(tree.added, X.Resolve(types.request), v, memberTypes)
      ensures part.None? <==> r == NoNode
      ensures part.None? ==> replyIdType == old(replyIdType) && asked == old(asked)
      ensures part.Some? ==>
                var (n, message) := (part.value.typeName, part.value.message);
                && asked == old(asked)[sample := n]
                && (forall s | s != sample :: s in replyIdType <==> s in old(replyIdType))
                && (forall s | s in replyIdType && s != sample :: replyIdType[s] == old(replyIdType)[s])
                && r == CallFor(callbacks, message)
      ensures old(Noted()) && sample !in old(asked) ==> Noted()
    {
      var chosen := Choose(v);
      part := chosen;
      if chosen.None? {
        return NoNode, part;
      }
      Note(sample, chosen.value.typeName);
      r := CallFor(callbacks, chosen.value.message);
    }

    /** The response to a request is placed at the path of its reply type, and its note is used up. */
    method ReceiveResponse(sample: S.SampleId) returns (path: string)
      requires Noted()
      modifies this`replyIdType, this`asked
      ensures Noted() && asked == old(asked) - {sample}
      ensures path == if sample in old(asked) then S.ReplyPath(ReplyConfig(), old(asked)[sample]) else Name(types.reply)
    {
      path := Name(types.reply);
      if sample in replyIdType {
        var n := replyIdType[sample];
        path := if n in typeToDiscriminator then typeToDiscriminator[n] else "";
        replyIdType := replyIdType - {sample};
      }
      asked := asked - {sample};
    }
  }

  /**
   A request type configured by a path that is valid in the request type is never missed: when the
   path leads to live data in the message, of a listed type, the search has something to find.
   */
  lemma ConfiguredIsFound(client: Client, path: string, v: X.Value)
    requires client.Valid() && (client.types.request, path) in client.tree.added
    requires X.WellTyped(client.types.request, v) && !client.types.request.Alias?
    requires FirstToken(path) == Name(client.types.request) && AfterFirst(path) != "" && path[|path| - 1] != '.'
    requires Walk(client.types.request, Tokens(AfterFirst(path))).Some?
    requires var at := Follow(Located(client.types.request, v), Tokens(AfterFirst(path)));
             at.Some? && Name(at.value.typ) in client.memberTypes
    ensures Name(client.types.request) in client.tree.roots
    ensures exists j :: Candidate(client.tree.place, client.tree.roots[Name(client.types.request)],
                                  Located(client.types.request, v), client.memberTypes, j)
  {
    var (t, tree) := (client.types.request, client.tree);
    var j := tree.AddedPathIsPrinted(t, path);
    assert GoodNode(tree.nodes, tree.place, tree.roots, tree.types, j);
    var root := tree.roots[Name(t)];
    assert tree.place[root] == Place(Name(t), []);
    assert NamesFrom(tree.place, root, j) == tree.place[j].names;
    assert Candidate(tree.place, root, Located(t, v), client.memberTypes, j);
  }
}
