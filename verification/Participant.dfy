/** The participant's tables: which entities use a topic, and which type a topic carries. */
module Participation {
  import opened Options
  import D = Dds

  type Topic = nat   // a topic object; a name gets a new one after the old one was deleted
  type Entity = nat

  // ---------------------------------------------------------------------------------------------
  // Topics and entities

  function Associate(m: map<Topic, set<Entity>>, t: Topic, e: Entity): map<Topic, set<Entity>> {
    if t !in m then m[t := {e}] else m[t := m[t] + {e}]
  }

  /** Whether the topic is to be deleted, and the table afterwards. */
  function Dissociate(m: map<Topic, set<Entity>>, t: Topic, e: Entity): (bool, map<Topic, set<Entity>>)
    requires t in m
  {
    if |m[t]| == 1 then (true, m - {t}) else (false, m[t := m[t] - {e}])
  }

  lemma Singleton(s: set<Entity>, e: Entity)
    requires |s| == 1 && e in s
    ensures s == {e}
  {
    assert |s - {e}| == 0;
    assert s == (s - {e}) + {e};
  }

  lemma OthersRemain(s: set<Entity>, e: Entity)
    requires s != {} && |s| != 1
    ensures s - {e} != {}
  {
    if e in s {
      assert |s - {e}| == |s| - 1;
    } else {
      assert s - {e} == s;
    }
  }

  /**
   The topic is reported free exactly when no other entity uses it, provided the entity uses it or
   more than one does. An entity that does not use it is taken for the last one when one is left.
   */
  lemma DissociateIsRight(m: map<Topic, set<Entity>>, t: Topic, e: Entity)
    requires t in m && m[t] != {}
    ensures (Dissociate(m, t, e).0 <==> m[t] - {e} == {}) <==> (e in m[t] || |m[t]| != 1)
  {
    var s := m[t];
    if |s| != 1 {
      OthersRemain(s, e);
    } else if e in s {
      Singleton(s, e);
    } else {
      assert s - {e} == s;
    }
  }

  class Participant {
    var topicToEntities: map<Topic, set<Entity>>
    var topicToType: map<string, string>
    var types: map<string, D.DType>

    /** Every topic in the table has an entity, and every topic that has a type has one that is known. */
    ghost predicate Valid()
      reads this
    {
      && (forall t | t in topicToEntities :: topicToEntities[t] != {})
      && forall t | t in topicToType :: topicToType[t] in types
    }

    /** The entities that use a topic. */
    ghost function Users(t: Topic): set<Entity>
      reads this
    {
      if t in topicToEntities then topicToEntities[t] else {}
    }

    constructor ()
      ensures Valid() && topicToType == map[] && types == map[] && forall t :: Users(t) == {}
    {
      topicToEntities, topicToType, types := map[], map[], map[];
    }

    method AssociateTopicToEntity(t: Topic, e: Entity)
      requires Valid()
      modifies this`topicToEntities
      ensures Valid() && Users(t) == old(Users(t)) + {e} && forall u | u != t :: Users(u) == old(Users(u))
      ensures topicToEntities == Associate(old(topicToEntities), t, e)
    {
      if t !in topicToEntities {
        var entities := {e};
        topicToEntities := topicToEntities[t := entities];
      } else {
        topicToEntities := topicToEntities[t := topicToEntities[t] + {e}];
      }
    }

    /** For an entity that uses the topic: it no longer does, and the topic is to be deleted if nobody else does. */
    method DissociateTopicFromEntity(t: Topic, e: Entity) returns (deleteTopic: bool)
      requires Valid() && t in topicToEntities
      modifies this`topicToEntities
      ensures Valid() && (forall u | u != t :: Users(u) == old(Users(u)))
      ensures e in old(Users(t)) ==> Users(t) == old(Users(t)) - {e} && (deleteTopic <==> Users(t) == {})
      ensures deleteTopic <==> t !in topicToEntities
      ensures (deleteTopic, topicToEntities) == Dissociate(old(topicToEntities), t, e)
    {
      ghost var users := topicToEntities[t];
      if |topicToEntities[t]| == 1 {
        if e in users {
          Singleton(users, e);
        }
        topicToEntities := topicToEntities - {t};
        deleteTopic := true;
      } else {
        OthersRemain(users, e);
        topicToEntities := topicToEntities[t := topicToEntities[t] - {e}];
        deleteTopic := false;
      }
    }

    /**
     The first type given to a topic, and the first definition given under a name, are kept. They are
     kept as well when DDS then does not register the type, and the call throws.
     */
    method RegisterDynamicType(topic: string, typeName: string, built: Option<D.DType>, registers: bool) returns (ok: bool)
      requires Valid()
      modifies this`topicToType, this`types
      ensures Valid()
      ensures ok <==> topic in old(topicToType) || typeName in old(types) || (built.Some? && registers)
      ensures topic in topicToType <==> topic in old(topicToType) || typeName in old(types) || built.Some?
      ensures topicToType == if topic !in old(topicToType) && topic in topicToType
                             then old(topicToType)[topic := typeName] else old(topicToType)
      ensures types == if topic !in old(topicToType) && typeName !in old(types) && built.Some?
                       then old(types)[typeName := built.value] else old(types)
    {
      if topic in topicToType {
        return true;
      }
      if typeName in types {
        topicToType := topicToType[topic := typeName];
        return true;
      }
      if built.None? {
        return false;
      }
      types := types[typeName := built.value];
      topicToType := topicToType[topic := typeName];
      ok := registers;
    }

    /** A new buffer's data, for a topic that was registered. */
    method CreateDynamicData(topic: string) returns (data: Option<D.DData>)
      requires Valid()
      ensures data.Some? <==> topic in topicToType
      ensures data.Some? ==> data.value == D.Fresh(types[topicToType[topic]])
    {
      if topic !in topicToType {
        return None;
      }
      data := Some(D.Fresh(types[topicToType[topic]]));
    }
  }

  // ---------------------------------------------------------------------------------------------
  // The lives of topics

  /** Entities come with a topic name and go again; each looks for the topic before it makes one. */
  datatype Event = Open(name: string, entity: Entity) | Close(entity: Entity)

  datatype World = World(
    topics: map<string, Topic>,              // what a lookup by name finds
    table: map<Topic, set<Entity>>,
    uses: map<Entity, (string, Topic)>,      // the topic each open entity holds on to
    everOpened: set<Entity>,
    created: nat,                            // topics are numbered as they are created
    deleted: seq<Topic>)

  const START := World(map[], map[], map[], {}, 0, [])

  predicate Possible(w: World, ev: Event) {
    match ev
    case Open(_, e) => e !in w.everOpened
    case Close(e) => e in w.uses && w.uses[e].1 in w.table
  }

  function After(w: World, ev: Event): World
    requires Possible(w, ev)
  {
    match ev
    case Open(name, e) =>
      var t := if name in w.topics then w.topics[name] else w.created;
      w.(topics := w.topics[name := t],
         created := if name in w.topics then w.created else w.created + 1,
         table := Associate(w.table, t, e),
         uses := w.uses[e := (name, t)],
         everOpened := w.everOpened + {e})
    case Close(e) =>
      var (name, t) := w.uses[e];
      var (last, table) := Dissociate(w.table, t, e);
      w.(table := table,
         uses := w.uses - {e},
         topics := if last then w.topics - {name} else w.topics,
         deleted := if last then w.deleted + [t] else w.deleted)
  }

  ghost predicate IsRun(events: seq<Event>, worlds: seq<World>) {
    && |worlds| == |events| + 1 && worlds[0] == START
    && forall k | 0 <= k < |events| :: Possible(worlds[k], events[k]) && worlds[k + 1] == After(worlds[k], events[k])
  }

  /** A name is found as long as its topic is in the table, and topics are not shared between names. */
  ghost predicate TopicInv(topics: map<string, Topic>, table: map<Topic, set<Entity>>, created: nat) {
    && (forall n | n in topics :: topics[n] in table)
    && (forall m, n | m in topics && n in topics && m != n :: topics[m] != topics[n])
    && (forall t | t in table :: t < created)
  }

  /** The table lists, for each topic alive, exactly the open entities that hold on to it: at least one. */
  ghost predicate UseInv(
    topics: map<string, Topic>, table: map<Topic, set<Entity>>, uses: map<Entity, (string, Topic)>, everOpened: set<Entity>)
  {
    && (forall t | t in table :: table[t] != {})
    && (forall t, e | t in table && e in table[t] :: e in uses && uses[e].1 == t)
    && (forall e | e in uses :: e in everOpened && uses[e].1 in table && e in table[uses[e].1])
    && (forall e | e in uses :: uses[e].0 in topics && topics[uses[e].0] == uses[e].1)
  }

  /** Every topic created is in the table or was deleted, once. */
  ghost predicate DeletedInv(table: map<Topic, set<Entity>>, created: nat, deleted: seq<Topic>) {
    && (forall d | d in deleted :: d < created && d !in table)
    && (forall i, j | 0 <= i < j < |deleted| :: deleted[i] != deleted[j])
    && (forall t: Topic | t < created :: t in table || t in deleted)
  }

  ghost predicate Inv(w: World) {
    && TopicInv(w.topics, w.table, w.created) && UseInv(w.topics, w.table, w.uses, w.everOpened)
    && DeletedInv(w.table, w.created, w.deleted)
  }

  lemma OpenKeepsUses(w: World, name: string, e: Entity)
    requires TopicInv(w.topics, w.table, w.created) && UseInv(w.topics, w.table, w.uses, w.everOpened)
    requires Possible(w, Open(name, e))
    ensures var v := After(w, Open(name, e)); UseInv(v.topics, v.table, v.uses, v.everOpened)
  {
  }

  lemma OpenKeeps(w: World, name: string, e: Entity)
    requires Inv(w) && Possible(w, Open(name, e))
    ensures Inv(After(w, Open(name, e)))
  {
    OpenKeepsUses(w, name, e);
    var v := After(w, Open(name, e));
    assert TopicInv(v.topics, v.table, v.created);
  }

  /** The topic is free exactly when no other entity holds on to it. */
  lemma LastUse(w: World, e: Entity)
    requires UseInv(w.topics, w.table, w.uses, w.everOpened) && Possible(w, Close(e))
    ensures var t := w.uses[e].1;
            && (|w.table[t]| == 1 <==> w.table[t] == {e})
            && (|w.table[t]| == 1 <==> forall x | x in w.uses && x != e :: w.uses[x].1 != t)
  {
    var t := w.uses[e].1;
    var s := w.table[t];
    if |s| == 1 {
      Singleton(s, e);
    }
    if forall x | x in w.uses && x != e :: w.uses[x].1 != t {
      forall x | x in s ensures x == e {
        assert t in w.table && x in w.table[t];
        assert x in w.uses && w.uses[x].1 == t;
      }
      assert s == {e};
    }
  }

  lemma CloseKeepsUses(w: World, e: Entity)
    requires TopicInv(w.topics, w.table, w.created) && UseInv(w.topics, w.table, w.uses, w.everOpened)
    requires Possible(w, Close(e))
    ensures var v := After(w, Close(e)); UseInv(v.topics, v.table, v.uses, v.everOpened)
  {
    LastUse(w, e);
    var s := w.table[w.uses[e].1];
    if |s| != 1 {
      assert |s - {e}| == |s| - 1;
    }
  }

  lemma CloseKeeps(w: World, e: Entity)
    requires Inv(w) && Possible(w, Close(e))
    ensures Inv(After(w, Close(e)))
  {
    CloseKeepsUses(w, e);
    var v := After(w, Close(e));
    assert TopicInv(v.topics, v.table, v.created);
    assert DeletedInv(v.table, v.created, v.deleted);
  }

  lemma {:induction false} RunKeeps(events: seq<Event>, worlds: seq<World>, k: nat)
    requires IsRun(events, worlds) && k < |worlds|
    ensures Inv(worlds[k])
  {
    if k > 0 {
      RunKeeps(events, worlds, k - 1);
      match events[k - 1]
      case Open(name, e) => OpenKeeps(worlds[k - 1], name, e);
      case Close(e) => CloseKeeps(worlds[k - 1], e);
    }
  }

  /**
   Over any run of entities opening and closing, each once: a topic is in the table with its open
   entities, never with none, or it was deleted, once, and no open entity holds on to it.
   */
  lemma TopicLives(events: seq<Event>, worlds: seq<World>, k: nat, t: Topic)
    requires IsRun(events, worlds) && k < |worlds| && t < worlds[k].created
    ensures var w := worlds[k];
            && (t in w.table <==> t !in w.deleted)
            && (t in w.table ==> w.table[t] == (set e | e in w.uses && w.uses[e].1 == t) && w.table[t] != {})
            && (t in w.deleted ==> forall e | e in w.uses :: w.uses[e].1 != t)
            && (forall i, j | 0 <= i < j < |w.deleted| :: w.deleted[i] != w.deleted[j])
  {
    RunKeeps(events, worlds, k);
  }

  /** Closing deletes the topic exactly when the entity is the last one to hold on to it. */
  lemma DeletedByLast(events: seq<Event>, worlds: seq<World>, k: nat, e: Entity)
    requires IsRun(events, worlds) && k < |events| && events[k] == Close(e)
    ensures var (w, t) := (worlds[k], worlds[k].uses[e].1);
            if forall x | x in w.uses && x != e :: w.uses[x].1 != t
            then worlds[k + 1].deleted == w.deleted + [t]
            else worlds[k + 1].deleted == w.deleted
  {
    RunKeeps(events, worlds, k);
    LastUse(worlds[k], e);
  }
}
