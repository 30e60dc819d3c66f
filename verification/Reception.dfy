/**
 The life of the reception threads of a reader, as a transition system: the listener that spawns
 them, the data mutex it passes to each, and the cleaner that joins them. Steps are what happens
 between taking and releasing the cleaner's mutex, finer where a thread waits while holding it.
 */
module Reception {
  import opened Options

  type Tid = nat    // what the operating system calls a thread; may come again after a join
  type Worker = nat // the thread itself

  datatype Stage =
    | Started               // owns the data mutex
    | Converted(value: int) // has released it, and will post that it has ended
    | Posted                // has posted, and ends
    | Gone                  // gave its reply up, and ended without posting

  datatype Thread = Thread(tid: Tid, sample: int, stage: Stage)

  datatype DataOwner = Nobody | Listener | Reader(worker: Worker)

  /** Who holds the cleaner's mutex, when it is not released again within the same step. */
  datatype Holder = Free | HeldByListener | HeldByCleaner

  /** The cleaner sleeps (or is about to take the mutex), waits for news, joins the rest, has returned. */
  datatype Cleaner = Asleep | Waiting | Final | Returned

  datatype State = State(
    stop: bool,
    holder: Holder,
    data: DataOwner,
    buffer: int,
    locks: nat,            // how often the data mutex was taken
    unlocks: nat,          // and released
    threads: map<Worker, Thread>,
    reception: map<Tid, Worker>,
    finished: seq<Tid>,
    joined: seq<Worker>,
    cleaner: Cleaner)

  const INIT := State(false, Free, Nobody, 0, 0, 0, map[], map[], [], [], Asleep)

  // ---------------------------------------------------------------------------------------------
  // The cleaner's sweep

  /** The ids joined by a sweep: those found in the table, which loses them as it goes. */
  function Swept(reception: map<Tid, Worker>, finished: seq<Tid>): seq<Tid> {
    if finished == [] then []
    else if finished[0] in reception then [finished[0]] + Swept(reception - {finished[0]}, finished[1..])
    else Swept(reception, finished[1..])
  }

  /** `s` without the first occurrence of `x`. */
  function RemoveFirst(s: seq<Tid>, x: Tid): seq<Tid> {
    if s == [] then [] else if s[0] == x then s[1..] else [s[0]] + RemoveFirst(s[1..], x)
  }

  function RemoveEach(s: seq<Tid>, xs: seq<Tid>): seq<Tid>
    decreases |xs|
  {
    if xs == [] then s else RemoveEach(RemoveFirst(s, xs[0]), xs[1..])
  }

  function Ids(s: seq<Tid>): set<Tid> {
    set x | x in s
  }

  predicate Distinct<T(==)>(s: seq<T>) {
    forall i, j | 0 <= i < j < |s| :: s[i] != s[j]
  }

  /** When every finished id is in the table, and once in the list, a sweep joins them all. */
  lemma {:induction false} SweepTakesAll(reception: map<Tid, Worker>, finished: seq<Tid>)
    requires Distinct(finished) && forall t | t in finished :: t in reception
    ensures Swept(reception, finished) == finished
    ensures RemoveEach(finished, finished) == []
  {
    if finished != [] {
      SweepTakesAll(reception - {finished[0]}, finished[1..]);
      assert RemoveFirst(finished, finished[0]) == finished[1..];
    }
  }

  class ThreadTable {
    var reception: map<Tid, Worker>
    var finished: seq<Tid>

    /** One round of the cleaner's loop; returns the workers it joined, in order. */
    method Sweep() returns (joined: seq<Worker>)
      modifies this
      ensures var ids := Swept(old(reception), old(finished));
              && (forall t | t in ids :: t in old(reception))
              && |joined| == |ids| && (forall i | 0 <= i < |ids| :: joined[i] == old(reception)[ids[i]])
              && reception == old(reception) - Ids(ids)
              && finished == RemoveEach(old(finished), ids)
    {
      var stopped: seq<Tid> := [];
      joined := [];
      ghost var all := Swept(reception, finished);
      ghost var before := reception;
      var i := 0;
      while i < |finished|
        invariant 0 <= i <= |finished| && finished == old(finished)
        invariant all == stopped + Swept(reception, finished[i..])
        invariant reception == before - Ids(stopped)
        invariant |joined| == |stopped|
        invariant forall k | 0 <= k < |stopped| :: stopped[k] in before && joined[k] == before[stopped[k]]
      {
        var id := finished[i];
        assert finished[i..][0] == id && finished[i..][1..] == finished[i + 1..];
        if id in reception {
          joined := joined + [reception[id]];
          reception := reception - {id};
          assert Ids(stopped + [id]) == Ids(stopped) + {id};
          stopped := stopped + [id];
        }
        i := i + 1;
      }
      assert stopped == all;
      var k := 0;
      while k < |stopped|
        invariant 0 <= k <= |stopped| && reception == before - Ids(stopped)
        invariant RemoveEach(finished, stopped[k..]) == RemoveEach(old(finished), stopped)
      {
        assert stopped[k..][0] == stopped[k] && stopped[k..][1..] == stopped[k + 1..];
        finished := RemoveFirst(finished, stopped[k]);
        k := k + 1;
      }
    }
  }

  // ---------------------------------------------------------------------------------------------
  // Steps

  datatype Step =
    | Enter                                                 // data is available: the listener takes the cleaner's mutex
    | LockData                                              // and then the data mutex
    | Leave(taken: Option<int>)                             // nothing to process; a sample not alive is in the buffer
    | Spawn(sample: int, worker: Worker, tid: Tid)          // a sample is taken and a thread started for it
    | Convert(worker: Worker)                               // the thread reads the buffer and releases the data mutex
    | GiveUp(worker: Worker)                                // or just releases it (a reply nobody asked for)
    | Post(worker: Worker)
    | Stop                                                  // the destructor
    | Wake                                                  // the cleaner takes its mutex again
    | SweepRound
    | JoinRest(tid: Tid)
    | Return

  predicate Running(s: State, w: Worker) {
    w in s.threads && w !in s.joined
  }

  predicate Ended(t: Thread) {
    t.stage == Posted || t.stage == Gone
  }

  predicate Enabled(s: State, step: Step) {
    match step
    case Enter => s.holder == Free
    case LockData => s.holder == HeldByListener && s.data == Nobody
    case Leave(taken) => s.holder == HeldByListener && s.data == Listener && (taken.Some? ==> !s.stop)
    case Spawn(_, w, tid) =>
      // A thread that was not joined yet keeps its id.
      && s.holder == HeldByListener && s.data == Listener && !s.stop
      && w !in s.threads && forall x | x in s.threads && x !in s.joined :: s.threads[x].tid != tid
    case Convert(w) => w in s.threads && s.threads[w].stage == Started
    case GiveUp(w) => w in s.threads && s.threads[w].stage == Started
    case Post(w) => w in s.threads && s.threads[w].stage.Converted? && s.holder == Free
    case Stop => s.holder == Free
    case Wake => s.cleaner == Asleep && s.holder == Free
    case SweepRound => s.cleaner == Waiting && s.holder == Free && (s.stop || s.finished != [])
    case JoinRest(tid) =>
      // A join returns when the thread has ended.
      && s.cleaner == Final && tid in s.reception
      && s.reception[tid] in s.threads && Ended(s.threads[s.reception[tid]]) && s.reception[tid] !in s.joined
    case Return => s.cleaner == Final && forall t | t in s.reception :: s.reception[t] in s.joined
  }

  function SetStage(s: State, w: Worker, stage: Stage): map<Worker, Thread>
    requires w in s.threads
  {
    s.threads[w := s.threads[w].(stage := stage)]
  }

  function JoinedBySweep(s: State): seq<Worker> {
    var ids := Swept(s.reception, s.finished);
    SweptInTable(s.reception, s.finished);
    seq(|ids|, i requires 0 <= i < |ids| => s.reception[ids[i]])
  }

  lemma {:induction false} SweptInTable(reception: map<Tid, Worker>, finished: seq<Tid>)
    ensures forall t | t in Swept(reception, finished) :: t in reception
  {
    if finished != [] {
      SweptInTable(reception - {finished[0]}, finished[1..]);
      SweptInTable(reception, finished[1..]);
    }
  }

  function Apply(s: State, step: Step): State
    requires Enabled(s, step)
  {
    match step
    case Enter => s.(holder := HeldByListener)
    case LockData => s.(data := Listener, locks := s.locks + 1)
    case Leave(taken) =>
      s.(buffer := if taken.Some? then taken.value else s.buffer,
         data := Nobody, unlocks := s.unlocks + 1, holder := Free)
    case Spawn(sample, w, tid) =>
      s.(buffer := sample, data := Reader(w), holder := Free,
         threads := s.threads[w := Thread(tid, sample, Started)],
         reception := if tid in s.reception then s.reception else s.reception[tid := w])
    case Convert(w) => s.(threads := SetStage(s, w, Converted(s.buffer)), data := Nobody, unlocks := s.unlocks + 1)
    case GiveUp(w) => s.(threads := SetStage(s, w, Gone), data := Nobody, unlocks := s.unlocks + 1)
    case Post(w) => s.(threads := SetStage(s, w, Posted), finished := s.finished + [s.threads[w].tid])
    case Stop => s.(stop := true)
    case Wake => if s.stop then s.(cleaner := Final, holder := HeldByCleaner) else s.(cleaner := Waiting)
    case SweepRound =>
      var ids := Swept(s.reception, s.finished);
      s.(joined := s.joined + JoinedBySweep(s), reception := s.reception - Ids(ids),
         finished := RemoveEach(s.finished, ids), cleaner := Asleep)
    case JoinRest(tid) => s.(joined := s.joined + [s.reception[tid]])
    case Return => s.(cleaner := Returned, holder := Free)
  }

  ghost predicate IsRun(steps: seq<Step>, states: seq<State>) {
    && |states| == |steps| + 1 && states[0] == INIT
    && forall k | 0 <= k < |steps| :: Enabled(states[k], steps[k]) && states[k + 1] == Apply(states[k], steps[k])
  }

  // ---------------------------------------------------------------------------------------------
  // The invariant

  /** The data mutex is with the listener, or with the one thread that has not converted yet. */
  ghost predicate BatonInv(s: State) {
    && s.locks == s.unlocks + (if s.data == Nobody then 0 else 1)
    && (forall w | w in s.threads :: s.threads[w].stage == Started <==> s.data == Reader(w))
    && (s.data.Reader? ==> s.data.worker in s.threads && s.buffer == s.threads[s.data.worker].sample)
    && (s.data == Listener ==> s.holder == HeldByListener)
    && (forall w | w in s.threads && s.threads[w].stage.Converted? :: s.threads[w].stage.value == s.threads[w].sample)
  }

  /** The table holds exactly the threads not joined, each under its own id. */
  ghost predicate TableInv(s: State) {
    && (forall t | t in s.reception ::
          s.reception[t] in s.threads && s.threads[s.reception[t]].tid == t)
    && (forall w | Running(s, w) :: s.threads[w].tid in s.reception && s.reception[s.threads[w].tid] == w)
    && (s.cleaner != Final && s.cleaner != Returned ==> forall t | t in s.reception :: s.reception[t] !in s.joined)
  }

  /** The list of finished threads: each once, each in the table, exactly those that posted. */
  ghost predicate FinishedInv(s: State) {
    && Distinct(s.finished)
    && (forall t | t in s.finished ::
          t in s.reception && s.reception[t] in s.threads && s.threads[s.reception[t]].stage == Posted)
    && (forall w | Running(s, w) && s.threads[w].stage == Posted :: s.threads[w].tid in s.finished)
  }

  ghost predicate JoinInv(s: State) {
    && Distinct(s.joined)
    && (forall w | w in s.joined :: w in s.threads && Ended(s.threads[w]))
    && (s.cleaner == Final ==> s.holder == HeldByCleaner)
    && (s.cleaner == Final || s.cleaner == Returned ==> s.stop)
    && (s.cleaner == Returned ==> forall w | w in s.threads :: w in s.joined)
  }

  ghost predicate Inv(s: State) {
    BatonInv(s) && TableInv(s) && FinishedInv(s) && JoinInv(s)
  }

  lemma SpawnKeeps(s: State, sample: int, w: Worker, tid: Tid)
    requires Inv(s) && Enabled(s, Spawn(sample, w, tid))
    ensures tid !in s.reception
    ensures Inv(Apply(s, Spawn(sample, w, tid)))
  {
  }

  lemma PostKeepsFinished(s: State, w: Worker)
    requires Inv(s) && Enabled(s, Post(w))
    ensures FinishedInv(Apply(s, Post(w)))
  {
  }

  lemma PostKeeps(s: State, w: Worker)
    requires Inv(s) && Enabled(s, Post(w))
    ensures Inv(Apply(s, Post(w)))
  {
    PostKeepsFinished(s, w);
  }

  /** A sweep joins exactly the threads on the list, and empties it. */
  lemma SweepEffect(s: State)
    requires Inv(s) && Enabled(s, SweepRound)
    ensures Swept(s.reception, s.finished) == s.finished
    ensures forall w :: w in JoinedBySweep(s) <==> Running(s, w) && s.threads[w].stage == Posted
    ensures var t := Apply(s, SweepRound); t.finished == [] && t.reception == s.reception - Ids(s.finished)
  {
    SweepTakesAll(s.reception, s.finished);
    var j := JoinedBySweep(s);
    forall w | Running(s, w) && s.threads[w].stage == Posted ensures w in j {
      var i :| 0 <= i < |s.finished| && s.finished[i] == s.threads[w].tid;
      assert j[i] == w;
    }
  }

  lemma SweepKeepsTable(s: State)
    requires Inv(s) && Enabled(s, SweepRound)
    ensures var t := Apply(s, SweepRound); TableInv(t) && FinishedInv(t)
  {
    SweepEffect(s);
    var t := Apply(s, SweepRound);
    assert forall w | Running(t, w) :: Running(s, w) && w !in JoinedBySweep(s);
  }

  lemma DistinctTogether(a: seq<Worker>, b: seq<Worker>)
    requires Distinct(a) && Distinct(b) && forall w | w in b :: w !in a
    ensures Distinct(a + b)
  {
    forall i, k | 0 <= i < k < |a + b| ensures (a + b)[i] != (a + b)[k] {
      if i < |a| <= k {
        assert b[k - |a|] in b;
      }
    }
  }

  lemma SweepKeepsJoins(s: State)
    requires Inv(s) && Enabled(s, SweepRound)
    ensures JoinInv(Apply(s, SweepRound))
  {
    SweepEffect(s);
    var j := JoinedBySweep(s);
    forall i, k | 0 <= i < k < |j| ensures j[i] != j[k] {
      assert s.finished[i] != s.finished[k];
      assert s.finished[i] in s.reception && s.finished[k] in s.reception;
    }
    assert forall w | w in j :: w !in s.joined;
    DistinctTogether(s.joined, j);
    assert forall w | w in j :: w in s.threads && Ended(s.threads[w]);
  }

  lemma SweepKeeps(s: State)
    requires Inv(s) && Enabled(s, SweepRound)
    ensures Inv(Apply(s, SweepRound))
  {
    SweepKeepsTable(s);
    SweepKeepsJoins(s);
  }

  lemma ListenerKeeps(s: State, step: Step)
    requires Inv(s) && Enabled(s, step) && (step.Enter? || step.LockData? || step.Leave?)
    ensures Inv(Apply(s, step))
  {
  }

  lemma ConvertKeeps(s: State, w: Worker)
    requires Inv(s) && Enabled(s, Convert(w))
    ensures Inv(Apply(s, Convert(w)))
  {
  }

  lemma GiveUpKeeps(s: State, w: Worker)
    requires Inv(s) && Enabled(s, GiveUp(w))
    ensures Inv(Apply(s, GiveUp(w)))
  {
  }

  lemma CleanerKeeps(s: State, step: Step)
    requires Inv(s) && Enabled(s, step) && (step.Stop? || step.Wake? || step.JoinRest? || step.Return?)
    ensures Inv(Apply(s, step))
  {
  }

  lemma StepKeeps(s: State, step: Step)
    requires Inv(s) && Enabled(s, step)
    ensures Inv(Apply(s, step))
  {
    match step
    case Enter | LockData | Leave(_) => ListenerKeeps(s, step);
    case Spawn(sample, w, tid) => SpawnKeeps(s, sample, w, tid);
    case Convert(w) => ConvertKeeps(s, w);
    case GiveUp(w) => GiveUpKeeps(s, w);
    case Post(w) => PostKeeps(s, w);
    case SweepRound => SweepKeeps(s);
    case Stop | Wake | JoinRest(_) | Return => CleanerKeeps(s, step);
  }

  lemma {:induction false} RunKeeps(steps: seq<Step>, states: seq<State>, k: nat)
    requires IsRun(steps, states) && k < |states|
    ensures Inv(states[k])
  {
    if k > 0 {
      RunKeeps(steps, states, k - 1);
      StepKeeps(states[k - 1], steps[k - 1]);
    }
  }

  // ---------------------------------------------------------------------------------------------
  // What it means for the threads

  /**
   In every run the data mutex is released as often as it is taken, but for the one who has it now;
   no two threads ever have it, and each converts the very sample it was started for.
   */
  lemma Baton(steps: seq<Step>, states: seq<State>, k: nat)
    requires IsRun(steps, states) && k < |states|
    ensures var s := states[k];
            && s.locks == s.unlocks + (if s.data == Nobody then 0 else 1)
            && (forall v, w | v in s.threads && w in s.threads ::
                  s.threads[v].stage == Started && s.threads[w].stage == Started ==> v == w)
            && (forall w | w in s.threads && s.threads[w].stage.Converted? :: s.threads[w].stage.value == s.threads[w].sample)
  {
    RunKeeps(steps, states, k);
  }

  /** The value a thread converts is its own sample, whatever arrived in the meantime. */
  lemma ConvertsOwnSample(steps: seq<Step>, states: seq<State>, k: nat, w: Worker)
    requires IsRun(steps, states) && k < |steps| && steps[k] == Convert(w)
    ensures states[k + 1].threads[w].stage == Converted(states[k].threads[w].sample)
    ensures states[k].data == Reader(w) && states[k + 1].data == Nobody
  {
    RunKeeps(steps, states, k);
  }

  /** What the cleaner's loop joins is exactly the threads that posted and were not joined before. */
  lemma SweepJoinsPosted(steps: seq<Step>, states: seq<State>, k: nat)
    requires IsRun(steps, states) && k < |steps| && steps[k] == SweepRound
    ensures forall w :: w in states[k + 1].joined && w !in states[k].joined <==>
                        Running(states[k], w) && states[k].threads[w].stage == Posted
    ensures states[k + 1].finished == []
  {
    RunKeeps(steps, states, k);
    SweepEffect(states[k]);
  }

  /** No thread is joined twice, none before it ended, and all once the cleaner has returned. */
  lemma JoinedOnce(steps: seq<Step>, states: seq<State>, k: nat)
    requires IsRun(steps, states) && k < |states|
    ensures var s := states[k];
            && Distinct(s.joined)
            && (forall w | w in s.joined :: w in s.threads && Ended(s.threads[w]))
            && (s.cleaner == Returned ==> forall w :: w in s.joined <==> w in s.threads)
  {
    RunKeeps(steps, states, k);
  }

  /** The list of finished threads never holds an id twice, nor one that is not in the table. */
  lemma FinishedAreKnown(steps: seq<Step>, states: seq<State>, k: nat)
    requires IsRun(steps, states) && k < |states|
    ensures Distinct(states[k].finished) && forall t | t in states[k].finished :: t in states[k].reception
  {
    RunKeeps(steps, states, k);
  }

  /** A new thread's id is never in the table, so that its entry is always made. */
  lemma SpawnIsEntered(steps: seq<Step>, states: seq<State>, k: nat, sample: int, w: Worker, tid: Tid)
    requires IsRun(steps, states) && k < |steps| && steps[k] == Spawn(sample, w, tid)
    ensures tid !in states[k].reception && states[k + 1].reception == states[k].reception[tid := w]
  {
    RunKeeps(steps, states, k);
  }

  /** Once the destructor has asked the cleaner to stop, no thread is started any more. */
  lemma {:induction false} NothingAfterStop(steps: seq<Step>, states: seq<State>, k: nat, j: nat)
    requires IsRun(steps, states) && k <= j < |states| && states[k].stop
    ensures states[j].stop && states[j].threads.Keys == states[k].threads.Keys
    decreases j
  {
    if k < j {
      NothingAfterStop(steps, states, k, j - 1);
      assert Enabled(states[j - 1], steps[j - 1]);
    }
  }

  // ---------------------------------------------------------------------------------------------
  // The last loop

  /** Steps that go on from `s`. */
  ghost predicate GoesOn(s: State, steps: seq<Step>, states: seq<State>) {
    && |states| == |steps| + 1 && states[0] == s
    && forall k | 0 <= k < |steps| :: Enabled(states[k], steps[k]) && states[k + 1] == Apply(states[k], steps[k])
  }

  /** Some steps that go on lead to the cleaner's return; `givesUp` is whether threads may give up. */
  ghost predicate CanReturn(s: State, givesUp: bool) {
    exists steps: seq<Step>, states: seq<State> ::
      GoesOn(s, steps, states) && states[|steps|].cleaner == Returned && MayTake(steps, givesUp)
  }

  ghost predicate MayTake(steps: seq<Step>, givesUp: bool) {
    givesUp || forall k | 0 <= k < |steps| :: !steps[k].GiveUp?
  }

  /** A thread that the last loop waits for in vain: it cannot post, and has no other way to end. */
  predicate IsStuck(t: Thread, givesUp: bool) {
    if givesUp then t.stage.Converted? else !Ended(t)
  }

  lemma StuckStep(s: State, step: Step, w: Worker, givesUp: bool)
    requires Inv(s) && Enabled(s, step) && s.cleaner == Final && (step.GiveUp? ==> givesUp)
    requires w in s.threads && IsStuck(s.threads[w], givesUp)
    ensures var t := Apply(s, step); t.cleaner == Final && w in t.threads && IsStuck(t.threads[w], givesUp)
  {
    assert Running(s, w);
  }

  lemma {:induction false} StuckStays(s: State, steps: seq<Step>, states: seq<State>, k: nat, w: Worker, givesUp: bool)
    requires Inv(s) && s.cleaner == Final && GoesOn(s, steps, states) && k < |states| && MayTake(steps, givesUp)
    requires w in s.threads && IsStuck(s.threads[w], givesUp)
    ensures Inv(states[k]) && states[k].cleaner == Final
    ensures w in states[k].threads && IsStuck(states[k].threads[w], givesUp)
  {
    if k > 0 {
      StuckStays(s, steps, states, k - 1, w, givesUp);
      StuckStep(states[k - 1], steps[k - 1], w, givesUp);
      StepKeeps(states[k - 1], steps[k - 1]);
    }
  }

  /** Going on by one step, and then by others. */
  lemma GoesOnFrom(s: State, step: Step, steps: seq<Step>, states: seq<State>)
    requires Enabled(s, step) && GoesOn(Apply(s, step), steps, states)
    ensures GoesOn(s, [step] + steps, [s] + states) && ([s] + states)[|[step] + steps|] == states[|steps|]
  {
  }

  lemma CanReturnFrom(s: State, step: Step, givesUp: bool)
    requires Enabled(s, step) && CanReturn(Apply(s, step), givesUp) && (step.GiveUp? ==> givesUp)
    ensures CanReturn(s, givesUp)
  {
    var steps: seq<Step>, states: seq<State> :|
      GoesOn(Apply(s, step), steps, states) && states[|steps|].cleaner == Returned
      && MayTake(steps, givesUp);
    GoesOnFrom(s, step, steps, states);
    assert MayTake([step] + steps, givesUp);
  }

  function Unjoined(s: State): set<Worker> {
    set w | w in s.threads && w !in s.joined
  }

  lemma AllJoined(s: State, givesUp: bool)
    requires Inv(s) && s.cleaner == Final && Unjoined(s) == {}
    ensures CanReturn(s, givesUp)
  {
    forall t | t in s.reception ensures s.reception[t] in s.joined {
      assert s.reception[t] !in Unjoined(s);
    }
    assert GoesOn(Apply(s, Return), [], [Apply(s, Return)]) && MayTake([], givesUp);
    CanReturnFrom(s, Return, givesUp);
  }

  /** One of them is joined. */
  lemma JoinStep(s: State, w: Worker)
    requires Inv(s) && s.cleaner == Final && w in Unjoined(s) && Ended(s.threads[w])
    ensures var step := JoinRest(s.threads[w].tid);
            && Enabled(s, step) && Inv(Apply(s, step)) && Apply(s, step).cleaner == Final
            && Apply(s, step).threads == s.threads && Unjoined(Apply(s, step)) == Unjoined(s) - {w}
  {
    assert Running(s, w);
    StepKeeps(s, JoinRest(s.threads[w].tid));
    assert forall x :: x in s.joined + [w] <==> x in s.joined || x == w;
  }

  /** When every thread has ended, the loop joins one after the other and returns. */
  lemma {:induction false} EndedAreJoined(s: State, givesUp: bool)
    requires Inv(s) && s.cleaner == Final && (forall w | w in s.threads :: Ended(s.threads[w]))
    ensures CanReturn(s, givesUp)
    decreases Unjoined(s)
  {
    if Unjoined(s) == {} {
      AllJoined(s, givesUp);
    } else {
      var w :| w in Unjoined(s);
      JoinStep(s, w);
      EndedAreJoined(Apply(s, JoinRest(s.threads[w].tid)), givesUp);
      CanReturnFrom(s, JoinRest(s.threads[w].tid), givesUp);
    }
  }

  /** At most one thread has not converted, and can give up. */
  lemma OthersGivenUp(s: State)
    requires Inv(s) && s.cleaner == Final && forall w | w in s.threads :: !s.threads[w].stage.Converted?
    ensures CanReturn(s, true)
  {
    if w :| w in s.threads && s.threads[w].stage == Started {
      StepKeeps(s, GiveUp(w));
      var t := Apply(s, GiveUp(w));
      forall x | x in t.threads ensures Ended(t.threads[x]) {
        assert x != w ==> s.threads[x].stage != Started;
      }
      EndedAreJoined(t, true);
      CanReturnFrom(s, GiveUp(w), true);
    } else {
      EndedAreJoined(s, true);
    }
  }

  /**
   The last loop runs with the mutex held that a thread needs in order to post. In every run that has
   reached it, the cleaner can still return exactly when no thread has converted without having
   posted; and where threads do not give up, exactly when every thread has ended.
   */
  lemma FinalLoopReturns(steps: seq<Step>, states: seq<State>, k: nat, givesUp: bool)
    requires IsRun(steps, states) && k < |states| && states[k].cleaner == Final
    ensures CanReturn(states[k], givesUp) <==>
              forall w | w in states[k].threads :: !IsStuck(states[k].threads[w], givesUp)
  {
    RunKeeps(steps, states, k);
    var s := states[k];
    if w :| w in s.threads && IsStuck(s.threads[w], givesUp) {
      if CanReturn(s, givesUp) {
        var on: seq<Step>, through: seq<State> :|
          GoesOn(s, on, through) && through[|on|].cleaner == Returned && MayTake(on, givesUp);
        StuckStays(s, on, through, |on|, w, givesUp);
      }
    } else if givesUp {
      OthersGivenUp(s);
    } else {
      EndedAreJoined(s, false);
    }
  }

  /** A thread that has converted and not posted when the loop begins never will, and the cleaner never returns. */
  lemma FinalLoopWaits(steps: seq<Step>, states: seq<State>, k: nat, j: nat, w: Worker)
    requires IsRun(steps, states) && k <= j < |states| && states[k].cleaner == Final
    requires w in states[k].threads && states[k].threads[w].stage.Converted?
    ensures states[j].cleaner == Final && w in states[j].threads && states[j].threads[w].stage.Converted?
  {
    RunKeeps(steps, states, k);
    assert GoesOn(states[k], steps[k..], states[k..]);
    StuckStays(states[k], steps[k..], states[k..], j - k, w, true);
  }

  /** Such a run: a sample is converted, the destructor runs, and the cleaner wakes before the thread posts. */
  lemma StuckRun() returns (steps: seq<Step>, states: seq<State>)
    ensures IsRun(steps, states)
    ensures var s := states[|steps|]; s.cleaner == Final && 0 in s.threads && s.threads[0].stage.Converted?
  {
    var s1 := Apply(INIT, Enter);
    var s2 := Apply(s1, LockData);
    var s3 := Apply(s2, Spawn(5, 0, 0));
    var s4 := Apply(s3, Convert(0));
    var s5 := Apply(s4, Stop);
    steps, states := [Enter, LockData, Spawn(5, 0, 0), Convert(0), Stop, Wake], [INIT, s1, s2, s3, s4, s5, Apply(s5, Wake)];
  }
}
