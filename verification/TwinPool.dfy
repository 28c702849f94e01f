/**
 * The capped pool of transcoding twins (app/server/services/cleanstream.ts). A twin is started on
 * demand, shared by all viewers of its stream, reaped when idle, and torn down again two seconds
 * after its transcoder exits, by which time another twin may have taken its place.
 */
module TwinPool {
  import opened Bytes

  type Stream = string
  type Id = nat  // identity of a spawned entry

  datatype Variant = Variant(id: Id, stream: Stream, nodeId: string, lastWatchAt: int)

  const IDLE_TTL_MS := 120_000

  /**
   * The pool and its surroundings: `entries` are all twins ever spawned, `killed` those whose
   * transcoder was killed, `exited` those whose transcoder has ended, `wipes` the wipes issued,
   * `timers` the delayed teardowns still to come.
   */
  datatype State = State(
    variants: map<Stream, Id>, spawning: map<Stream, Id>,
    entries: map<Id, Variant>, killed: set<Id>, exited: set<Id>, timers: set<Id>,
    wiped: set<Id>)

  function Empty(): State {
    State(map[], map[], map[], {}, {}, {}, {})
  }

  /** Unregisters the entry if it is current; kills it and issues its wipe in any case. */
  function Teardown(s: State, id: Id): State
    requires id in s.entries
  {
    var stream := s.entries[id].stream;
    s.(variants := if stream in s.variants && s.variants[stream] == id then s.variants - {stream} else s.variants,
       killed := s.killed + {id}, wiped := s.wiped + {id})
  }

  /** What a watch request does before it waits: reuse, share a spawn, fall back, or start a twin. */
  datatype Watched = Existing | Shared | Fallback | Started

  function WatchKind(s: State, cap: nat, stream: Stream): Watched {
    if stream in s.variants then Existing
    else if stream in s.spawning then Shared
    else if |s.variants| >= cap then Fallback
    else Started
  }

  function Fresh(s: State, stream: Stream, nodeId: string, now: int, id: Id): State {
    s.(variants := s.variants[stream := id], spawning := s.spawning[stream := id],
       entries := s.entries[id := Variant(id, stream, nodeId, now)])
  }

  function Touch(s: State, stream: Stream, now: int): State {
    if stream in s.variants && s.variants[stream] in s.entries then
      var id := s.variants[stream];
      s.(entries := s.entries[id := s.entries[id].(lastWatchAt := now)])
    else s
  }

  predicate Idle(s: State, stream: Stream, now: int) {
    && stream in s.variants && s.variants[stream] in s.entries
    && now - s.entries[s.variants[stream]].lastWatchAt > IDLE_TTL_MS
  }

  /** The idle streams among those in `walked`. */
  ghost function IdleAmong(s: State, now: int, walked: set<Stream>): set<Stream> {
    set st | st in s.variants && st in walked && Idle(s, st, now)
  }

  ghost function IdsOf(s: State, streams: set<Stream>): set<Id> {
    set st | st in streams && st in s.variants :: s.variants[st]
  }

  /** The reaper's pass over `walked`: every idle twin there is torn down. */
  ghost function ReapedAmong(s: State, now: int, walked: set<Stream>): State {
    var idle := IdleAmong(s, now, walked);
    s.(variants := s.variants - idle, killed := s.killed + IdsOf(s, idle), wiped := s.wiped + IdsOf(s, idle))
  }

  ghost function Reaped(s: State, now: int): State {
    ReapedAmong(s, now, s.variants.Keys)
  }

  datatype Event =
    | Watch(stream: Stream, nodeId: string, now: int, id: Id)  // `id` names the twin, if one is started
    | SpawnFailed(stream: Stream)                              // the transcoder could not be started at all
    | Ready(stream: Stream)                                    // a spawn's promise settles
    | Exit(id: Id)                                             // a transcoder ends, killed or not
    | Timer(id: Id)                                            // its delayed teardown fires
    | Reap(now: int)

  predicate Enabled(s: State, cap: nat, e: Event) {
    match e
    case Watch(_, _, _, id) => id !in s.entries
    case SpawnFailed(stream) => WatchKind(s, cap, stream) == Started
    case Ready(stream) => stream in s.spawning
    case Exit(id) => id in s.entries && id !in s.exited
    case Timer(id) => id in s.timers
    case Reap(_) => true
  }

  ghost function Next(s: State, cap: nat, e: Event): State {
    match e
    case Watch(stream, nodeId, now, id) =>
      (match WatchKind(s, cap, stream)
       case Existing => Touch(s, stream, now)
       case Started => Fresh(s, stream, nodeId, now, id)
       case _ => s)
    case SpawnFailed(_) => s
    case Ready(stream) => s.(spawning := s.spawning - {stream})
    case Exit(id) => s.(exited := s.exited + {id}, timers := s.timers + {id})
    case Timer(id) => if id in s.entries then Teardown(s, id).(timers := s.timers - {id}) else s
    case Reap(now) => Reaped(s, now)
  }

  // ---- what every reachable state satisfies ----

  /** A registered twin is one of the stream. */
  ghost predicate StreamSane(s: State, st: Stream) {
    st in s.variants ==> s.variants[st] in s.entries && s.entries[s.variants[st]].stream == st
  }

  ghost predicate TwinSane(s: State, id: Id) {
    // a twin is the current one of its stream, or it was killed; never both
    && (id in s.entries ==> s.entries[id].id == id && (Current(s, id) <==> id !in s.killed))
    && (id in s.killed ==> id in s.entries)
    // an exited twin is still to be torn down, or already is
    && (id in s.exited ==> id in s.entries && (id in s.timers || id in s.killed))
    && (id in s.timers ==> id in s.exited)
  }

  ghost predicate Inv(s: State, cap: nat) {
    && |s.variants| <= cap
    && s.killed == s.wiped
    && (forall st :: StreamSane(s, st))
    && (forall id :: TwinSane(s, id))
  }

  predicate Current(s: State, id: Id) {
    id in s.entries && s.entries[id].stream in s.variants && s.variants[s.entries[id].stream] == id
  }

  lemma SmallerDomain(m: map<Stream, Id>, ks: set<Stream>)
    ensures |m - ks| <= |m|
  {
    assert (m - ks).Keys <= m.Keys;
    SubsetSize((m - ks).Keys, m.Keys);
    assert |(m - ks).Keys| == |m - ks| && |m.Keys| == |m|;
  }

  lemma {:induction false} SubsetSize<T>(a: set<T>, b: set<T>)
    requires a <= b
    ensures |a| <= |b|
    decreases a
  {
    if a != {} {
      var x :| x in a;
      SubsetSize(a - {x}, b - {x});
    }
  }

  lemma TouchKeeps(s: State, cap: nat, stream: Stream, now: int)
    requires Inv(s, cap) && stream in s.variants
    ensures Inv(Touch(s, stream, now), cap)
  {
    var s' := Touch(s, stream, now);
    forall st ensures StreamSane(s', st) { assert StreamSane(s, st); }
    forall j ensures TwinSane(s', j) { assert TwinSane(s, j); }
  }

  lemma StartKeeps(s: State, cap: nat, stream: Stream, nodeId: string, now: int, id: Id)
    requires Inv(s, cap) && id !in s.entries && WatchKind(s, cap, stream) == Started
    ensures Inv(Fresh(s, stream, nodeId, now, id), cap)
  {
    var s' := Fresh(s, stream, nodeId, now, id);
    assert TwinSane(s, id);
    forall st ensures StreamSane(s', st) { assert StreamSane(s, st); }
    forall j ensures TwinSane(s', j) { assert TwinSane(s, j); }
  }

  lemma WatchKeeps(s: State, cap: nat, stream: Stream, nodeId: string, now: int, id: Id)
    requires Inv(s, cap) && id !in s.entries
    ensures Inv(Next(s, cap, Watch(stream, nodeId, now, id)), cap)
  {
    match WatchKind(s, cap, stream) {
      case Existing => TouchKeeps(s, cap, stream, now);
      case Started => StartKeeps(s, cap, stream, nodeId, now, id);
      case _ =>
    }
  }

  lemma TeardownKeeps(s: State, cap: nat, id: Id)
    requires Inv(s, cap) && id in s.timers
    ensures id in s.entries && Inv(Teardown(s, id).(timers := s.timers - {id}), cap)
  {
    assert TwinSane(s, id);
    SmallerDomain(s.variants, {s.entries[id].stream});
    var s' := Teardown(s, id).(timers := s.timers - {id});
    forall st ensures StreamSane(s', st) { assert StreamSane(s, st); }
    forall j ensures TwinSane(s', j) { assert TwinSane(s, j); }
  }

  lemma ReapKeeps(s: State, cap: nat, now: int)
    requires Inv(s, cap)
    ensures Inv(Reaped(s, now), cap)
  {
    var s' := Reaped(s, now);
    SmallerDomain(s.variants, IdleAmong(s, now, s.variants.Keys));
    forall st ensures StreamSane(s', st) { assert StreamSane(s, st); }
    forall j ensures TwinSane(s', j) {
      assert TwinSane(s, j);
      if j in IdsOf(s, IdleAmong(s, now, s.variants.Keys)) {
        var st :| st in IdleAmong(s, now, s.variants.Keys) && s.variants[st] == j;
        assert StreamSane(s, st);
      }
    }
  }

  lemma ExitKeeps(s: State, cap: nat, id: Id)
    requires Inv(s, cap) && id in s.entries && id !in s.exited
    ensures Inv(Next(s, cap, Exit(id)), cap)
  {
    var s' := Next(s, cap, Exit(id));
    forall st ensures StreamSane(s', st) { assert StreamSane(s, st); }
    forall j ensures TwinSane(s', j) { assert TwinSane(s, j); }
  }

  lemma ReadyKeeps(s: State, cap: nat, stream: Stream)
    requires Inv(s, cap)
    ensures Inv(Next(s, cap, Ready(stream)), cap)
  {
    var s' := Next(s, cap, Ready(stream));
    forall st ensures StreamSane(s', st) { assert StreamSane(s, st); }
    forall j ensures TwinSane(s', j) { assert TwinSane(s, j); }
  }

  /** Walking one more stream. */
  lemma ReapOneMore(s: State, cap: nat, now: int, walked: set<Stream>, stream: Stream)
    requires Inv(s, cap) && stream in s.variants && stream !in walked
    ensures s.variants[stream] in s.entries
    ensures var r := ReapedAmong(s, now, walked);
            && stream in r.variants && r.variants[stream] == s.variants[stream]
            && ReapedAmong(s, now, walked + {stream}) ==
               if Idle(s, stream, now) then Teardown(r, s.variants[stream]) else r
  {
    var idle, id := IdleAmong(s, now, walked), s.variants[stream];
    assert StreamSane(s, stream);
    if Idle(s, stream, now) {
      assert IdleAmong(s, now, walked + {stream}) == idle + {stream};
      assert IdsOf(s, idle + {stream}) == IdsOf(s, idle) + {id};
      assert s.variants - (idle + {stream}) == (s.variants - idle) - {stream};
    } else {
      assert IdleAmong(s, now, walked + {stream}) == idle;
    }
  }

  lemma ReapedNone(s: State, now: int)
    ensures ReapedAmong(s, now, {}) == s
  {
    assert IdleAmong(s, now, {}) == {} && IdsOf(s, {}) == {};
    assert s.variants - {} == s.variants;
  }

  lemma NextKeeps(s: State, cap: nat, e: Event)
    requires Inv(s, cap) && Enabled(s, cap, e)
    ensures Inv(Next(s, cap, e), cap)
  {
    match e {
      case Watch(stream, nodeId, now, id) => WatchKeeps(s, cap, stream, nodeId, now, id);
      case SpawnFailed(_) =>
      case Ready(stream) => ReadyKeeps(s, cap, stream);
      case Exit(id) => ExitKeeps(s, cap, id);
      case Timer(id) => TeardownKeeps(s, cap, id);
      case Reap(now) => ReapKeeps(s, cap, now);
    }
  }

  // ---- whole runs ----

  /** `t` is reached from `s` by the events of `run`, each possible when it happens. */
  ghost predicate Reaches(s: State, cap: nat, run: seq<Event>, t: State)
    decreases |run|
  {
    if run == [] then t == s else Enabled(s, cap, run[0]) && Reaches(Next(s, cap, run[0]), cap, run[1..], t)
  }

  lemma EmptyInv(cap: nat)
    ensures Inv(Empty(), cap)
  {
    assert forall st :: StreamSane(Empty(), st);
    assert forall id :: TwinSane(Empty(), id);
  }

  lemma {:induction false} ReachableInv(s: State, cap: nat, run: seq<Event>, t: State)
    requires Inv(s, cap) && Reaches(s, cap, run, t)
    ensures Inv(t, cap)
    decreases |run|
  {
    if run != [] {
      NextKeeps(s, cap, run[0]);
      ReachableInv(Next(s, cap, run[0]), cap, run[1..], t);
    }
  }

  /**
   * In every reachable state: the cap holds; a transcoder nobody killed is the current one of its
   * stream, so there is at most one per stream; and every other twin was killed and wiped.
   */
  lemma PoolSafety(cap: nat, run: seq<Event>, t: State)
    requires Reaches(Empty(), cap, run, t)
    ensures |t.variants| <= cap
    ensures forall id | id in t.entries && id !in t.killed :: Current(t, id)
    ensures forall i, j | i in t.entries && j in t.entries && i !in t.killed && j !in t.killed
              && t.entries[i].stream == t.entries[j].stream :: i == j
    ensures forall id | id in t.entries && !Current(t, id) :: id in t.killed && id in t.wiped
  {
    EmptyInv(cap);
    ReachableInv(Empty(), cap, run, t);
    forall i, j | i in t.entries && j in t.entries && i !in t.killed && j !in t.killed
        && t.entries[i].stream == t.entries[j].stream
      ensures i == j
    {
      assert TwinSane(t, i) && TwinSane(t, j);
    }
    forall id | id in t.entries ensures Current(t, id) <==> id !in t.killed {
      assert TwinSane(t, id);
    }
  }

  /** The late teardown of a twin that was replaced leaves its replacement registered. */
  lemma StaleTeardownHarmless(s: State, cap: nat, id: Id)
    requires Inv(s, cap) && Enabled(s, cap, Timer(id)) && id in s.killed
    ensures Next(s, cap, Timer(id)).variants == s.variants
  {
    assert TwinSane(s, id);
  }

  /** The spawn in flight for the stream is still that of twin `id`, and no twin of the stream was started since. */
  ghost predicate SameSpawn(s: State, t: State, stream: Stream, id: Id) {
    && stream in t.spawning && t.spawning[stream] == id
    && (forall i | i in t.entries && t.entries[i].stream == stream :: i in s.entries && s.entries[i].stream == stream)
  }

  lemma SpawnStepKeeps(s: State, t: State, cap: nat, e: Event, stream: Stream, id: Id)
    requires Inv(t, cap) && Enabled(t, cap, e) && e != Ready(stream) && SameSpawn(s, t, stream, id)
    ensures SameSpawn(s, Next(t, cap, e), stream, id)
  {
    forall i | i in Next(t, cap, e).entries && Next(t, cap, e).entries[i].stream == stream
      ensures i in t.entries && t.entries[i].stream == stream
    {
    }
  }

  lemma {:induction false} SpawnStays(s: State, t: State, cap: nat, run: seq<Event>, u: State, stream: Stream, id: Id)
    requires Inv(t, cap) && Reaches(t, cap, run, u) && Ready(stream) !in run && SameSpawn(s, t, stream, id)
    ensures SameSpawn(s, u, stream, id)
    decreases |run|
  {
    if run != [] {
      assert run[0] in run && forall e | e in run[1..] :: e in run;
      NextKeeps(t, cap, run[0]);
      SpawnStepKeeps(s, t, cap, run[0], stream, id);
      SpawnStays(s, Next(t, cap, run[0]), cap, run[1..], u, stream, id);
    }
  }

  /**
   * Until a spawn settles, whatever else happens, the death, teardown or reaping of its own twin
   * included: every watch request for its stream shares it or reuses a registered twin, and nobody
   * starts a second one. So all who shared are answered with the twin of that one spawn; once it has
   * settled nobody shares it any more.
   */
  lemma OneSpawnUntilItSettles(cap: nat, before: seq<Event>, s: State, run: seq<Event>, t: State, stream: Stream)
    requires Reaches(Empty(), cap, before, s) && stream in s.spawning
    requires Reaches(s, cap, run, t) && Ready(stream) !in run
    ensures SameSpawn(s, t, stream, s.spawning[stream])
    ensures WatchKind(t, cap, stream) == Existing || WatchKind(t, cap, stream) == Shared
    ensures Enabled(t, cap, Ready(stream)) && WatchKind(Next(t, cap, Ready(stream)), cap, stream) != Shared
  {
    EmptyInv(cap);
    ReachableInv(Empty(), cap, before, s);
    SpawnStays(s, s, cap, run, t, stream, s.spawning[stream]);
  }

  /**
   * A twin whose transcoder has ended is gone once its delayed teardown fires, in every reachable
   * state: killed, wiped and no longer registered, with every other twin left where it is.
   */
  lemma TimerTearsDown(cap: nat, run: seq<Event>, s: State, id: Id)
    requires Reaches(Empty(), cap, run, s) && id in s.timers
    ensures var t := Next(s, cap, Timer(id));
            && id in t.killed && id in t.wiped && id !in t.timers
            && (forall st | st in s.variants ::
                  if s.variants[st] == id then st !in t.variants else st in t.variants && t.variants[st] == s.variants[st])
  {
    EmptyInv(cap);
    ReachableInv(Empty(), cap, run, s);
    assert TwinSane(s, id);
    forall st | st in s.variants && s.variants[st] == id ensures s.entries[id].stream == st {
      assert StreamSane(s, st);
    }
  }

  // ---- the idle reaper ----

  /** When the stream was last asked for. */
  function LastWatch(run: seq<Event>, st: Stream): Option<int> {
    if run == [] then None
    else
      var e := run[|run| - 1];
      if e.Watch? && e.stream == st then Some(e.now) else LastWatch(run[..|run| - 1], st)
  }

  ghost predicate TimeKnown(past: seq<Event>, s: State, st: Stream) {
    st in s.variants && s.variants[st] in s.entries ==>
      LastWatch(past, st) == Some(s.entries[s.variants[st]].lastWatchAt)
  }

  lemma LastWatchSnoc(past: seq<Event>, e: Event, st: Stream)
    ensures LastWatch(past + [e], st) == if e.Watch? && e.stream == st then Some(e.now) else LastWatch(past, st)
  {
    assert (past + [e])[..|past|] == past;
  }

  lemma NextKnowsTime(past: seq<Event>, s: State, cap: nat, e: Event, st: Stream)
    requires Inv(s, cap) && Enabled(s, cap, e) && TimeKnown(past, s, st)
    ensures TimeKnown(past + [e], Next(s, cap, e), st)
  {
    LastWatchSnoc(past, e, st);
    assert StreamSane(s, st);
    if e.Watch? {
      assert StreamSane(s, e.stream);
    }
  }

  lemma {:induction false} ReachesKnowsTime(past: seq<Event>, s: State, cap: nat, run: seq<Event>, t: State, st: Stream)
    requires Inv(s, cap) && Reaches(s, cap, run, t) && TimeKnown(past, s, st)
    ensures TimeKnown(past + run, t, st)
    decreases |run|
  {
    if run == [] {
      assert past + [] == past;
    } else {
      NextKeeps(s, cap, run[0]);
      NextKnowsTime(past, s, cap, run[0], st);
      ReachesKnowsTime(past + [run[0]], Next(s, cap, run[0]), cap, run[1..], t, st);
      assert past + [run[0]] + run[1..] == past + run;
    }
  }

  /**
   * In every run a pass of the reaper leaves a registered twin alone exactly if its stream was asked for
   * within the last two minutes; otherwise the twin is unregistered, killed and wiped.
   */
  lemma ReapsExactlyIdle(cap: nat, run: seq<Event>, s: State, now: int, st: Stream)
    requires Reaches(Empty(), cap, run, s) && st in s.variants
    ensures LastWatch(run, st).Some?
    ensures var t := Next(s, cap, Reap(now));
            if now - LastWatch(run, st).value <= 120_000 then st in t.variants && t.variants[st] == s.variants[st]
            else st !in t.variants && s.variants[st] in t.killed && s.variants[st] in t.wiped
  {
    EmptyInv(cap);
    ReachableInv(Empty(), cap, run, s);
    ReachesKnowsTime([], Empty(), cap, run, s, st);
    assert [] + run == run && StreamSane(s, st);
  }

  // ---- twins that have died ----

  ghost predicate SpawnTied(s: State, st: Stream) {
    st in s.spawning ==> s.spawning[st] in s.entries && s.entries[s.spawning[st]].stream == st
  }

  ghost predicate SpawnsTied(s: State) {
    forall st :: SpawnTied(s, st)
  }

  lemma NextKeepsSpawns(s: State, cap: nat, e: Event)
    requires SpawnsTied(s) && Enabled(s, cap, e)
    ensures SpawnsTied(Next(s, cap, e))
  {
    var s' := Next(s, cap, e);
    forall st ensures SpawnTied(s', st) { assert SpawnTied(s, st); }
  }

  lemma {:induction false} ReachableSpawns(s: State, cap: nat, run: seq<Event>, t: State)
    requires SpawnsTied(s) && Reaches(s, cap, run, t)
    ensures SpawnsTied(t)
    decreases |run|
  {
    if run != [] {
      NextKeepsSpawns(s, cap, run[0]);
      ReachableSpawns(Next(s, cap, run[0]), cap, run[1..], t);
    }
  }

  /** The twin whose name answers a watch that starts none: the registered one, or that of the spawn it shares. */
  predicate AnsweredBy(s: State, stream: Stream, id: Id) {
    if stream in s.variants then s.variants[stream] == id else stream in s.spawning && s.spawning[stream] == id
  }

  /**
   * In every reachable state a watch is answered with a twin whose transcoder is gone exactly when
   * that twin is registered and waits for its delayed teardown, or none is registered and a spawn is
   * still in flight: whoever shares a spawn gets a twin that has been torn down.
   */
  lemma DeadTwinAnswersExactly(cap: nat, run: seq<Event>, s: State, stream: Stream, id: Id)
    requires Reaches(Empty(), cap, run, s) && AnsweredBy(s, stream, id)
    ensures id in s.exited || id in s.killed <==> id in s.timers || stream !in s.variants
    ensures WatchKind(s, cap, stream) == if stream in s.variants then Existing else Shared
  {
    EmptyInv(cap);
    ReachableInv(Empty(), cap, run, s);
    assert forall st :: SpawnTied(Empty(), st);
    ReachableSpawns(Empty(), cap, run, s);
    assert StreamSane(s, stream) && SpawnTied(s, stream) && TwinSane(s, id);
  }

  /** A twin dies; a watch before its teardown reuses it. */
  lemma DeadTwinIsReused(stream: Stream, nodeId: string, now: int) returns (run: seq<Event>, s: State)
    ensures Reaches(Empty(), 4, run, s) && WatchKind(s, 4, stream) == Existing
    ensures AnsweredBy(s, stream, 0) && 0 in s.exited && 0 !in s.killed
  {
    var e, f := Watch(stream, nodeId, now, 0), Exit(0);
    var s1 := Fresh(Empty(), stream, nodeId, now, 0);
    assert Next(Empty(), 4, e) == s1;
    s := Next(s1, 4, f);
    ReachesStep(s1, 4, f, [], s);
    ReachesStep(Empty(), 4, e, [f] + [], s);
    run := [e] + ([f] + []);
  }

  lemma ReachesStep(s: State, cap: nat, e: Event, run: seq<Event>, t: State)
    requires Enabled(s, cap, e) && Reaches(Next(s, cap, e), cap, run, t)
    ensures Reaches(s, cap, [e] + run, t)
  {
    assert ([e] + run)[1..] == run;
  }

  // ---- the pool itself ----

  class Pool {
    const cap: nat  // CLEAN_MAX_CONCURRENT
    var variants: map<Stream, Id>
    var spawning: map<Stream, Id>
    var entries: map<Id, Variant>
    var killed: set<Id>
    var exited: set<Id>
    var timers: set<Id>
    var wiped: set<Id>

    function Abs(): State
      reads this
    {
      State(variants, spawning, entries, killed, exited, timers, wiped)
    }

    constructor (cap: nat)
      ensures this.cap == cap && Abs() == Empty()
    {
      this.cap := cap;
      variants, spawning, entries := map[], map[], map[];
      killed, exited, timers, wiped := {}, {}, {}, {};
    }

    method TeardownEntry(id: Id)
      requires id in entries
      modifies this
      ensures Abs() == Teardown(old(Abs()), id)
    {
      var entry := entries[id];
      if entry.stream in variants && variants[entry.stream] == id {
        variants := variants - {entry.stream};
      }
      killed := killed + {id};
      wiped := wiped + {id};
    }

    /** The part of a watch request that runs before it first waits. */
    method Watch(stream: Stream, nodeId: string, now: int, id: Id) returns (kind: Watched)
      requires Inv(Abs(), cap) && id !in entries
      modifies this
      ensures kind == WatchKind(old(Abs()), cap, stream)
      ensures Abs() == Next(old(Abs()), cap, Event.Watch(stream, nodeId, now, id))
    {
      if stream in variants {
        var existing := variants[stream];
        assert StreamSane(Abs(), stream);
        entries := entries[existing := entries[existing].(lastWatchAt := now)];
        return Existing;
      }
      if stream in spawning { return Shared; }
      if |variants| >= cap { return Fallback; }
      entries := entries[id := Variant(id, stream, nodeId, now)];
      variants := variants[stream := id];
      spawning := spawning[stream := id];
      return Started;
    }

    /** The reaper at one entry, having walked past others. */
    method ReapAt(stream: Stream, now: int, ghost s: State, ghost walked: set<Stream>)
      requires Inv(s, cap) && Abs() == ReapedAmong(s, now, walked) && stream in s.variants && stream !in walked
      modifies this
      ensures Abs() == ReapedAmong(s, now, walked + {stream})
    {
      ReapOneMore(s, cap, now, walked, stream);
      var id := variants[stream];
      if now - entries[id].lastWatchAt > IDLE_TTL_MS {
        TeardownEntry(id);
      }
    }

    /** One pass of the idle reaper; entries may leave the map while it is being walked. */
    method Reap(now: int)
      requires Inv(Abs(), cap)
      modifies this
      ensures Abs() == Reaped(old(Abs()), now)
    {
      ghost var s := Abs();
      var todo := variants.Keys;
      ghost var all := todo;
      ReapedNone(s, now);
      assert all - todo == {};
      while todo != {}
        invariant todo <= all && Abs() == ReapedAmong(s, now, all - todo)
        decreases |todo|
      {
        var stream :| stream in todo;
        ReapAt(stream, now, s, all - todo);
        assert (all - todo) + {stream} == all - (todo - {stream});
        todo := todo - {stream};
      }
      assert all - {} == all;
    }
  }
}
