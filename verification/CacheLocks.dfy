/**
 The two locks of the cache, on its entries and on its counters. One step takes a lock and does what it
 protects; a call that takes one lock while holding the other stands, between the two, where it holds
 the first. A schedule is any sequence of such steps and clock ticks.
 */
module CacheLocks {
  import opened Wrappers
  import opened Basics
  import opened MemoryCache
  import opened CacheRecency
  import CacheInterleaving

  datatype Call =
    | SetCall(key: string, data: Option<Bytes>, ttl: Option<nat>)
    | GetCall(key: string, decodable: Bytes -> bool)
    | DeleteCall(key: string)
    | ExistsCall(key: string)
    | ExpireCall(key: string, ttlSeconds: nat)
    | TtlCall(key: string)
    | ClearCall
    | StatsCall

  /** Where a call stands, and which guards it holds while waiting for the next one. */
  datatype Thread =
    | Waiting(call: Call)
    | Sweeping(call: Call)                        // entries.write(); dropped something
    | Cleaned(call: Call)
    | MadeRoom(call: Call)
    | Late(key: string)
    | PuttingBack(key: string, entry: CacheEntry)
    | Noting
    | Changed
    | Counting                                    // stats.write()
    | Reporting                                   // stats.read()
    | Finished

  datatype World = World(entries: Entries, clock: int, threads: seq<Thread>)

  datatype Move = Tick(ticks: nat) | Act(thread: nat, victim: string)

  datatype Lock = NoLock | WriteEntries | ReadEntries | WriteStats | ReadStats

  predicate CleansUp(c: Call) {
    !c.DeleteCall? && !c.ExpireCall? && !c.ClearCall?
  }

  /** What the next step of a call takes. */
  function NextLock(t: Thread, max: Option<nat>): Lock {
    match t
    case Waiting(_) => WriteEntries
    case Sweeping(_) => WriteStats
    case Cleaned(c) =>
      if c.SetCall? then if max.None? then NoLock else WriteEntries
      else if c.StatsCall? then ReadStats
      else ReadEntries
    case MadeRoom(c) => if c.SetCall? && c.data.None? then NoLock else WriteEntries
    case Late(_) => WriteEntries
    case PuttingBack(_, _) => WriteEntries
    case Noting => WriteStats
    case Changed => WriteStats
    case Counting => ReadEntries
    case Reporting => ReadEntries
    case Finished => NoLock
  }

  /** Some call holds the entries. */
  predicate EntriesHeld(w: World) {
    exists i | 0 <= i < |w.threads| :: w.threads[i].Sweeping?
  }

  predicate StatsWritten(w: World) {
    exists i | 0 <= i < |w.threads| :: w.threads[i].Counting?
  }

  predicate StatsRead(w: World) {
    exists i | 0 <= i < |w.threads| :: w.threads[i].Reporting?
  }

  predicate Free(w: World, lock: Lock) {
    match lock
    case NoLock => true
    case WriteEntries => !EntriesHeld(w)
    case ReadEntries => !EntriesHeld(w)
    case WriteStats => !StatsWritten(w) && !StatsRead(w)
    case ReadStats => !StatsWritten(w)
  }

  predicate Enabled(w: World, i: nat, max: Option<nat>) {
    i < |w.threads| && !w.threads[i].Finished? && Free(w, NextLock(w.threads[i], max))
  }

  predicate CanMove(w: World, m: Move, max: Option<nat>) {
    m.Act? ==>
      && Enabled(w, m.thread, max)
      && (w.threads[m.thread].Cleaned? && w.threads[m.thread].call.SetCall? ==> MayEvict(w.entries, max, m.victim))
  }

  /** The entries and the position a step leaves. */
  function Next(es: Entries, now: int, t: Thread, max: Option<nat>, victim: string): (Entries, Thread) {
    match t
    case Waiting(c) =>
      if CleansUp(c) then (Cleanup(es, now), if Expired(es, now) == {} then Cleaned(c) else Sweeping(c))
      else if c.ClearCall? then (map[], Noting)
      else if c.key !in es then (es, Finished)
      else if c.DeleteCall? then (es - {c.key}, Changed)
      else if c.ExpireCall? then (es[c.key := es[c.key].(expiresAt := Some(Deadline(now, c.ttlSeconds)))], Finished)
      else (es, Finished)
    case Sweeping(c) => (es, Cleaned(c))
    case Cleaned(c) =>
      (match c
       case SetCall(_, _, _) => (Evict(es, max, victim), MadeRoom(c))
       case GetCall(key, decodable) =>
         if key !in es then (es, Noting)
         else if es[key].IsExpired(now) then (es, Late(key))
         else if !decodable(es[key].data) then (es, Finished)
         else (es, PuttingBack(key, es[key].MarkAccessed(now)))
       case StatsCall => (es, Reporting)
       case _ => (es, Finished))
    case MadeRoom(c) =>
      if c.SetCall? && c.data.Some? then (es[c.key := CacheEntry.New(c.data.value, c.ttl, now)], Changed)
      else (es, Finished)
    case Late(key) => (es - {key}, Changed)
    case PuttingBack(key, entry) => (es[key := entry], Noting)
    case Noting => (es, Finished)
    case Changed => (es, Counting)
    case Counting => (es, Finished)
    case Reporting => (es, Finished)
    case Finished => (es, Finished)
  }

  function Moved(w: World, m: Move, max: Option<nat>): World
    requires CanMove(w, m, max)
  {
    match m
    case Tick(ticks) => w.(clock := w.clock + ticks)
    case Act(i, victim) =>
      var (es, t) := Next(w.entries, w.clock, w.threads[i], max, victim);
      w.(entries := es, threads := w.threads[i := t])
  }

  ghost predicate Legal(w: World, moves: seq<Move>, max: Option<nat>)
    decreases |moves|, 0
  {
    moves != [] ==>
      Legal(w, moves[..|moves| - 1], max) && CanMove(Exec(w, moves[..|moves| - 1], max), moves[|moves| - 1], max)
  }

  ghost function Exec(w: World, moves: seq<Move>, max: Option<nat>): World
    requires Legal(w, moves, max)
    decreases |moves|, 1
  {
    if moves == [] then w else Moved(Exec(w, moves[..|moves| - 1], max), moves[|moves| - 1], max)
  }

  ghost predicate Initial(w: World) {
    w.entries == map[] && forall i | 0 <= i < |w.threads| :: w.threads[i].Waiting?
  }

  lemma LegalSnoc(w: World, moves: seq<Move>, m: Move, max: Option<nat>)
    requires Legal(w, moves, max) && CanMove(Exec(w, moves, max), m, max)
    ensures Legal(w, moves + [m], max) && Exec(w, moves + [m], max) == Moved(Exec(w, moves, max), m, max)
  {
    assert (moves + [m])[..|moves|] == moves;
  }

  // ----- The cycle

  /** A call holds the counters and waits for the entries. */
  predicate HoldsStats(t: Thread) {
    t.Counting? || t.Reporting?
  }

  /** A cleanup that dropped something waits for the counters while their holder waits for the entries. */
  predicate Deadlocked(w: World) {
    && (exists i | 0 <= i < |w.threads| :: w.threads[i].Sweeping?)
    && (exists j | 0 <= j < |w.threads| :: HoldsStats(w.threads[j]))
  }

  predicate AllFinished(w: World) {
    forall i | 0 <= i < |w.threads| :: w.threads[i].Finished?
  }

  lemma StaysDeadlocked(w: World, m: Move, max: Option<nat>, i: nat, j: nat)
    requires CanMove(w, m, max) && i < |w.threads| && j < |w.threads|
    requires w.threads[i].Sweeping? && HoldsStats(w.threads[j])
    ensures var w' := Moved(w, m, max);
            |w'.threads| == |w.threads| && w'.threads[i] == w.threads[i] && w'.threads[j] == w.threads[j]
  {
    hide Next;
  }

  /** Once two calls wait for each other, neither ever moves again, whatever the rest does. */
  lemma {:induction false} DeadlockIsForever(w: World, moves: seq<Move>, max: Option<nat>, i: nat, j: nat)
    requires Legal(w, moves, max) && i < |w.threads| && j < |w.threads|
    requires w.threads[i].Sweeping? && HoldsStats(w.threads[j])
    ensures var w' := Exec(w, moves, max);
            |w'.threads| == |w.threads| && w'.threads[i] == w.threads[i] && w'.threads[j] == w.threads[j]
    decreases |moves|
  {
    hide Moved, CanMove;
    if moves == [] {
    } else {
      DeadlockIsForever(w, moves[..|moves| - 1], max, i, j);
      StaysDeadlocked(Exec(w, moves[..|moves| - 1], max), moves[|moves| - 1], max, i, j);
    }
  }

  // ----- Without it every call can return

  function StepsLeft(t: Thread): nat {
    match t
    case Waiting(_) => 6
    case Sweeping(_) => 5
    case Cleaned(_) => 4
    case MadeRoom(_) => 3
    case Late(_) => 3
    case PuttingBack(_, _) => 2
    case Changed => 2
    case Noting => 1
    case Counting => 1
    case Reporting => 1
    case Finished => 0
  }

  function Work(threads: seq<Thread>): nat {
    if threads == [] then 0 else Work(threads[..|threads| - 1]) + StepsLeft(threads[|threads| - 1])
  }

  lemma {:induction false} WorkOfUpdate(threads: seq<Thread>, i: nat, t: Thread)
    requires i < |threads|
    ensures Work(threads[i := t]) == Work(threads) - StepsLeft(threads[i]) + StepsLeft(t)
  {
    var n := |threads| - 1;
    if i == n {
      assert threads[i := t][..n] == threads[..n];
    } else {
      WorkOfUpdate(threads[..n], i, t);
      assert threads[i := t][..n] == threads[..n][i := t];
    }
  }

  lemma {:induction false} NoWorkIsFinished(threads: seq<Thread>)
    requires Work(threads) == 0
    ensures forall i | 0 <= i < |threads| :: threads[i].Finished?
  {
    if threads == [] {
    } else {
      NoWorkIsFinished(threads[..|threads| - 1]);
    }
  }

  /** A call that can step can do so with some choice of victim. */
  lemma SomeMove(w: World, i: nat, max: Option<nat>) returns (m: Move)
    requires Enabled(w, i, max)
    ensures m.Act? && m.thread == i && CanMove(w, m, max)
  {
    hide Next, Free, NextLock;
    if NeedsEviction(w.entries, max) {
      var victim := CacheInterleaving.SomeLru(w.entries, w.entries.Keys);
      m := Act(i, victim);
    } else {
      m := Act(i, "");
    }
  }

  lemma StepLowers(w: World, m: Move, max: Option<nat>)
    requires m.Act? && CanMove(w, m, max)
    ensures Work(Moved(w, m, max).threads) < Work(w.threads)
  {
    hide Free, NextLock, Cleanup, Evict, Work;
    var (es, t) := Next(w.entries, w.clock, w.threads[m.thread], max, m.victim);
    WorkOfUpdate(w.threads, m.thread, t);
  }

  /** Unless two calls wait for each other, some call can step without making two wait for each other. */
  lemma GoodMove(w: World, max: Option<nat>, i: nat) returns (m: Move)
    requires !Deadlocked(w) && i < |w.threads| && !w.threads[i].Finished?
    ensures m.Act? && CanMove(w, m, max) && !Deadlocked(Moved(w, m, max))
  {
    hide Next;
    if j: nat :| j < |w.threads| && HoldsStats(w.threads[j]) {
      m := SomeMove(w, j, max);
      HolderFinishes(w, j, max, m.victim);
    } else if j: nat :| j < |w.threads| && w.threads[j].Sweeping? {
      m := SomeMove(w, j, max);
      SweeperGoesOn(w, j, max, m.victim);
    } else {
      m := SomeMove(w, i, max);
    }
  }

  lemma HolderFinishes(w: World, i: nat, max: Option<nat>, victim: string)
    requires i < |w.threads| && HoldsStats(w.threads[i])
    ensures Next(w.entries, w.clock, w.threads[i], max, victim).1 == Finished
  {
  }

  lemma SweeperGoesOn(w: World, i: nat, max: Option<nat>, victim: string)
    requires i < |w.threads| && w.threads[i].Sweeping?
    ensures Next(w.entries, w.clock, w.threads[i], max, victim).1.Cleaned?
  {
  }

  lemma {:induction false} CanFinish(w: World, moves: seq<Move>, max: Option<nat>) returns (all: seq<Move>)
    requires Legal(w, moves, max) && !Deadlocked(Exec(w, moves, max))
    ensures Legal(w, all, max) && AllFinished(Exec(w, all, max))
    decreases Work(Exec(w, moves, max).threads)
  {
    hide Moved, CanMove, Deadlocked, Work;
    var now := Exec(w, moves, max);
    if AllFinished(now) {
      all := moves;
    } else {
      var i: nat :| i < |now.threads| && !now.threads[i].Finished?;
      var m := GoodMove(now, max, i);
      StepLowers(now, m, max);
      LegalSnoc(w, moves, m, max);
      all := CanFinish(w, moves + [m], max);
    }
  }

  /**
   The exact condition: from any moment, some continuation lets every call return if and only if no
   cleanup that dropped an entry is waiting for the counters while their holder waits for the entries.
   */
  lemma FinishesExactly(w: World, max: Option<nat>)
    ensures (exists moves :: Legal(w, moves, max) && AllFinished(Exec(w, moves, max))) <==> !Deadlocked(w)
  {
    hide Moved, CanMove;
    if Deadlocked(w) {
      var i: nat :| i < |w.threads| && w.threads[i].Sweeping?;
      var j: nat :| j < |w.threads| && HoldsStats(w.threads[j]);
      forall moves | Legal(w, moves, max)
        ensures !AllFinished(Exec(w, moves, max))
      {
        DeadlockIsForever(w, moves, max, i, j);
        assert Exec(w, moves, max).threads[i].Sweeping?;
      }
    } else {
      var moves := CanFinish(w, [], max);
    }
  }

  /** In particular, while some call is unfinished and no two wait for each other, some call can step. */
  lemma NeverStuck(w: World, max: Option<nat>, i: nat) returns (j: nat)
    requires !Deadlocked(w) && i < |w.threads| && !w.threads[i].Finished?
    ensures Enabled(w, j, max)
  {
    hide Moved, Deadlocked;
    var m := GoodMove(w, max, i);
    j := m.thread;
  }

  // ----- A schedule that deadlocks

  /** A set of a value with a time to live, and another call that cleans up. */
  function TwoCalls(key: string, data: Bytes, ttl: nat): World {
    World(map[], 0, [Waiting(SetCall(key, Some(data), Some(ttl))), Waiting(ExistsCall(key))])
  }

  /**
   With any capacity: the set stores its value and takes the counters to count it; the value expires;
   the other call's cleanup takes the entries, drops the value and waits for the counters, while the
   set waits for the entries. No call can step, and none of the two ever returns.
   */
  lemma DeadlockReached(key: string, data: Bytes, ttl: nat, max: Option<nat>)
    ensures var w, set1 := TwoCalls(key, data, ttl), Act(0, "");
            var moves := [set1, set1, set1, set1, Tick(ttl * SECOND + 1), Act(1, "")];
            && Initial(w) && Legal(w, moves, max)
            && Exec(w, moves, max).threads == [Counting, Sweeping(ExistsCall(key))]
            && Deadlocked(Exec(w, moves, max))
            && forall i :: !Enabled(Exec(w, moves, max), i, max)
  {
    var w, set1 := TwoCalls(key, data, ttl), Act(0, "");
    var moves := [] + [set1] + [set1] + [set1] + [set1] + [Tick(ttl * SECOND + 1)] + [Act(1, "")];
    assert moves == [set1, set1, set1, set1, Tick(ttl * SECOND + 1), Act(1, "")];
    SetCounts(w, key, data, ttl, max);
    var counted := [] + [set1] + [set1] + [set1] + [set1];
    SweepBlocks(w, counted, key, data, ttl, max);
  }

  lemma SetNext(key: string, data: Bytes, ttl: nat, max: Option<nat>)
    ensures var c := SetCall(key, Some(data), Some(ttl));
            var es := map[key := CacheEntry.New(data, Some(ttl), 0)];
            && Next(map[], 0, Waiting(c), max, "") == (map[], Cleaned(c))
            && MayEvict(map[], max, "") && Next(map[], 0, Cleaned(c), max, "") == (map[], MadeRoom(c))
            && Next(map[], 0, MadeRoom(c), max, "") == (es, Changed) && Next(es, 0, Changed, max, "") == (es, Counting)
  {
    assert Expired(map[], 0) == {} && Cleanup(map[], 0) == map[];
  }

  /** Thread 0 steps, with no lock held. */
  lemma FirstSteps(w: World, moves: seq<Move>, max: Option<nat>, es: Entries, t: Thread, other: Thread)
    requires Legal(w, moves, max) && other.Waiting? && !t.Finished? && !t.Sweeping? && !HoldsStats(t)
    requires Exec(w, moves, max) == World(es, 0, [t, other])
    requires t.Cleaned? && t.call.SetCall? ==> MayEvict(es, max, "")
    ensures var (es', t') := Next(es, 0, t, max, "");
            Legal(w, moves + [Act(0, "")], max) && Exec(w, moves + [Act(0, "")], max) == World(es', 0, [t', other])
  {
    hide Next, MayEvict, Legal;
    var (es', t') := Next(es, 0, t, max, "");
    assert [t, other][0 := t'] == [t', other];
    LegalSnoc(w, moves, Act(0, ""), max);
  }

  lemma SetCounts(w: World, key: string, data: Bytes, ttl: nat, max: Option<nat>)
    requires w == TwoCalls(key, data, ttl)
    ensures var set1 := Act(0, "");
            var moves := [] + [set1] + [set1] + [set1] + [set1];
            && Legal(w, moves, max)
            && Exec(w, moves, max) ==
               World(map[key := CacheEntry.New(data, Some(ttl), 0)], 0, [Counting, Waiting(ExistsCall(key))])
  {
    var set1, c, other := Act(0, ""), SetCall(key, Some(data), Some(ttl)), Waiting(ExistsCall(key));
    SetNext(key, data, ttl, max);
    hide Next, MayEvict, Moved, CanMove;
    FirstSteps(w, [], max, map[], Waiting(c), other);
    FirstSteps(w, [] + [set1], max, map[], Cleaned(c), other);
    FirstSteps(w, [] + [set1] + [set1], max, map[], MadeRoom(c), other);
    FirstSteps(w, [] + [set1] + [set1] + [set1], max, map[key := CacheEntry.New(data, Some(ttl), 0)], Changed, other);
  }

  lemma SweepBlocks(w: World, before: seq<Move>, key: string, data: Bytes, ttl: nat, max: Option<nat>)
    requires Legal(w, before, max)
    requires Exec(w, before, max) ==
             World(map[key := CacheEntry.New(data, Some(ttl), 0)], 0, [Counting, Waiting(ExistsCall(key))])
    ensures var moves := before + [Tick(ttl * SECOND + 1)] + [Act(1, "")];
            && Legal(w, moves, max)
            && Exec(w, moves, max).threads == [Counting, Sweeping(ExistsCall(key))]
            && Deadlocked(Exec(w, moves, max))
            && forall i :: !Enabled(Exec(w, moves, max), i, max)
  {
    var es, late := map[key := CacheEntry.New(data, Some(ttl), 0)], ttl * SECOND + 1;
    var w1 := World(es, late, [Counting, Waiting(ExistsCall(key))]);
    LegalSnoc(w, before, Tick(late), max);
    assert key in Expired(es, late);
    var w2 := Moved(w1, Act(1, ""), max);
    assert w2.threads == [Counting, Sweeping(ExistsCall(key))];
    LegalSnoc(w, before + [Tick(late)], Act(1, ""), max);
    assert w2.threads[0].Counting? && w2.threads[1].Sweeping?;
  }

  // ----- Without deadlines it cannot happen

  /** Neither the call nor what it carries gives an entry a deadline, and it holds no entries. */
  predicate Undated(t: Thread) {
    match t
    case Waiting(c) => (c.SetCall? ==> c.ttl.None?) && !c.ExpireCall?
    case Cleaned(c) => c.SetCall? ==> c.ttl.None?
    case MadeRoom(c) => c.SetCall? ==> c.ttl.None?
    case PuttingBack(_, entry) => entry.expiresAt.None?
    case Sweeping(_) => false
    case _ => true
  }

  ghost predicate NothingDated(w: World) {
    NoDeadlines(w.entries) && forall i | 0 <= i < |w.threads| :: Undated(w.threads[i])
  }

  lemma UndatedNext(es: Entries, now: int, t: Thread, max: Option<nat>, victim: string)
    requires NoDeadlines(es) && Undated(t)
    ensures var (es', t') := Next(es, now, t, max, victim); NoDeadlines(es') && Undated(t')
  {
    CleanupOfNoDeadlines(es, now);
    assert Expired(es, now) == {};
  }

  lemma {:induction false} StaysUndated(w: World, moves: seq<Move>, max: Option<nat>)
    requires NothingDated(w) && Legal(w, moves, max)
    ensures NothingDated(Exec(w, moves, max))
    decreases |moves|
  {
    hide Next, Undated, NoDeadlines;
    if moves == [] {
    } else {
      var now, m := Exec(w, moves[..|moves| - 1], max), moves[|moves| - 1];
      StaysUndated(w, moves[..|moves| - 1], max);
      if m.Act? {
        UndatedNext(now.entries, now.clock, now.threads[m.thread], max, m.victim);
      }
    }
  }

  /** Calls that set no time to live never deadlock: from every moment, every call can return. */
  lemma NoDeadlinesNoDeadlock(w: World, moves: seq<Move>, max: Option<nat>) returns (more: seq<Move>)
    requires Initial(w) && Legal(w, moves, max)
    requires forall i | 0 <= i < |w.threads| :: Undated(w.threads[i])
    ensures Legal(Exec(w, moves, max), more, max) && AllFinished(Exec(Exec(w, moves, max), more, max))
  {
    StaysUndated(w, moves, max);
    hide Moved, CanMove;
    more := CanFinish(Exec(w, moves, max), [], max);
  }

  // ----- A call on its own is the sequential one

  /** The world after thread `i` alone has run until it ends or blocks. */
  function RunAlone(w: World, i: nat, max: Option<nat>, victim: string): (r: World)
    requires i < |w.threads|
    decreases StepsLeft(w.threads[i])
  {
    if CanMove(w, Act(i, victim), max) then RunAlone(Moved(w, Act(i, victim), max), i, max, victim) else w
  }

  /** The sequential operation a call is, with every reading at `now`. */
  function OperationOf(c: Call, now: int, victim: string): Operation {
    match c
    case SetCall(key, data, ttl) => Operation.Set(key, data, ttl, victim, now, now)
    case GetCall(key, decodable) => Operation.Get(key, decodable, now, now, now)
    case DeleteCall(key) => Operation.Delete(key, now)
    case ExistsCall(key) => Operation.Exists(key, now, now)
    case ExpireCall(key, ttlSeconds) => Operation.Expire(key, ttlSeconds, now)
    case TtlCall(key) => Operation.Ttl(key, now, now)
    case ClearCall => Operation.Clear(now)
    case StatsCall => Operation.Stats(now)
  }

  /** No other call holds a lock. */
  predicate Alone(w: World, i: nat) {
    && i < |w.threads|
    && forall j | 0 <= j < |w.threads| && j != i :: !w.threads[j].Sweeping? && !HoldsStats(w.threads[j])
  }

  /** The victim is one the eviction of the call may pick. */
  predicate VictimFits(es: Entries, now: int, t: Thread, max: Option<nat>, victim: string) {
    match t
    case Waiting(c) => c.SetCall? ==> MayEvict(Cleanup(es, now), max, victim)
    case Sweeping(c) => c.SetCall? ==> MayEvict(es, max, victim)
    case Cleaned(c) => c.SetCall? ==> MayEvict(es, max, victim)
    case _ => true
  }

  lemma VictimStillFits(es: Entries, now: int, t: Thread, max: Option<nat>, victim: string)
    requires VictimFits(es, now, t, max, victim)
    ensures var (es', t') := Next(es, now, t, max, victim); VictimFits(es', now, t', max, victim)
  {
    hide MayEvict;
    assert Expired(es, now) == {} ==> Cleanup(es, now) == es;
  }

  /** The entries a call leaves when it runs alone from position `t`. */
  function EntriesAlone(es: Entries, now: int, t: Thread, max: Option<nat>, victim: string): Entries
    decreases StepsLeft(t)
  {
    if t.Finished? then es
    else
      var (es', t') := Next(es, now, t, max, victim);
      EntriesAlone(es', now, t', max, victim)
  }

  lemma {:induction false} AloneFinishes(w: World, i: nat, max: Option<nat>, victim: string)
    requires Alone(w, i) && VictimFits(w.entries, w.clock, w.threads[i], max, victim)
    ensures var w' := RunAlone(w, i, max, victim);
            && Alone(w', i) && w'.threads[i].Finished?
            && w'.entries == EntriesAlone(w.entries, w.clock, w.threads[i], max, victim)
    decreases StepsLeft(w.threads[i])
  {
    if w.threads[i].Finished? {
    } else {
      VictimStillFits(w.entries, w.clock, w.threads[i], max, victim);
      LowerNext(w.entries, w.clock, w.threads[i], max, victim);
      hide Next, MayEvict;
      AloneFinishes(Moved(w, Act(i, victim), max), i, max, victim);
    }
  }

  lemma LowerNext(es: Entries, now: int, t: Thread, max: Option<nat>, victim: string)
    requires !t.Finished?
    ensures StepsLeft(Next(es, now, t, max, victim).1) < StepsLeft(t)
  {
  }

  /** A call running alone, whatever it is, ends with the entries the sequential operation leaves. */
  lemma CallAlone(w: World, i: nat, max: Option<nat>, victim: string)
    requires Alone(w, i) && w.threads[i].Waiting?
    requires Valid(State(w.entries, NO_STATS), OperationOf(w.threads[i].call, w.clock, victim), max)
    ensures var w' := RunAlone(w, i, max, victim);
            && i < |w'.threads| && w'.threads[i].Finished?
            && w'.entries == Apply(State(w.entries, NO_STATS), OperationOf(w.threads[i].call, w.clock, victim), max).0.entries
  {
    hide RunAlone, MayEvict, EntriesAlone;
    AloneFinishes(w, i, max, victim);
    EntriesAsApplied(w.entries, w.clock, w.threads[i].call, max, victim);
  }

  lemma CleanedAlone(es: Entries, now: int, c: Call, max: Option<nat>, victim: string)
    requires CleansUp(c)
    ensures EntriesAlone(es, now, Waiting(c), max, victim) ==
            EntriesAlone(Cleanup(es, now), now, Cleaned(c), max, victim)
  {
    var clean := Cleanup(es, now);
    assert EntriesAlone(clean, now, Sweeping(c), max, victim) == EntriesAlone(clean, now, Cleaned(c), max, victim);
  }

  lemma EntriesAsApplied(es: Entries, now: int, c: Call, max: Option<nat>, victim: string)
    ensures EntriesAlone(es, now, Waiting(c), max, victim) ==
            Apply(State(es, NO_STATS), OperationOf(c, now, victim), max).0.entries
  {
    if CleansUp(c) {
      hide Apply, EntriesAlone;
      CleanedAlone(es, now, c, max, victim);
      FromCleaned(es, now, c, max, victim);
    } else {
      hide Cleanup, SetResult, GetResult;
      var (es1, t1) := Next(es, now, Waiting(c), max, victim);
      assert EntriesAlone(es, now, Waiting(c), max, victim) == EntriesAlone(es1, now, t1, max, victim);
      ChangeAlone(es1, now, max, victim);
    }
  }

  lemma SetFromCleaned(es: Entries, now: int, c: Call, max: Option<nat>, victim: string)
    requires c.SetCall?
    ensures EntriesAlone(Cleanup(es, now), now, Cleaned(c), max, victim) ==
            Apply(State(es, NO_STATS), OperationOf(c, now, victim), max).0.entries
  {
    hide Cleanup, Evict;
    var room := Evict(Cleanup(es, now), max, victim);
    assert EntriesAlone(Cleanup(es, now), now, Cleaned(c), max, victim) == EntriesAlone(room, now, MadeRoom(c), max, victim);
    var (es2, t2) := Next(room, now, MadeRoom(c), max, victim);
    ChangeAlone(es2, now, max, victim);
  }

  lemma GetFromCleaned(es: Entries, now: int, c: Call, max: Option<nat>, victim: string)
    requires c.GetCall?
    ensures EntriesAlone(Cleanup(es, now), now, Cleaned(c), max, victim) ==
            Apply(State(es, NO_STATS), OperationOf(c, now, victim), max).0.entries
  {
    hide Cleanup, Evict;
    var clean := Cleanup(es, now);
    var (es1, t1) := Next(clean, now, Cleaned(c), max, victim);
    assert EntriesAlone(clean, now, Cleaned(c), max, victim) == EntriesAlone(es1, now, t1, max, victim);
    if t1.Late? || t1.PuttingBack? {
      var (es2, t2) := Next(es1, now, t1, max, victim);
      assert EntriesAlone(es1, now, t1, max, victim) == EntriesAlone(es2, now, t2, max, victim);
      ChangeAlone(es2, now, max, victim);
    } else {
      ChangeAlone(es1, now, max, victim);
    }
  }

  lemma FromCleaned(es: Entries, now: int, c: Call, max: Option<nat>, victim: string)
    requires CleansUp(c)
    ensures EntriesAlone(Cleanup(es, now), now, Cleaned(c), max, victim) ==
            Apply(State(es, NO_STATS), OperationOf(c, now, victim), max).0.entries
  {
    if c.SetCall? {
      SetFromCleaned(es, now, c, max, victim);
    } else if c.GetCall? {
      GetFromCleaned(es, now, c, max, victim);
    } else {
      ChangeAlone(Cleanup(es, now), now, max, victim);
      hide Cleanup;
    }
  }

  /** The counting that follows a change leaves the entries alone. */
  lemma ChangeAlone(es: Entries, now: int, max: Option<nat>, victim: string)
    ensures EntriesAlone(es, now, Changed, max, victim) == es && EntriesAlone(es, now, Noting, max, victim) == es
    ensures EntriesAlone(es, now, Reporting, max, victim) == es
  {
    assert EntriesAlone(es, now, Counting, max, victim) == es;
  }
}
