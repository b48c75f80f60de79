/** Capacity and least-recently-used eviction over whole runs of the bounded cache. */
module CacheRecency {
  import opened Wrappers
  import opened Basics
  import opened MemoryCache
  import opened CacheRefinement

  function Now(ops: seq<Operation>, max: Option<nat>): State {
    RunFrom(EMPTY, ops, max)
  }

  /** Every victim of the run was one eviction may pick. */
  ghost predicate ValidRun(ops: seq<Operation>, max: Option<nat>) {
    forall i | 0 <= i < |ops| :: Valid(Now(ops[..i], max), ops[i], max)
  }

  // ----- The history the cache does not keep

  /** A set that stored its value, or a get that found one. */
  predicate Touches(s: State, op: Operation) {
    || (op.Set? && op.data.Some?)
    || (op.Get? && GetResult(s, op).1.Value? && GetResult(s, op).1.data.Some?)
  }

  /** When each key was last touched, whether or not it is still there. */
  function LastTouch(ops: seq<Operation>, max: Option<nat>): map<string, int> {
    if ops == [] then map[]
    else
      var rest, last := ops[..|ops| - 1], ops[|ops| - 1];
      if Touches(Now(rest, max), last) then LastTouch(rest, max)[last.key := End(last)] else LastTouch(rest, max)
  }

  function EvictedBy(s: State, op: Operation, max: Option<nat>): set<string> {
    if op.Set? && NeedsEviction(Cleanup(s.entries, op.cleanAt), max) then {op.victim} else {}
  }

  /** The keys evicted and not set again since. */
  function Evicted(ops: seq<Operation>, max: Option<nat>): set<string> {
    if ops == [] then {}
    else
      var rest, last := ops[..|ops| - 1], ops[|ops| - 1];
      Evicted(rest, max) + EvictedBy(Now(rest, max), last, max) -
      if last.Set? && last.data.Some? then {last.key} else {}
  }

  // ----- The invariant

  /** Recencies are last touches, and whatever was evicted was touched no later than anything resident. */
  ghost predicate RecencyInv(es: Entries, touch: map<string, int>, evicted: set<string>, now: int) {
    && (forall k | k in es :: k in touch && touch[k] == es[k].Recency())
    && (forall j | j in evicted :: j !in es && j in touch)
    && (forall j, k | j in evicted && k in es :: touch[j] <= touch[k])
    && (forall k | k in touch :: touch[k] <= now)
  }

  lemma CleanupInv(es: Entries, touch: map<string, int>, evicted: set<string>, now: int, cleanAt: int)
    requires RecencyInv(es, touch, evicted, now) && now <= cleanAt
    ensures RecencyInv(Cleanup(es, cleanAt), touch, evicted, cleanAt)
  {
  }

  lemma EvictInv(
    es: Entries, touch: map<string, int>, evicted: set<string>, now: int, max: Option<nat>, victim: string
  )
    requires RecencyInv(es, touch, evicted, now) && MayEvict(es, max, victim)
    ensures RecencyInv(Evict(es, max, victim), touch, evicted + if NeedsEviction(es, max) then {victim} else {}, now)
  {
  }

  lemma InsertInv(
    es: Entries, touch: map<string, int>, evicted: set<string>, now: int, key: string, entry: CacheEntry
  )
    requires RecencyInv(es, touch, evicted, now) && now <= entry.Recency()
    ensures RecencyInv(es[key := entry], touch[key := entry.Recency()], evicted - {key}, entry.Recency())
  {
  }

  lemma SetInv(
    s: State, op: Operation, max: Option<nat>, touch: map<string, int>, evicted: set<string>, now: int
  )
    requires op.Set? && RecencyInv(s.entries, touch, evicted, now) && Valid(s, op, max)
    requires now <= Start(op) && Ticking(op)
    ensures var touch' := if op.data.Some? then touch[op.key := End(op)] else touch;
            var gone := evicted + EvictedBy(s, op, max) - if op.data.Some? then {op.key} else {};
            RecencyInv(SetResult(s, op, max).0.entries, touch', gone, End(op))
  {
    var clean := Cleanup(s.entries, op.cleanAt);
    var gone := evicted + EvictedBy(s, op, max);
    CleanupInv(s.entries, touch, evicted, now, op.cleanAt);
    EvictInv(clean, touch, evicted, op.cleanAt, max, op.victim);
    LaterInv(Evict(clean, max, op.victim), touch, gone, op.cleanAt, End(op));
    hide Cleanup, Evict, MayEvict, NeedsEviction, RecencyInv;
    if op.data.Some? {
      var entry := CacheEntry.New(op.data.value, op.ttl, op.createAt);
      InsertInv(Evict(clean, max, op.victim), touch, gone, End(op), op.key, entry);
    } else {
      assert gone - {} == gone;
    }
  }

  lemma LaterInv(es: Entries, touch: map<string, int>, evicted: set<string>, now: int, later: int)
    requires RecencyInv(es, touch, evicted, now) && now <= later
    ensures RecencyInv(es, touch, evicted, later)
  {
  }

  lemma TouchInv(es: Entries, touch: map<string, int>, evicted: set<string>, now: int, key: string, touchAt: int)
    requires RecencyInv(es, touch, evicted, now) && key in es && now <= touchAt
    ensures RecencyInv(es[key := es[key].MarkAccessed(touchAt)], touch[key := touchAt], evicted, touchAt)
  {
    InsertInv(es, touch, evicted, now, key, es[key].MarkAccessed(touchAt));
    assert evicted - {key} == evicted;
  }

  lemma RemoveInv(es: Entries, touch: map<string, int>, evicted: set<string>, now: int, key: string)
    requires RecencyInv(es, touch, evicted, now)
    ensures RecencyInv(es - {key}, touch, evicted, now)
  {
  }

  lemma GetInv(s: State, op: Operation, touch: map<string, int>, evicted: set<string>, now: int)
    requires op.Get? && RecencyInv(s.entries, touch, evicted, now)
    requires now <= Start(op) && Ticking(op)
    ensures RecencyInv(GetResult(s, op).0.entries, if Touches(s, op) then touch[op.key := End(op)] else touch,
                       evicted, End(op))
  {
    var es := Cleanup(s.entries, op.cleanAt);
    CleanupInv(s.entries, touch, evicted, now, op.cleanAt);
    RemoveInv(es, touch, evicted, op.cleanAt, op.key);
    LaterInv(es, touch, evicted, op.cleanAt, op.touchAt);
    LaterInv(es - {op.key}, touch, evicted, op.cleanAt, op.touchAt);
    if op.key in es {
      TouchInv(es, touch, evicted, op.cleanAt, op.key, op.touchAt);
    }
    hide Cleanup, RecencyInv;
  }

  lemma OtherInv(
    s: State, op: Operation, max: Option<nat>, touch: map<string, int>, evicted: set<string>, now: int
  )
    requires !op.Set? && !op.Get? && RecencyInv(s.entries, touch, evicted, now)
    requires now <= Start(op) && Ticking(op)
    ensures RecencyInv(Apply(s, op, max).0.entries, touch, evicted, End(op))
  {
    CleanupInv(s.entries, touch, evicted, now, Start(op));
  }

  lemma ApplyInv(
    s: State, op: Operation, max: Option<nat>, touch: map<string, int>, evicted: set<string>, now: int
  )
    requires RecencyInv(s.entries, touch, evicted, now) && Valid(s, op, max)
    requires now <= Start(op) && Ticking(op)
    ensures var touch' := if Touches(s, op) then touch[op.key := End(op)] else touch;
            var gone := evicted + EvictedBy(s, op, max) - if op.Set? && op.data.Some? then {op.key} else {};
            RecencyInv(Apply(s, op, max).0.entries, touch', gone, End(op))
  {
    hide GetResult, SetResult, RecencyInv;
    if op.Set? {
      SetInv(s, op, max, touch, evicted, now);
    } else {
      assert evicted + {} - {} == evicted;
      if op.Get? {
        GetInv(s, op, touch, evicted, now);
      } else {
        OtherInv(s, op, max, touch, evicted, now);
      }
    }
  }

  lemma {:induction false} RunInv(ops: seq<Operation>, max: Option<nat>, now: int)
    requires Ordered(ops) && ValidRun(ops, max)
    requires ops != [] ==> End(ops[|ops| - 1]) <= now
    ensures RecencyInv(Now(ops, max).entries, LastTouch(ops, max), Evicted(ops, max), now)
  {
    hide Apply, Touches, EvictedBy;
    if ops == [] {
    } else {
      var rest, last := ops[..|ops| - 1], ops[|ops| - 1];
      ValidPrefix(ops, max, |ops| - 1);
      RunInv(rest, max, Start(last));
      ApplyInv(Now(rest, max), last, max, LastTouch(rest, max), Evicted(rest, max), Start(last));
    }
  }

  lemma ValidPrefix(ops: seq<Operation>, max: Option<nat>, n: nat)
    requires n <= |ops| && ValidRun(ops, max)
    ensures ValidRun(ops[..n], max)
    ensures n < |ops| ==> Valid(Now(ops[..n], max), ops[n], max)
  {
    hide Valid, RunFrom;
    forall i | 0 <= i < n
      ensures Valid(Now(ops[..n][..i], max), ops[..n][i], max)
    {
      assert ops[..n][..i] == ops[..i];
    }
  }

  // ----- What it means

  /** A set evicts a key touched no later than every key that stays, by the whole history of touches. */
  lemma EvictsLeastRecentlyTouched(ops: seq<Operation>, max: Option<nat>, op: Operation)
    requires Ordered(ops + [op]) && ValidRun(ops + [op], max)
    requires op.Set? && NeedsEviction(Cleanup(Now(ops, max).entries, op.cleanAt), max)
    ensures var stay := Cleanup(Now(ops, max).entries, op.cleanAt) - {op.victim};
            && op.victim in LastTouch(ops, max)
            && forall k | k in stay ::
                 k in LastTouch(ops, max) && LastTouch(ops, max)[op.victim] <= LastTouch(ops, max)[k]
  {
    var all := ops + [op];
    assert all[..|ops|] == ops;
    ValidPrefix(all, max, |ops|);
    assert Ordered(ops) by {
      assert forall i | 0 <= i < |ops| :: all[i] == ops[i];
    }
    assert ops != [] ==> all[|ops| - 1] == ops[|ops| - 1];
    RunInv(ops, max, Start(op));
  }

  /** Over every run, an evicted key not set again was last touched no later than every key now resident. */
  lemma EvictedAreOldest(ops: seq<Operation>, max: Option<nat>, gone: string, resident: string)
    requires Ordered(ops) && ValidRun(ops, max)
    requires gone in Evicted(ops, max) && resident in Now(ops, max).entries
    ensures gone in LastTouch(ops, max) && resident in LastTouch(ops, max)
    ensures LastTouch(ops, max)[gone] <= LastTouch(ops, max)[resident]
  {
    RunInv(ops, max, if ops == [] then 0 else End(ops[|ops| - 1]));
  }

  /** Runs without deletions and without deadlines. */
  predicate KeepsAll(op: Operation) {
    !op.Delete? && !op.Clear? && !op.Expire? && (op.Set? ==> op.ttl.None?)
  }

  ghost predicate NoDeadlines(es: Entries) {
    forall k | k in es :: es[k].expiresAt.None?
  }

  lemma CleanupOfNoDeadlines(es: Entries, now: int)
    requires NoDeadlines(es)
    ensures Cleanup(es, now) == es
  {
  }

  lemma EvictKeys(es: Entries, max: Option<nat>, victim: string)
    requires NoDeadlines(es)
    ensures Evict(es, max, victim).Keys == es.Keys - (if NeedsEviction(es, max) then {victim} else {})
    ensures NoDeadlines(Evict(es, max, victim))
  {
  }

  lemma InsertKeys(es: Entries, key: string, entry: CacheEntry)
    requires NoDeadlines(es) && entry.expiresAt.None?
    ensures es[key := entry].Keys == es.Keys + {key} && NoDeadlines(es[key := entry])
  {
  }

  lemma KeepsAllSet(s: State, op: Operation, max: Option<nat>)
    requires KeepsAll(op) && op.Set? && NoDeadlines(s.entries)
    ensures var es := SetResult(s, op, max).0.entries;
            && NoDeadlines(es)
            && es.Keys == s.entries.Keys - EvictedBy(s, op, max) + (if op.data.Some? then {op.key} else {})
  {
    hide Cleanup, Evict, NoDeadlines;
    CleanupOfNoDeadlines(s.entries, op.cleanAt);
    EvictKeys(s.entries, max, op.victim);
    if op.data.Some? {
      InsertKeys(Evict(s.entries, max, op.victim), op.key, CacheEntry.New(op.data.value, op.ttl, op.createAt));
    }
  }

  lemma KeepsAllStep(s: State, op: Operation, max: Option<nat>)
    requires KeepsAll(op) && NoDeadlines(s.entries)
    ensures var es := Apply(s, op, max).0.entries;
            && NoDeadlines(es)
            && es.Keys == s.entries.Keys - EvictedBy(s, op, max) + (if Touches(s, op) then {op.key} else {})
  {
    hide SetResult, GetResult, Touches;
    if op.Set? {
      KeepsAllSet(s, op, max);
    } else if op.Get? {
      KeepsAllGet(s, op);
    } else {
      CleanupOfNoDeadlines(s.entries, Start(op));
    }
    OnlySetsAndGetsTouch(s, op);
  }

  lemma OnlySetsAndGetsTouch(s: State, op: Operation)
    ensures op.Set? ==> (Touches(s, op) <==> op.data.Some?)
    ensures !op.Set? && !op.Get? ==> !Touches(s, op)
  {
  }

  lemma KeepsAllGet(s: State, op: Operation)
    requires op.Get? && NoDeadlines(s.entries)
    ensures var es := GetResult(s, op).0.entries;
            NoDeadlines(es) && es.Keys == s.entries.Keys + if Touches(s, op) then {op.key} else {}
  {
    CleanupOfNoDeadlines(s.entries, op.cleanAt);
    hide Cleanup;
  }

  lemma {:induction false} TouchedIsResidentOrEvicted(ops: seq<Operation>, max: Option<nat>)
    requires forall op | op in ops :: KeepsAll(op)
    ensures var es := Now(ops, max).entries;
            && NoDeadlines(es)
            && LastTouch(ops, max).Keys <= es.Keys + Evicted(ops, max)
  {
    hide Apply, Touches, EvictedBy, KeepsAll;
    if ops == [] {
    } else {
      var rest, last := ops[..|ops| - 1], ops[|ops| - 1];
      TouchedIsResidentOrEvicted(rest, max);
      KeepsAllStep(Now(rest, max), last, max);
      SetKeyIsTouched(Now(rest, max), last);
    }
  }

  lemma SetKeyIsTouched(s: State, op: Operation)
    ensures op.Set? && op.data.Some? ==> Touches(s, op)
  {
  }

  /** When nothing is deleted or expires, the residents are always the most recently touched keys. */
  lemma ResidentsAreMostRecentlyTouched(ops: seq<Operation>, max: Option<nat>, other: string, resident: string)
    requires Ordered(ops) && ValidRun(ops, max) && forall op | op in ops :: KeepsAll(op)
    requires resident in Now(ops, max).entries
    requires other in LastTouch(ops, max) && other !in Now(ops, max).entries
    ensures resident in LastTouch(ops, max)
    ensures LastTouch(ops, max)[other] <= LastTouch(ops, max)[resident]
  {
    TouchedIsResidentOrEvicted(ops, max);
    EvictedAreOldest(ops, max, other, resident);
  }

  // ----- Capacity

  function Bound(max: nat): nat {
    if max == 0 then 1 else max
  }

  lemma CleanupSize(es: Entries, now: int)
    ensures |Cleanup(es, now)| <= |es|
  {
    var clean := Cleanup(es, now);
    assert clean.Keys <= es.Keys;
    SubsetSize(clean.Keys, es.Keys);
    assert |clean| == |clean.Keys| && |es| == |es.Keys|;
  }

  lemma RemoveSize(es: Entries, key: string)
    ensures |es - {key}| == if key in es then |es| - 1 else |es|
  {
    assert |es| == |es.Keys| && |es - {key}| == |(es - {key}).Keys|;
    assert (es - {key}).Keys == es.Keys - {key};
  }

  lemma UpdateSize(es: Entries, key: string, entry: CacheEntry)
    ensures |es[key := entry]| == if key in es then |es| else |es| + 1
  {
    assert |es| == |es.Keys| && |es[key := entry]| == |es[key := entry].Keys|;
    assert es[key := entry].Keys == es.Keys + {key};
  }

  lemma RoomSize(es: Entries, max: nat, victim: string)
    requires |es| <= Bound(max) && MayEvict(es, Some(max), victim)
    ensures |Evict(es, Some(max), victim)| < Bound(max)
  {
    RemoveSize(es, victim);
  }

  lemma SetSize(s: State, op: Operation, max: nat)
    requires op.Set? && |s.entries| <= Bound(max) && Valid(s, op, Some(max))
    ensures |SetResult(s, op, Some(max)).0.entries| <= Bound(max)
  {
    var clean := Cleanup(s.entries, op.cleanAt);
    CleanupSize(s.entries, op.cleanAt);
    RoomSize(clean, max, op.victim);
    hide Cleanup, Evict, MayEvict;
    if op.data.Some? {
      UpdateSize(Evict(clean, Some(max), op.victim), op.key, CacheEntry.New(op.data.value, op.ttl, op.createAt));
    }
  }

  lemma GetSize(s: State, op: Operation)
    requires op.Get?
    ensures |GetResult(s, op).0.entries| <= |s.entries|
  {
    var clean := Cleanup(s.entries, op.cleanAt);
    CleanupSize(s.entries, op.cleanAt);
    RemoveSize(clean, op.key);
    if op.key in clean {
      UpdateSize(clean, op.key, clean[op.key].MarkAccessed(op.touchAt));
    }
  }

  lemma ApplySize(s: State, op: Operation, max: nat)
    requires |s.entries| <= Bound(max) && Valid(s, op, Some(max))
    ensures |Apply(s, op, Some(max)).0.entries| <= Bound(max)
  {
    hide SetResult, GetResult, Cleanup;
    if op.Set? {
      SetSize(s, op, max);
    } else if op.Get? {
      GetSize(s, op);
    } else if op.Delete? {
      RemoveSize(s.entries, op.key);
    } else if op.Expire? {
      if op.key in s.entries {
        UpdateSize(s.entries, op.key, s.entries[op.key].(expiresAt := Some(Deadline(op.expireAt, op.ttlSeconds))));
      }
    } else {
      CleanupSize(s.entries, Start(op));
    }
  }

  /** A cache bounded by `max` never holds more than `max` entries (one, when `max` is zero). */
  lemma {:induction false} NeverOverCapacity(ops: seq<Operation>, max: nat)
    requires ValidRun(ops, Some(max))
    ensures |Now(ops, Some(max)).entries| <= Bound(max)
  {
    hide Apply, Valid;
    if ops == [] {
    } else {
      ValidPrefix(ops, Some(max), |ops| - 1);
      NeverOverCapacity(ops[..|ops| - 1], max);
      ApplySize(Now(ops[..|ops| - 1], Some(max)), ops[|ops| - 1], max);
    }
  }

  // ----- The counters

  datatype Counts = Counts(hits: nat, misses: nat, sets: nat, deletes: nat)

  /** The tally after one more answer. */
  function Counted(t: Counts, op: Operation, answer: Answer): Counts {
    if op.Clear? then Counts(0, 0, 0, 0)
    else if op.Get? && answer.Value? then
      if answer.data.Some? then t.(hits := t.hits + 1) else t.(misses := t.misses + 1)
    else if op.Set? && answer.Done? then t.(sets := t.sets + 1)
    else if op.Delete? && answer == Flag(true) then t.(deletes := t.deletes + 1)
    else t
  }

  /** What the answers since the last clear add up to, by kind. */
  function Tally(ops: seq<Operation>, max: Option<nat>): Counts {
    if ops == [] then Counts(0, 0, 0, 0)
    else
      Counted(Tally(ops[..|ops| - 1], max), ops[|ops| - 1], AnswerAt(EMPTY, ops, |ops| - 1, max))
  }

  ghost predicate Tallied(stats: CacheStats, t: Counts) {
    && stats.hits == t.hits && stats.misses == t.misses && stats.sets == t.sets && stats.deletes == t.deletes
    && stats.hitRate == HitRate(t.hits, t.misses)
  }

  lemma RecordsCounted(stats: CacheStats, t: Counts, n: nat)
    requires Tallied(stats, t)
    ensures Tallied(stats.RecordHit(), t.(hits := t.hits + 1))
    ensures Tallied(stats.RecordMiss(), t.(misses := t.misses + 1))
    ensures Tallied(stats.RecordMiss().(totalEntries := n), t.(misses := t.misses + 1))
  {
  }

  lemma GetStats(s: State, op: Operation) returns (n: nat)
    requires op.Get?
    ensures var (s', answer) := GetResult(s, op);
            || (answer.Failed? && s'.stats == s.stats)
            || (answer.Value? && answer.data.Some? && s'.stats == s.stats.RecordHit())
            || (answer == Value(None) && s'.stats == s.stats.RecordMiss())
            || (answer == Value(None) && s'.stats == s.stats.RecordMiss().(totalEntries := n))
  {
    n := |Cleanup(s.entries, op.cleanAt) - {op.key}|;
    hide Cleanup;
  }

  lemma GetCounts(s: State, op: Operation, t: Counts)
    requires op.Get? && Tallied(s.stats, t)
    ensures var (s', answer) := GetResult(s, op); Tallied(s'.stats, Counted(t, op, answer))
  {
    var n := GetStats(s, op);
    RecordsCounted(s.stats, t, n);
    hide GetResult, Tallied;
  }

  lemma ApplyCounts(s: State, op: Operation, max: Option<nat>, t: Counts)
    requires Tallied(s.stats, t)
    ensures var (s', answer) := Apply(s, op, max); Tallied(s'.stats, Counted(t, op, answer))
  {
    hide Cleanup, Evict, GetResult;
    if op.Get? {
      GetCounts(s, op, t);
    }
  }

  /**
   Over every run, the counters are the answers given since the last clear, each counted once, and
   the stored hit rate is the share of hits among them.
   */
  lemma {:induction false} CountersTallyAnswers(ops: seq<Operation>, max: Option<nat>)
    ensures Tallied(Now(ops, max).stats, Tally(ops, max))
  {
    hide Apply;
    if ops == [] {
    } else {
      CountersTallyAnswers(ops[..|ops| - 1], max);
      ApplyCounts(Now(ops[..|ops| - 1], max), ops[|ops| - 1], max, Tally(ops[..|ops| - 1], max));
    }
  }
}
