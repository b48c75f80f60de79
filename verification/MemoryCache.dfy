/** The in-memory cache: entries with deadlines, cleanup, least-recently-used eviction and counters. */
module MemoryCache {
  import opened Wrappers
  import opened Basics

  datatype CacheEntry = CacheEntry(
    data: Bytes, createdAt: int, expiresAt: Option<int>, accessCount: nat, lastAccessed: Option<int>
  )
  {
    static function New(data: Bytes, ttlSeconds: Option<nat>, now: int): CacheEntry {
      CacheEntry(data, now, if ttlSeconds.Some? then Some(Deadline(now, ttlSeconds.value)) else None, 0, None)
    }

    predicate IsExpired(now: int) {
      expiresAt.Some? && now > expiresAt.value
    }

    function MarkAccessed(now: int): CacheEntry {
      this.(accessCount := accessCount + 1, lastAccessed := Some(now))
    }

    /** What eviction compares: the last access, or the insertion of an entry never accessed. */
    function Recency(): int {
      if lastAccessed.Some? then lastAccessed.value else createdAt
    }
  }

  function Deadline(now: int, ttlSeconds: nat): int {
    now + ttlSeconds * SECOND
  }

  datatype CacheStats = CacheStats(
    totalEntries: nat, expiredEntries: nat, memoryUsage: Option<nat>, hitRate: real,
    hits: nat, misses: nat, sets: nat, deletes: nat
  )
  {
    function UpdateHitRate(): CacheStats {
      if hits + misses == 0 then this else this.(hitRate := hits as real / (hits + misses) as real)
    }

    function RecordHit(): CacheStats {
      this.(hits := hits + 1).UpdateHitRate()
    }

    function RecordMiss(): CacheStats {
      this.(misses := misses + 1).UpdateHitRate()
    }
  }

  const NO_STATS := CacheStats(0, 0, None, 0.0, 0, 0, 0, 0)

  datatype CacheError = SerializationError | DeserializationError

  type Entries = map<string, CacheEntry>

  // ----- The protected steps

  function Expired(es: Entries, now: int): set<string> {
    set k | k in es && es[k].IsExpired(now)
  }

  function Cleanup(es: Entries, now: int): (kept: Entries)
    ensures forall k :: k in kept <==> k in es && !es[k].IsExpired(now)
    ensures forall k | k in kept :: kept[k] == es[k]
  {
    es - Expired(es, now)
  }

  predicate IsLru(es: Entries, k: string) {
    k in es && forall j | j in es :: es[k].Recency() <= es[j].Recency()
  }

  /** Whether `evict_if_needed` removes an entry. */
  predicate NeedsEviction(es: Entries, max: Option<nat>) {
    max.Some? && |es| >= max.value && es != map[]
  }

  function Evict(es: Entries, max: Option<nat>, victim: string): Entries {
    if NeedsEviction(es, max) then es - {victim} else es
  }

  /** Ties are broken by the hash map's order, so any least recently used key may be the victim. */
  predicate MayEvict(es: Entries, max: Option<nat>, victim: string) {
    NeedsEviction(es, max) ==> IsLru(es, victim)
  }

  // ----- The operations, with the clock readings each makes

  datatype Operation =
    | Set(key: string, data: Option<Bytes>, ttl: Option<nat>, victim: string, cleanAt: int, createAt: int)
    | Get(key: string, decodable: Bytes -> bool, cleanAt: int, checkAt: int, touchAt: int)
    | Delete(key: string, deleteAt: int)
    | Exists(key: string, cleanAt: int, checkAt: int)
    | Expire(key: string, ttlSeconds: nat, expireAt: int)
    | Ttl(key: string, cleanAt: int, readAt: int)
    | Clear(clearAt: int)
    | Stats(cleanAt: int)
    | CleanupExpired(cleanAt: int)

  datatype Answer =
    | Done
    | Failed(error: CacheError)
    | Value(data: Option<Bytes>)
    | Flag(b: bool)
    | Remaining(seconds: Option<nat>)
    | Counters(stats: CacheStats)

  datatype State = State(entries: Entries, stats: CacheStats)

  const EMPTY := State(map[], NO_STATS)

  /** The whole seconds left, never below zero. */
  function SecondsLeft(deadline: int, now: int): nat {
    if deadline - now >= SECOND then (deadline - now) / SECOND else 0
  }

  function SetResult(s: State, op: Operation, max: Option<nat>): (State, Answer)
    requires op.Set?
  {
    var room := Evict(Cleanup(s.entries, op.cleanAt), max, op.victim);
    if op.data.None? then
      (s.(entries := room), Failed(SerializationError))
    else
      var es := room[op.key := CacheEntry.New(op.data.value, op.ttl, op.createAt)];
      (State(es, s.stats.(sets := s.stats.sets + 1, totalEntries := |es|)), Done)
  }

  function GetResult(s: State, op: Operation): (State, Answer)
    requires op.Get?
  {
    var es := Cleanup(s.entries, op.cleanAt);
    if op.key !in es then
      (State(es, s.stats.RecordMiss()), Value(None))
    else
      var entry := es[op.key];
      if entry.IsExpired(op.checkAt) then
        var rest := es - {op.key};
        (State(rest, s.stats.RecordMiss().(totalEntries := |rest|)), Value(None))
      else if !op.decodable(entry.data) then
        (s.(entries := es), Failed(DeserializationError))
      else
        (State(es[op.key := entry.MarkAccessed(op.touchAt)], s.stats.RecordHit()),
         Value(Some(entry.data)))
  }

  function DeleteResult(s: State, op: Operation): (State, Answer)
    requires op.Delete?
  {
    if op.key !in s.entries then (s, Flag(false))
    else
      var es := s.entries - {op.key};
      (State(es, s.stats.(deletes := s.stats.deletes + 1, totalEntries := |es|)), Flag(true))
  }

  function ExpireResult(s: State, op: Operation): (State, Answer)
    requires op.Expire?
  {
    if op.key !in s.entries then (s, Flag(false))
    else
      var entry := s.entries[op.key].(expiresAt := Some(Deadline(op.expireAt, op.ttlSeconds)));
      (s.(entries := s.entries[op.key := entry]), Flag(true))
  }

  function TtlAnswer(es: Entries, key: string, now: int): Option<nat> {
    if key !in es || es[key].expiresAt.None? then None else Some(SecondsLeft(es[key].expiresAt.value, now))
  }

  /** One operation on the cache. */
  function Apply(s: State, op: Operation, max: Option<nat>): (State, Answer) {
    match op
    case Set(_, _, _, _, _, _) => SetResult(s, op, max)
    case Get(_, _, _, _, _) => GetResult(s, op)
    case Delete(_, _) => DeleteResult(s, op)
    case Exists(key, cleanAt, checkAt) =>
      var es := Cleanup(s.entries, cleanAt);
      (s.(entries := es), Flag(key in es && !es[key].IsExpired(checkAt)))
    case Expire(_, _, _) => ExpireResult(s, op)
    case Ttl(key, cleanAt, readAt) =>
      var es := Cleanup(s.entries, cleanAt);
      (s.(entries := es), Remaining(TtlAnswer(es, key, readAt)))
    case Clear(_) => (EMPTY, Done)
    case Stats(cleanAt) =>
      var es := Cleanup(s.entries, cleanAt);
      (s.(entries := es), Counters(s.stats.(totalEntries := |es|, expiredEntries := 0, memoryUsage := None)))
    case CleanupExpired(cleanAt) => (s.(entries := Cleanup(s.entries, cleanAt)), Done)
  }

  /** The victim a `Set` removes is one eviction may pick. */
  predicate Valid(s: State, op: Operation, max: Option<nat>) {
    op.Set? ==> MayEvict(Cleanup(s.entries, op.cleanAt), max, op.victim)
  }

  // ----- Runs

  /** The state after operations in order. */
  function RunFrom(s: State, ops: seq<Operation>, max: Option<nat>): State {
    if ops == [] then s else Apply(RunFrom(s, ops[..|ops| - 1], max), ops[|ops| - 1], max).0
  }

  /** What the `i`-th operation of a run answers. */
  function AnswerAt(s: State, ops: seq<Operation>, i: nat, max: Option<nat>): Answer
    requires i < |ops|
  {
    Apply(RunFrom(s, ops[..i], max), ops[i], max).1
  }

  lemma RunSnoc(s: State, ops: seq<Operation>, i: nat, max: Option<nat>)
    requires i < |ops|
    ensures RunFrom(s, ops[..i + 1], max) == Apply(RunFrom(s, ops[..i], max), ops[i], max).0
  {
    assert ops[..i + 1][..i] == ops[..i];
  }

  lemma RunEmpty(s: State, ops: seq<Operation>, max: Option<nat>)
    ensures RunFrom(s, ops[..0], max) == s
  {
  }

  lemma GetSnoc(s: State, ops: seq<Operation>, i: nat, max: Option<nat>)
    requires i < |ops| && ops[i].Get?
    ensures RunFrom(s, ops[..i + 1], max) == GetResult(RunFrom(s, ops[..i], max), ops[i]).0
    ensures AnswerAt(s, ops, i, max) == GetResult(RunFrom(s, ops[..i], max), ops[i]).1
  {
    RunSnoc(s, ops, i, max);
  }

  lemma RunAppendSet(s: State, ops: seq<Operation>, op: Operation, max: Option<nat>)
    requires op.Set?
    ensures RunFrom(s, ops + [op], max) == SetResult(RunFrom(s, ops, max), op, max).0
  {
    assert (ops + [op])[..|ops|] == ops;
  }

  /** The cache itself. Each method takes the clock readings its body makes. */
  class MemoryCache {
    var entries: Entries
    var stats: CacheStats
    const maxEntries: Option<nat>

    ghost function Contents(): State
      reads this
    {
      State(entries, stats)
    }

    constructor (maxEntries: Option<nat>)
      ensures Contents() == EMPTY && this.maxEntries == maxEntries
    {
      entries, stats := map[], NO_STATS;
      this.maxEntries := maxEntries;
    }

    method CleanupExpired(now: int)
      modifies this`entries
      ensures entries == Cleanup(old(entries), now)
    {
      var expired := set k | k in entries && entries[k].IsExpired(now);
      entries := entries - expired;
    }

    method EvictIfNeeded() returns (ghost victim: string)
      modifies this`entries
      ensures MayEvict(old(entries), maxEntries, victim)
      ensures entries == Evict(old(entries), maxEntries, victim)
    {
      victim := "";
      if maxEntries.None? || |entries| < maxEntries.value || entries == map[] {
        return;
      }
      var key :| key in entries;
      var rest := entries.Keys - {key};
      while rest != {}
        invariant rest <= entries.Keys && key in entries && key !in rest
        invariant forall j | j in entries && j !in rest :: entries[key].Recency() <= entries[j].Recency()
      {
        var j :| j in rest;
        rest := rest - {j};
        if entries[j].Recency() < entries[key].Recency() {
          key := j;
        }
      }
      victim := key;
      entries := entries - {key};
    }

    method Set(key: string, data: Option<Bytes>, ttl: Option<nat>, cleanAt: int, createAt: int)
      returns (r: Result<(), CacheError>, ghost victim: string)
      modifies this
      ensures r.Ok? <==> data.Some?
      ensures var op := Operation.Set(key, data, ttl, victim, cleanAt, createAt);
              && Valid(old(Contents()), op, maxEntries)
              && (Contents(), if r.Ok? then Done else Failed(r.error)) == SetResult(old(Contents()), op, maxEntries)
      ensures r.Ok? ==>
                var expiresAt := if ttl.Some? then Some(createAt + ttl.value * SECOND) else None;
                key in entries && entries[key] == CacheEntry(data.value, createAt, expiresAt, 0, None)
    {
      CleanupExpired(cleanAt);
      victim := EvictIfNeeded();
      if data.None? {
        return Err(SerializationError), victim;
      }
      entries := entries[key := CacheEntry.New(data.value, ttl, createAt)];
      stats := stats.(sets := stats.sets + 1);
      stats := stats.(totalEntries := |entries|);
      r := Ok(());
    }

    method Get(key: string, decodable: Bytes -> bool, cleanAt: int, checkAt: int, touchAt: int)
      returns (r: Result<Option<Bytes>, CacheError>)
      modifies this
      ensures (Contents(), if r.Ok? then Value(r.value) else Failed(r.error)) ==
              GetResult(old(Contents()), Operation.Get(key, decodable, cleanAt, checkAt, touchAt))
      ensures r.Ok? && r.value.Some? ==>
                && key in old(entries) && key in entries && r.value.value == old(entries)[key].data
                && entries[key] == old(entries)[key].(accessCount := old(entries)[key].accessCount + 1,
                                                      lastAccessed := Some(touchAt))
    {
      CleanupExpired(cleanAt);
      if key !in entries {
        stats := stats.RecordMiss();
        return Ok(None);
      }
      var cacheEntry := entries[key];
      if cacheEntry.IsExpired(checkAt) {
        entries := entries - {key};
        stats := stats.RecordMiss();
        stats := stats.(totalEntries := |entries|);
        return Ok(None);
      }
      cacheEntry := cacheEntry.MarkAccessed(touchAt);
      if !decodable(cacheEntry.data) {
        return Err(DeserializationError);
      }
      entries := entries[key := cacheEntry];
      stats := stats.RecordHit();
      r := Ok(Some(cacheEntry.data));
    }

    method Delete(key: string, ghost deleteAt: int) returns (removed: bool)
      modifies this
      ensures (Contents(), Flag(removed)) == DeleteResult(old(Contents()), Operation.Delete(key, deleteAt))
    {
      removed := key in entries;
      if removed {
        entries := entries - {key};
        stats := stats.(deletes := stats.deletes + 1);
        stats := stats.(totalEntries := |entries|);
      }
    }

    method Exists(key: string, cleanAt: int, checkAt: int) returns (found: bool)
      modifies this
      ensures (Contents(), Flag(found)) == Apply(old(Contents()), Operation.Exists(key, cleanAt, checkAt), maxEntries)
    {
      CleanupExpired(cleanAt);
      found := key in entries && !entries[key].IsExpired(checkAt);
    }

    method Expire(key: string, ttlSeconds: nat, expireAt: int) returns (found: bool)
      modifies this
      ensures (Contents(), Flag(found)) == ExpireResult(old(Contents()), Operation.Expire(key, ttlSeconds, expireAt))
      ensures found <==> key in old(entries)
      ensures var deadline := Some(expireAt + ttlSeconds * SECOND);
              entries == if found then old(entries)[key := old(entries)[key].(expiresAt := deadline)] else old(entries)
    {
      if key !in entries {
        return false;
      }
      entries := entries[key := entries[key].(expiresAt := Some(Deadline(expireAt, ttlSeconds)))];
      found := true;
    }

    method Ttl(key: string, cleanAt: int, readAt: int) returns (seconds: Option<nat>)
      modifies this
      ensures (Contents(), Remaining(seconds)) == Apply(old(Contents()), Operation.Ttl(key, cleanAt, readAt), maxEntries)
      ensures seconds.Some? <==> key in entries && entries[key].expiresAt.Some?
      ensures seconds.Some? ==>
                var left := entries[key].expiresAt.value - readAt;
                if left < 0 then seconds.value == 0
                else seconds.value * SECOND <= left < (seconds.value + 1) * SECOND
    {
      CleanupExpired(cleanAt);
      if key !in entries || entries[key].expiresAt.None? {
        return None;
      }
      var left := entries[key].expiresAt.value - readAt;
      if left >= SECOND {
        return Some(left / SECOND);
      }
      return Some(0);
    }

    method Clear(ghost clearAt: int)
      modifies this
      ensures (Contents(), Done) == Apply(old(Contents()), Operation.Clear(clearAt), maxEntries)
    {
      entries, stats := map[], NO_STATS;
    }

    method Stats(cleanAt: int) returns (counters: CacheStats)
      modifies this
      ensures (Contents(), Counters(counters)) == Apply(old(Contents()), Operation.Stats(cleanAt), maxEntries)
    {
      CleanupExpired(cleanAt);
      counters := stats.(totalEntries := |entries|, expiredEntries := 0, memoryUsage := None);
    }

    /** Gets every key in turn, stopping at the first that cannot be decoded. */
    method MGet(gets: seq<Operation>)
      returns (r: Result<seq<(string, Option<Bytes>)>, CacheError>, ghost done: nat)
      requires forall g | g in gets :: g.Get?
      modifies this
      ensures done <= |gets| && Contents() == RunFrom(old(Contents()), gets[..done], maxEntries)
      ensures r.Ok? ==> done == |gets| == |r.value| && forall i | 0 <= i < |gets| ::
                          r.value[i].0 == gets[i].key &&
                          AnswerAt(old(Contents()), gets, i, maxEntries) == Value(r.value[i].1)
      ensures r.Err? ==> 0 < done && AnswerAt(old(Contents()), gets, done - 1, maxEntries) == Failed(r.error)
      ensures r.Err? ==> forall i | 0 <= i < done - 1 :: AnswerAt(old(Contents()), gets, i, maxEntries).Value?
    {
      var results: seq<(string, Option<Bytes>)> := [];
      ghost var s := Contents();
      hide Apply, AnswerAt, RunFrom, GetResult;
      RunEmpty(s, gets, maxEntries);
      for i := 0 to |gets|
        invariant |results| == i && Contents() == RunFrom(s, gets[..i], maxEntries)
        invariant forall j | 0 <= j < i ::
                    results[j].0 == gets[j].key && AnswerAt(s, gets, j, maxEntries) == Value(results[j].1)
      {
        var g := gets[i];
        GetSnoc(s, gets, i, maxEntries);
        var value := Get(g.key, g.decodable, g.cleanAt, g.checkAt, g.touchAt);
        if value.Err? {
          return Err(value.error), i + 1;
        }
        results := results + [(g.key, value.value)];
      }
      r, done := Ok(results), |gets|;
      assert gets[..|gets|] == gets;
    }

    /** Sets every key in turn, stopping at the first value that cannot be serialized. */
    method MSet(items: seq<(string, Option<Bytes>, Option<nat>)>, times: seq<(int, int)>)
      returns (r: Result<(), CacheError>, ghost sets: seq<Operation>)
      requires |times| == |items|
      modifies this
      ensures |sets| <= |items| && (r.Ok? <==> forall i | 0 <= i < |items| :: items[i].1.Some?)
      ensures forall i | 0 <= i < |sets| ::
                && sets[i].Set? && sets[i].key == items[i].0 && sets[i].data == items[i].1 && sets[i].ttl == items[i].2
                && sets[i].cleanAt == times[i].0 && sets[i].createAt == times[i].1
      ensures r.Ok? ==> |sets| == |items|
      ensures r.Err? ==> sets != [] && forall i | 0 <= i < |sets| :: sets[i].Set? && (sets[i].data.Some? <==> i < |sets| - 1)
      ensures Contents() == RunFrom(old(Contents()), sets, maxEntries)
    {
      ghost var s := Contents();
      hide SetResult;
      sets := [];
      for i := 0 to |items|
        invariant |sets| == i
        invariant forall j | 0 <= j < i ::
                    && items[j].1.Some?
                    && sets[j].Set? && sets[j].key == items[j].0 && sets[j].data == items[j].1 && sets[j].ttl == items[j].2
                    && sets[j].cleanAt == times[j].0 && sets[j].createAt == times[j].1
        invariant Contents() == RunFrom(s, sets, maxEntries)
      {
        var result, victim := Set(items[i].0, items[i].1, items[i].2, times[i].0, times[i].1);
        ghost var op := Operation.Set(items[i].0, items[i].1, items[i].2, victim, times[i].0, times[i].1);
        RunAppendSet(s, sets, op, maxEntries);
        sets := sets + [op];
        if result.Err? {
          return result, sets;
        }
      }
      r := Ok(());
    }

    /** Deletes every key in turn and counts those present. */
    method MDelete(keys: seq<string>, ghost deleteAt: int) returns (deletedCount: nat)
      modifies this
      ensures (Contents(), deletedCount) == DeletedBy(old(Contents()), keys, deleteAt)
    {
      ghost var s := Contents();
      deletedCount := 0;
      assert keys[..0] == [];
      hide DeleteResult;
      for i := 0 to |keys|
        invariant Contents() == DeletedBy(s, keys[..i], deleteAt).0
        invariant deletedCount == DeletedBy(s, keys[..i], deleteAt).1
      {
        DeletedBySnoc(s, keys, i, deleteAt);
        var removed := Delete(keys[i], deleteAt);
        if removed {
          deletedCount := deletedCount + 1;
        }
      }
      assert keys[..|keys|] == keys;
    }
  }

  /** Deleting keys in order, counting those present. */
  function DeletedBy(s: State, keys: seq<string>, deleteAt: int): (State, nat) {
    if keys == [] then (s, 0)
    else
      var (s1, count) := DeletedBy(s, keys[..|keys| - 1], deleteAt);
      var (s2, answer) := DeleteResult(s1, Delete(keys[|keys| - 1], deleteAt));
      (s2, if answer == Flag(true) then count + 1 else count)
  }

  lemma DeletedBySnoc(s: State, keys: seq<string>, i: nat, deleteAt: int)
    requires i < |keys|
    ensures DeletedBy(s, keys[..i + 1], deleteAt) ==
            var (s1, count) := DeletedBy(s, keys[..i], deleteAt);
            var (s2, answer) := DeleteResult(s1, Delete(keys[i], deleteAt));
            (s2, if answer == Flag(true) then count + 1 else count)
  {
    hide DeleteResult;
    assert keys[..i + 1][..i] == keys[..i];
  }

  /** A batch delete removes exactly its keys and counts the distinct ones that were present. */
  lemma {:induction false} DeletedByMeaning(s: State, keys: seq<string>, deleteAt: int)
    ensures var (s', count) := DeletedBy(s, keys, deleteAt);
            DeletedSoFar(s, KeySet(keys), count, s')
  {
    hide DeleteResult, DeletedSoFar;
    if keys == [] {
      NothingDeleted(s);
    } else {
      var rest, last := keys[..|keys| - 1], keys[|keys| - 1];
      var (s1, count) := DeletedBy(s, rest, deleteAt);
      DeletedByMeaning(s, rest, deleteAt);
      DeleteOneMore(s, KeySet(rest), count, s1, Delete(last, deleteAt));
    }
  }

  lemma NothingDeleted(s: State)
    ensures DeletedSoFar(s, {}, 0, s)
  {
    assert s.entries - {} == s.entries && s.entries.Keys * {} == {};
  }

  /** `s` is `start` with the keys in `gone` deleted, `count` of which were present. */
  ghost predicate DeletedSoFar(start: State, gone: set<string>, count: nat, s: State) {
    && s.entries == start.entries - gone
    && count == |start.entries.Keys * gone|
    && s.stats.deletes == start.stats.deletes + count
  }

  lemma DeleteOneMore(start: State, gone: set<string>, count: nat, s: State, op: Operation)
    requires op.Delete? && DeletedSoFar(start, gone, count, s)
    ensures var (s', answer) := DeleteResult(s, op);
            DeletedSoFar(start, gone + {op.key}, if answer == Flag(true) then count + 1 else count, s')
  {
    RemoveOneMore(start.entries, gone, op.key);
    AbsentStays(s.entries, op.key);
    assert DeleteResult(s, op).0.entries == s.entries - {op.key};
  }

  lemma AbsentStays(es: Entries, key: string)
    ensures key !in es ==> es - {key} == es
  {
  }

  function KeySet(keys: seq<string>): set<string> {
    if keys == [] then {} else KeySet(keys[..|keys| - 1]) + {keys[|keys| - 1]}
  }

  lemma RemoveOneMore(es: Entries, gone: set<string>, key: string)
    ensures es - gone - {key} == es - (gone + {key})
    ensures |es.Keys * (gone + {key})| == |es.Keys * gone| + if key in es - gone then 1 else 0
  {
    InOneMore(es.Keys, gone, key);
  }

  lemma InOneMore(keys: set<string>, gone: set<string>, key: string)
    ensures |keys * (gone + {key})| == |keys * gone| + if key in keys - gone then 1 else 0
  {
    if key in keys - gone {
      assert keys * (gone + {key}) == keys * gone + {key};
    } else {
      assert keys * (gone + {key}) == keys * gone;
    }
  }
}
