/** The unbounded cache against a plain map with deadlines that never cleans up. */
module CacheRefinement {
  import opened Wrappers
  import opened Basics
  import opened MemoryCache

  // ----- The plain map

  datatype PlainEntry = PlainEntry(data: Bytes, deadline: Option<int>)

  /** Entries are never removed for being late: lateness is tested on lookup. */
  datatype Plain = Plain(m: map<string, PlainEntry>, hits: nat, misses: nat, sets: nat, deletes: nat)

  const NO_PLAIN := Plain(map[], 0, 0, 0, 0)

  function HitRate(hits: nat, misses: nat): real {
    if hits + misses == 0 then 0.0 else hits as real / (hits + misses) as real
  }

  predicate Live(m: map<string, PlainEntry>, key: string, now: int) {
    key in m && !(m[key].deadline.Some? && now > m[key].deadline.value)
  }

  function LiveKeys(m: map<string, PlainEntry>, now: int): set<string> {
    set k | k in m && Live(m, k, now)
  }

  function PlainTtl(m: map<string, PlainEntry>, key: string, presentAt: int, readAt: int): Option<nat> {
    if !Live(m, key, presentAt) || m[key].deadline.None? then None
    else if m[key].deadline.value <= readAt then Some(0)
    else Some((m[key].deadline.value - readAt) / SECOND)
  }

  function PlainApply(p: Plain, op: Operation): (Plain, Answer) {
    match op
    case Set(key, data, ttl, _, _, createAt) =>
      if data.None? then (p, Failed(SerializationError))
      else
        var deadline := if ttl.Some? then Some(createAt + ttl.value * SECOND) else None;
        (p.(m := p.m[key := PlainEntry(data.value, deadline)], sets := p.sets + 1), Done)
    case Get(key, decodable, _, checkAt, _) =>
      if !Live(p.m, key, checkAt) then (p.(misses := p.misses + 1), Value(None))
      else if !decodable(p.m[key].data) then (p, Failed(DeserializationError))
      else (p.(hits := p.hits + 1), Value(Some(p.m[key].data)))
    case Delete(key, deleteAt) =>
      if !Live(p.m, key, deleteAt) then (p, Flag(false))
      else (p.(m := p.m - {key}, deletes := p.deletes + 1), Flag(true))
    case Exists(key, _, checkAt) => (p, Flag(Live(p.m, key, checkAt)))
    case Expire(key, ttlSeconds, expireAt) =>
      if !Live(p.m, key, expireAt) then (p, Flag(false))
      else (p.(m := p.m[key := PlainEntry(p.m[key].data, Some(expireAt + ttlSeconds * SECOND))]), Flag(true))
    case Ttl(key, cleanAt, readAt) => (p, Remaining(PlainTtl(p.m, key, cleanAt, readAt)))
    case Clear(_) => (NO_PLAIN, Done)
    case Stats(cleanAt) =>
      var live := |LiveKeys(p.m, cleanAt)|;
      (p, Counters(CacheStats(live, 0, None, HitRate(p.hits, p.misses), p.hits, p.misses, p.sets, p.deletes)))
    case CleanupExpired(_) => (p, Done)
  }

  function PlainAfter(ops: seq<Operation>): Plain {
    if ops == [] then NO_PLAIN else PlainApply(PlainAfter(ops[..|ops| - 1]), ops[|ops| - 1]).0
  }

  function PlainAnswer(ops: seq<Operation>, i: nat): Answer
    requires i < |ops|
  {
    PlainApply(PlainAfter(ops[..i]), ops[i]).1
  }

  // ----- The clock

  function Start(op: Operation): int {
    match op
    case Set(_, _, _, _, cleanAt, _) => cleanAt
    case Get(_, _, cleanAt, _, _) => cleanAt
    case Delete(_, deleteAt) => deleteAt
    case Exists(_, cleanAt, _) => cleanAt
    case Expire(_, _, expireAt) => expireAt
    case Ttl(_, cleanAt, _) => cleanAt
    case Clear(clearAt) => clearAt
    case Stats(cleanAt) => cleanAt
    case CleanupExpired(cleanAt) => cleanAt
  }

  function End(op: Operation): int {
    match op
    case Set(_, _, _, _, _, createAt) => createAt
    case Get(_, _, _, _, touchAt) => touchAt
    case Exists(_, _, checkAt) => checkAt
    case Ttl(_, _, readAt) => readAt
    case _ => Start(op)
  }

  predicate Ticking(op: Operation) {
    Start(op) <= End(op) && (op.Get? ==> op.cleanAt <= op.checkAt <= op.touchAt)
  }

  /** Clock readings never go back, within and between operations. */
  ghost predicate Ordered(ops: seq<Operation>) {
    && (forall i | 0 <= i < |ops| :: Ticking(ops[i]))
    && (forall i, j | 0 <= i < j < |ops| :: End(ops[i]) <= Start(ops[j]))
  }

  // ----- One operation

  /** The cache and the plain map hold the same live entries at `now`, and so at any later moment. */
  ghost predicate EntriesAgree(es: Entries, m: map<string, PlainEntry>, now: int) {
    && (forall k :: k in es && !es[k].IsExpired(now) <==> Live(m, k, now))
    && (forall k | k in es && !es[k].IsExpired(now) :: m[k] == PlainEntry(es[k].data, es[k].expiresAt))
  }

  /** They hold the same live entries and count alike. */
  ghost predicate Agree(s: State, p: Plain, now: int) {
    EntriesAgree(s.entries, p.m, now) && CountsAgree(s.stats, p)
  }

  predicate CountsAgree(stats: CacheStats, p: Plain) {
    && stats.hits == p.hits && stats.misses == p.misses && stats.sets == p.sets && stats.deletes == p.deletes
    && stats.hitRate == HitRate(p.hits, p.misses)
  }

  /** The operation reaches an entry that has expired but has not been cleaned up yet. */
  predicate HitsLeftover(s: State, op: Operation) {
    || (op.Delete? && op.key in s.entries && s.entries[op.key].IsExpired(op.deleteAt))
    || (op.Expire? && op.key in s.entries && s.entries[op.key].IsExpired(op.expireAt))
  }

  lemma AgreeLater(s: State, p: Plain, now: int, later: int)
    requires Agree(s, p, now) && now <= later
    ensures Agree(s, p, later)
  {
    forall k
      ensures k in s.entries && !s.entries[k].IsExpired(later) <==> Live(p.m, k, later)
    {
      assert k in s.entries && !s.entries[k].IsExpired(now) <==> Live(p.m, k, now);
    }
  }

  lemma CleanupAgrees(s: State, p: Plain, now: int, cleanAt: int)
    requires Agree(s, p, now) && now <= cleanAt
    ensures Agree(s.(entries := Cleanup(s.entries, cleanAt)), p, cleanAt)
    ensures Cleanup(s.entries, cleanAt).Keys == LiveKeys(p.m, cleanAt)
  {
    AgreeLater(s, p, now, cleanAt);
  }

  lemma InsertAgrees(es: Entries, m: map<string, PlainEntry>, now: int, key: string, entry: CacheEntry)
    requires EntriesAgree(es, m, now)
    ensures EntriesAgree(es[key := entry], m[key := PlainEntry(entry.data, entry.expiresAt)], now)
  {
  }

  /** What a set stores, in the cache and in the plain map. */
  lemma SetStores(s: State, p: Plain, op: Operation)
    requires op.Set? && op.data.Some?
    ensures var (s', answer) := SetResult(s, op, None); var (p', expected) := PlainApply(p, op);
            var entry := CacheEntry.New(op.data.value, op.ttl, op.createAt);
            && answer == expected == Done
            && s'.entries == Cleanup(s.entries, op.cleanAt)[op.key := entry]
            && p'.m == p.m[op.key := PlainEntry(entry.data, entry.expiresAt)]
            && s'.stats == s.stats.(sets := s.stats.sets + 1, totalEntries := |s'.entries|)
            && p' == p.(m := p'.m, sets := p.sets + 1)
  {
    hide Cleanup;
  }

  lemma SetAgrees(s: State, p: Plain, op: Operation, now: int)
    requires op.Set? && Ticking(op) && now <= Start(op) && Agree(s, p, now)
    ensures var (s', answer) := SetResult(s, op, None); var (p', expected) := PlainApply(p, op);
            answer == expected && Agree(s', p', End(op))
  {
    CleanupAgrees(s, p, now, op.cleanAt);
    AgreeLater(s.(entries := Cleanup(s.entries, op.cleanAt)), p, op.cleanAt, op.createAt);
    hide EntriesAgree, Cleanup, HitRate, CacheEntry.New;
    if op.data.Some? {
      var entry := CacheEntry.New(op.data.value, op.ttl, op.createAt);
      InsertAgrees(Cleanup(s.entries, op.cleanAt), p.m, op.createAt, op.key, entry);
      SetStores(s, p, op);
      hide SetResult, PlainApply;
    }
  }

  lemma DropExpiredAgrees(es: Entries, m: map<string, PlainEntry>, key: string, now: int)
    requires EntriesAgree(es, m, now) && key in es && es[key].IsExpired(now)
    ensures EntriesAgree(es - {key}, m, now) && !Live(m, key, now)
  {
  }

  lemma TouchAgrees(es: Entries, m: map<string, PlainEntry>, key: string, now: int, touchAt: int)
    requires EntriesAgree(es, m, now) && key in es && !es[key].IsExpired(now) && now <= touchAt
    ensures EntriesAgree(es[key := es[key].MarkAccessed(touchAt)], m, now)
    ensures Live(m, key, now) && m[key].data == es[key].data
  {
  }

  lemma RecordsAgree(stats: CacheStats, p: Plain, n: nat)
    requires CountsAgree(stats, p)
    ensures CountsAgree(stats.RecordHit(), p.(hits := p.hits + 1))
    ensures CountsAgree(stats.RecordMiss(), p.(misses := p.misses + 1))
    ensures CountsAgree(stats.RecordMiss().(totalEntries := n), p.(misses := p.misses + 1))
  {
  }

  lemma GetAbsentAgrees(s: State, p: Plain, op: Operation)
    requires op.Get? && var es := Cleanup(s.entries, op.cleanAt); op.key !in es && EntriesAgree(es, p.m, op.checkAt)
    requires CountsAgree(s.stats, p)
    ensures var (s', answer) := GetResult(s, op); var (p', expected) := PlainApply(p, op);
            answer == expected && Agree(s', p', op.checkAt)
  {
    assert !Live(p.m, op.key, op.checkAt);
    RecordsAgree(s.stats, p, 0);
    hide EntriesAgree, CountsAgree, Cleanup, Live;
  }

  lemma GetLateAgrees(s: State, p: Plain, op: Operation)
    requires op.Get? && var es := Cleanup(s.entries, op.cleanAt);
             op.key in es && es[op.key].IsExpired(op.checkAt) && EntriesAgree(es, p.m, op.checkAt)
    requires CountsAgree(s.stats, p)
    ensures var (s', answer) := GetResult(s, op); var (p', expected) := PlainApply(p, op);
            answer == expected && Agree(s', p', op.checkAt)
  {
    var es := Cleanup(s.entries, op.cleanAt);
    DropExpiredAgrees(es, p.m, op.key, op.checkAt);
    RecordsAgree(s.stats, p, |es - {op.key}|);
    hide EntriesAgree, CountsAgree, Cleanup, Live;
  }

  lemma GetFoundAgrees(s: State, p: Plain, op: Operation)
    requires op.Get? && op.checkAt <= op.touchAt
    requires var es := Cleanup(s.entries, op.cleanAt);
             op.key in es && !es[op.key].IsExpired(op.checkAt) && EntriesAgree(es, p.m, op.checkAt)
    requires CountsAgree(s.stats, p)
    ensures var (s', answer) := GetResult(s, op); var (p', expected) := PlainApply(p, op);
            answer == expected && Agree(s', p', op.checkAt)
  {
    var es := Cleanup(s.entries, op.cleanAt);
    TouchAgrees(es, p.m, op.key, op.checkAt, op.touchAt);
    RecordsAgree(s.stats, p, 0);
    hide EntriesAgree, CountsAgree, Cleanup, Live;
  }

  lemma GetAgrees(s: State, p: Plain, op: Operation, now: int)
    requires op.Get? && Ticking(op) && now <= Start(op) && Agree(s, p, now)
    ensures var (s', answer) := GetResult(s, op); var (p', expected) := PlainApply(p, op);
            answer == expected && Agree(s', p', End(op))
  {
    var es := Cleanup(s.entries, op.cleanAt);
    CleanupAgrees(s, p, now, op.cleanAt);
    AgreeLater(s.(entries := es), p, op.cleanAt, op.checkAt);
    hide EntriesAgree, CountsAgree, Cleanup, GetResult, PlainApply;
    if op.key !in es {
      GetAbsentAgrees(s, p, op);
    } else if es[op.key].IsExpired(op.checkAt) {
      GetLateAgrees(s, p, op);
    } else {
      GetFoundAgrees(s, p, op);
    }
    AgreeLater(GetResult(s, op).0, PlainApply(p, op).0, op.checkAt, op.touchAt);
  }

  lemma DeleteAgrees(s: State, p: Plain, op: Operation, now: int)
    requires op.Delete? && now <= op.deleteAt && Agree(s, p, now)
    ensures var (s', answer) := DeleteResult(s, op); var (p', expected) := PlainApply(p, op);
            (answer == expected <==> !HitsLeftover(s, op)) && (!HitsLeftover(s, op) ==> Agree(s', p', End(op)))
  {
    AgreeLater(s, p, now, op.deleteAt);
    assert op.key in s.entries && !s.entries[op.key].IsExpired(op.deleteAt) <==> Live(p.m, op.key, op.deleteAt);
  }

  lemma ExpireAgrees(s: State, p: Plain, op: Operation, now: int)
    requires op.Expire? && now <= op.expireAt && Agree(s, p, now)
    ensures var (s', answer) := ExpireResult(s, op); var (p', expected) := PlainApply(p, op);
            (answer == expected <==> !HitsLeftover(s, op)) && (!HitsLeftover(s, op) ==> Agree(s', p', End(op)))
  {
    AgreeLater(s, p, now, op.expireAt);
    assert op.key in s.entries && !s.entries[op.key].IsExpired(op.expireAt) <==> Live(p.m, op.key, op.expireAt);
  }

  lemma LookupAgrees(s: State, p: Plain, op: Operation, now: int)
    requires op.Exists? || op.Ttl? || op.Stats? || op.CleanupExpired? || op.Clear?
    requires Ticking(op) && now <= Start(op) && Agree(s, p, now)
    ensures var (s', answer) := Apply(s, op, None); var (p', expected) := PlainApply(p, op);
            answer == expected && Agree(s', p', End(op))
  {
    if !op.Clear? {
      var cleanAt := Start(op);
      CleanupAgrees(s, p, now, cleanAt);
      var clean := s.(entries := Cleanup(s.entries, cleanAt));
      AgreeLater(clean, p, cleanAt, End(op));
      if op.Exists? || op.Ttl? {
        assert op.key in clean.entries && !clean.entries[op.key].IsExpired(cleanAt) <==> Live(p.m, op.key, cleanAt);
        assert op.key in clean.entries && !clean.entries[op.key].IsExpired(End(op)) <==> Live(p.m, op.key, End(op));
      } else if op.Stats? {
        assert |clean.entries| == |clean.entries.Keys|;
      }
    }
  }

  /** Every operation answers as the plain map does, exactly when it does not hit an expired leftover. */
  lemma ApplyAgrees(s: State, p: Plain, op: Operation, now: int)
    requires Ticking(op) && now <= Start(op) && Agree(s, p, now)
    ensures var (s', answer) := Apply(s, op, None); var (p', expected) := PlainApply(p, op);
            (answer == expected <==> !HitsLeftover(s, op)) && (!HitsLeftover(s, op) ==> Agree(s', p', End(op)))
  {
    match op {
      case Set(_, _, _, _, _, _) => SetAgrees(s, p, op, now);
      case Get(_, _, _, _, _) => GetAgrees(s, p, op, now);
      case Delete(_, _) => DeleteAgrees(s, p, op, now);
      case Expire(_, _, _) => ExpireAgrees(s, p, op, now);
      case _ => LookupAgrees(s, p, op, now);
    }
  }

  // ----- Whole runs

  function After(ops: seq<Operation>): State {
    RunFrom(EMPTY, ops, None)
  }

  ghost predicate NoLeftovers(ops: seq<Operation>) {
    forall i | 0 <= i < |ops| :: !HitsLeftover(After(ops[..i]), ops[i])
  }

  ghost predicate AnswersAsPlain(ops: seq<Operation>) {
    forall i | 0 <= i < |ops| :: AnswerAt(EMPTY, ops, i, None) == PlainAnswer(ops, i)
  }

  lemma NoLeftoversPrefix(ops: seq<Operation>, n: nat)
    requires n <= |ops| && NoLeftovers(ops)
    ensures NoLeftovers(ops[..n])
  {
    forall i | 0 <= i < n
      ensures !HitsLeftover(After(ops[..n][..i]), ops[..n][i])
    {
      assert ops[..n][..i] == ops[..i];
    }
  }

  lemma {:induction false} RunAgrees(ops: seq<Operation>, now: int)
    requires Ordered(ops) && NoLeftovers(ops)
    requires ops != [] ==> End(ops[|ops| - 1]) <= now
    ensures Agree(After(ops), PlainAfter(ops), now)
  {
    if ops == [] {
    } else {
      var rest, last := ops[..|ops| - 1], ops[|ops| - 1];
      NoLeftoversPrefix(ops, |ops| - 1);
      RunAgrees(rest, Start(last));
      assert !HitsLeftover(After(rest), last);
      ApplyAgrees(After(rest), PlainAfter(rest), last, Start(last));
      AgreeLater(After(ops), PlainAfter(ops), End(last), now);
    }
  }

  lemma PrefixAnswers(ops: seq<Operation>, i: nat)
    requires i < |ops| && Ordered(ops) && NoLeftovers(ops[..i])
    ensures AnswerAt(EMPTY, ops, i, None) == PlainAnswer(ops, i) <==> !HitsLeftover(After(ops[..i]), ops[i])
  {
    var now := Start(ops[i]);
    RunAgrees(ops[..i], now);
    ApplyAgrees(After(ops[..i]), PlainAfter(ops[..i]), ops[i], now);
  }

  /**
   Over every run, the cache answers every call as the plain map does exactly when no `delete` or
   `expire` of the run reaches an expired entry that has not been cleaned up.
   */
  lemma {:induction false} RefinesPlainMap(ops: seq<Operation>)
    requires Ordered(ops)
    ensures AnswersAsPlain(ops) <==> NoLeftovers(ops)
  {
    if NoLeftovers(ops) {
      forall i | 0 <= i < |ops|
        ensures AnswerAt(EMPTY, ops, i, None) == PlainAnswer(ops, i)
      {
        NoLeftoversPrefix(ops, i);
        PrefixAnswers(ops, i);
      }
    } else {
      var i := FirstLeftover(ops);
      PrefixAnswers(ops, i);
      assert AnswerAt(EMPTY, ops, i, None) != PlainAnswer(ops, i);
    }
  }

  lemma {:induction false} FirstLeftover(ops: seq<Operation>) returns (i: nat)
    requires !NoLeftovers(ops)
    ensures i < |ops| && HitsLeftover(After(ops[..i]), ops[i]) && NoLeftovers(ops[..i])
  {
    hide Apply, HitsLeftover;
    var rest := ops[..|ops| - 1];
    if NoLeftovers(rest) {
      i := |ops| - 1;
      forall j | 0 <= j < |rest|
        ensures !HitsLeftover(After(ops[..j]), ops[j])
      {
        assert rest[..j] == ops[..j];
      }
    } else {
      i := FirstLeftover(rest);
      assert rest[..i] == ops[..i];
    }
  }

  /** A leftover really can be resurrected: an `expire` too late to find its key still answers true. */
  lemma ExpireResurrects(key: string, data: Bytes)
    ensures var set0, expire1 := Set(key, Some(data), Some(1), "", 0, 0), Expire(key, 5, 2 * SECOND);
            var ops := [set0, expire1, Exists(key, 2 * SECOND, 2 * SECOND)];
            Ordered(ops) && !NoLeftovers(ops) &&
            AnswerAt(EMPTY, ops, 2, None) == Flag(true) && PlainAnswer(ops, 2) == Flag(false)
  {
    var set0, expire1 := Set(key, Some(data), Some(1), "", 0, 0), Expire(key, 5, 2 * SECOND);
    var exists2 := Exists(key, 2 * SECOND, 2 * SECOND);
    var ops := [set0, expire1, exists2];
    assert ops[..2] == [set0, expire1] && ops[..1] == [set0] && ops[..0] == [];
    LateExpireSteps(key, data);
    PlainSteps(key, data);
    hide Apply, PlainApply;
    AfterSnoc(ops, 0);
    AfterSnoc(ops, 1);
    assert After(ops[..0]) == EMPTY;
    hide After, PlainAfter, HitsLeftover, CacheEntry.New;
  }

  lemma LateExpireSteps(key: string, data: Bytes)
    ensures var set0, expire1 := Set(key, Some(data), Some(1), "", 0, 0), Expire(key, 5, 2 * SECOND);
            var first := Apply(EMPTY, set0, None).0;
            var second := Apply(first, expire1, None).0;
            && HitsLeftover(first, expire1)
            && Apply(second, Exists(key, 2 * SECOND, 2 * SECOND), None).1 == Flag(true)
  {
    assert Cleanup(map[], 0) == map[];
    var first := Apply(EMPTY, Set(key, Some(data), Some(1), "", 0, 0), None).0;
    assert first.entries == map[key := CacheEntry.New(data, Some(1), 0)];
    hide SetResult;
    var second := ExpireResult(first, Expire(key, 5, 2 * SECOND)).0;
    assert key in second.entries && second.entries[key].expiresAt == Some(7 * SECOND);
  }

  lemma PlainSteps(key: string, data: Bytes)
    ensures var set0, expire1 := Set(key, Some(data), Some(1), "", 0, 0), Expire(key, 5, 2 * SECOND);
            var first := PlainApply(NO_PLAIN, set0).0;
            && PlainApply(first, expire1).0 == first
            && PlainApply(first, Exists(key, 2 * SECOND, 2 * SECOND)).1 == Flag(false)
            && PlainAfter([set0]) == first && PlainAfter([set0, expire1]) == first
  {
    var set0, expire1 := Set(key, Some(data), Some(1), "", 0, 0), Expire(key, 5, 2 * SECOND);
    assert [set0][..0] == [] && [set0, expire1][..1] == [set0];
  }

  // ----- How long an entry lives

  /** The operation writes or reads the entry under `key`, or may evict it. */
  predicate Concerns(op: Operation, key: string, max: Option<nat>) {
    || op.Clear?
    || ((op.Set? || op.Get? || op.Delete? || op.Expire?) && op.key == key)
    || (op.Set? && max.Some? && op.victim == key)
  }

  lemma SetKeepsEntry(s: State, op: Operation, key: string, max: Option<nat>)
    requires op.Set? && key in s.entries && !Concerns(op, key, max)
    ensures var es := SetResult(s, op, max).0.entries;
            && (key in es ==> es[key] == s.entries[key])
            && (!s.entries[key].IsExpired(Start(op)) ==> key in es)
  {
    hide CacheEntry.New;
  }

  lemma GetKeepsEntry(s: State, op: Operation, key: string)
    requires op.Get? && op.key != key && key in s.entries
    ensures var es := GetResult(s, op).0.entries;
            && (key in es ==> es[key] == s.entries[key])
            && (!s.entries[key].IsExpired(Start(op)) ==> key in es)
  {
  }

  lemma EntryKept(s: State, op: Operation, key: string, max: Option<nat>)
    requires key in s.entries && !Concerns(op, key, max)
    ensures var es := Apply(s, op, max).0.entries;
            && (key in es ==> es[key] == s.entries[key])
            && (!s.entries[key].IsExpired(Start(op)) ==> key in es)
  {
    hide CacheEntry.New, SetResult, GetResult;
    if op.Set? {
      SetKeepsEntry(s, op, key, max);
    } else if op.Get? {
      GetKeepsEntry(s, op, key);
    }
  }

  lemma EntryGone(s: State, op: Operation, key: string, max: Option<nat>)
    requires key !in s.entries && !Concerns(op, key, max)
    ensures key !in Apply(s, op, max).0.entries
  {
    hide CacheEntry.New;
  }

  /** What no operation concerns is there unchanged, at least as long as its deadline has not passed. */
  lemma {:induction false} EntryStays(s: State, since: seq<Operation>, key: string, max: Option<nat>, now: int)
    requires key in s.entries
    requires forall op | op in since :: !Concerns(op, key, max) && Start(op) <= now
    ensures var es := RunFrom(s, since, max).entries;
            && (key in es ==> es[key] == s.entries[key])
            && (!s.entries[key].IsExpired(now) ==> key in es)
  {
    hide Apply, Concerns;
    if since == [] {
    } else {
      var rest, last := since[..|since| - 1], since[|since| - 1];
      assert last in since;
      EntryStays(s, rest, key, max, now);
      if key in RunFrom(s, rest, max).entries {
        EntryKept(RunFrom(s, rest, max), last, key, max);
      } else {
        EntryGone(RunFrom(s, rest, max), last, key, max);
      }
    }
  }

  /** `since` and `last` run after `first`, the clock not going back, and no call of `since` concerns its key. */
  ghost predicate Undisturbed(first: Operation, since: seq<Operation>, last: Operation, max: Option<nat>)
    requires first.Set? || first.Expire?
  {
    && Ordered([first] + since + [last])
    && forall op | op in since :: !Concerns(op, first.key, max)
  }

  lemma UndisturbedEarlier(first: Operation, since: seq<Operation>, last: Operation, max: Option<nat>)
    requires first.Set? || first.Expire?
    requires Undisturbed(first, since, last, max)
    ensures Ticking(last) && forall op | op in since :: !Concerns(op, first.key, max) && Start(op) <= Start(last)
  {
    var all := [first] + since + [last];
    assert all[|all| - 1] == last;
    forall op | op in since
      ensures Start(op) <= Start(last)
    {
      var i :| 0 <= i < |since| && since[i] == op;
      assert all[i + 1] == op;
      assert Ticking(all[i + 1]) && End(all[i + 1]) <= Start(all[|all| - 1]);
    }
  }

  /** An entry set with a time to live of `n` exists up to `n` seconds after it was created, and not longer. */
  lemma SetLivesItsTime(s: State, set0: Operation, since: seq<Operation>, exists1: Operation, max: Option<nat>)
    requires set0.Set? && set0.data.Some? && exists1.Exists? && exists1.key == set0.key
    requires Undisturbed(set0, since, exists1, max)
    ensures var s' := RunFrom(Apply(s, set0, max).0, since, max);
            Apply(s', exists1, max).1 ==
            Flag(set0.ttl.Some? ==> exists1.checkAt <= set0.createAt + set0.ttl.value * SECOND)
  {
    UndisturbedEarlier(set0, since, exists1, max);
    EntryStays(Apply(s, set0, max).0, since, set0.key, max, exists1.cleanAt);
    hide RunFrom, Ordered, Concerns;
  }

  /** An entry given `n` more seconds by `expire` exists up to `n` seconds after that call, and not longer. */
  lemma ExpireLivesItsTime(s: State, expire0: Operation, since: seq<Operation>, exists1: Operation, max: Option<nat>)
    requires expire0.Expire? && expire0.key in s.entries && exists1.Exists? && exists1.key == expire0.key
    requires Undisturbed(expire0, since, exists1, max)
    ensures var s' := RunFrom(Apply(s, expire0, max).0, since, max);
            Apply(s', exists1, max).1 == Flag(exists1.checkAt <= expire0.expireAt + expire0.ttlSeconds * SECOND)
  {
    UndisturbedEarlier(expire0, since, exists1, max);
    EntryStays(Apply(s, expire0, max).0, since, expire0.key, max, exists1.cleanAt);
    hide RunFrom, Ordered, Concerns;
  }

  /** Until then `ttl` answers the whole seconds that remain, and 0 if they ran out during the call; then nothing. */
  lemma TtlCountsDown(s: State, set0: Operation, since: seq<Operation>, ttl1: Operation, max: Option<nat>)
    requires set0.Set? && set0.data.Some? && set0.ttl.Some? && ttl1.Ttl? && ttl1.key == set0.key
    requires Undisturbed(set0, since, ttl1, max)
    ensures var s' := RunFrom(Apply(s, set0, max).0, since, max);
            var answer := Apply(s', ttl1, max).1;
            var left := set0.createAt + set0.ttl.value * SECOND - ttl1.readAt;
            && answer.Remaining?
            && (answer.seconds.Some? <==> ttl1.cleanAt <= set0.createAt + set0.ttl.value * SECOND)
            && (answer.seconds.Some? && left >= 0 ==>
                  answer.seconds.value * SECOND <= left < (answer.seconds.value + 1) * SECOND)
            && (answer.seconds.Some? && left < 0 ==> answer.seconds.value == 0)
  {
    UndisturbedEarlier(set0, since, ttl1, max);
    EntryStays(Apply(s, set0, max).0, since, set0.key, max, ttl1.cleanAt);
    hide RunFrom, Ordered, Concerns;
  }

  // ----- Cleaning up is invisible

  /** `ops` with a cleanup inserted at position `at`. */
  function WithCleanup(ops: seq<Operation>, at: nat, now: int): seq<Operation>
    requires at <= |ops|
  {
    ops[..at] + [CleanupExpired(now)] + ops[at..]
  }

  ghost predicate Submap(a: Entries, b: Entries) {
    forall k | k in a :: k in b && a[k] == b[k]
  }

  lemma CleanupSubmap(a: Entries, b: Entries, now: int)
    requires Submap(a, b)
    ensures Submap(Cleanup(a, now), Cleanup(b, now)) && Submap(Cleanup(a, now), b)
  {
  }

  lemma SetSubmap(a: State, b: State, op: Operation)
    requires op.Set? && Submap(a.entries, b.entries)
    ensures Submap(SetResult(a, op, None).0.entries, SetResult(b, op, None).0.entries)
  {
    CleanupSubmap(a.entries, b.entries, op.cleanAt);
  }

  lemma GetSubmap(a: State, b: State, op: Operation)
    requires op.Get? && Submap(a.entries, b.entries)
    ensures Submap(GetResult(a, op).0.entries, GetResult(b, op).0.entries)
  {
    var x, y := Cleanup(a.entries, op.cleanAt), Cleanup(b.entries, op.cleanAt);
    CleanupSubmap(a.entries, b.entries, op.cleanAt);
    RemoveSubmap(x, y, op.key);
    if op.key in x {
      assert op.key in y && x[op.key] == y[op.key];
      UpdateSubmap(x, y, op.key, x[op.key].MarkAccessed(op.touchAt));
    } else if op.key in y {
      WiderSubmap(x, y, op.key, y[op.key].MarkAccessed(op.touchAt));
    }
    hide Cleanup, Submap;
  }

  lemma RemoveSubmap(a: Entries, b: Entries, key: string)
    requires Submap(a, b)
    ensures Submap(a - {key}, b - {key}) && (key !in a ==> Submap(a, b - {key}))
  {
  }

  lemma UpdateSubmap(a: Entries, b: Entries, key: string, entry: CacheEntry)
    requires Submap(a, b)
    ensures Submap(a[key := entry], b[key := entry])
  {
  }

  lemma WiderSubmap(a: Entries, b: Entries, key: string, entry: CacheEntry)
    requires Submap(a, b) && key !in a
    ensures Submap(a, b[key := entry])
  {
  }

  lemma KeyedSubmap(a: State, b: State, op: Operation)
    requires op.Delete? || op.Expire?
    requires Submap(a.entries, b.entries)
    ensures !HitsLeftover(b, op) ==> !HitsLeftover(a, op)
    ensures Submap(Apply(a, op, None).0.entries, Apply(b, op, None).0.entries)
  {
  }

  lemma ApplySubmap(a: State, b: State, op: Operation)
    requires Submap(a.entries, b.entries) && !HitsLeftover(b, op)
    ensures !HitsLeftover(a, op)
    ensures Submap(Apply(a, op, None).0.entries, Apply(b, op, None).0.entries)
  {
    if op.Set? {
      SetSubmap(a, b, op);
    } else if op.Get? {
      GetSubmap(a, b, op);
    } else if op.Delete? || op.Expire? {
      KeyedSubmap(a, b, op);
    } else {
      CleanupSubmap(a.entries, b.entries, Start(op));
    }
  }

  lemma CleanupStep(s: State, p: Plain, now: int)
    ensures Apply(s, CleanupExpired(now), None).0.entries == Cleanup(s.entries, now)
    ensures PlainApply(p, CleanupExpired(now)).0 == p
  {
  }

  lemma AfterSnoc(ops: seq<Operation>, n: nat)
    requires n < |ops|
    ensures After(ops[..n + 1]) == Apply(After(ops[..n]), ops[n], None).0
    ensures PlainAfter(ops[..n + 1]) == PlainApply(PlainAfter(ops[..n]), ops[n]).0
  {
    assert ops[..n + 1][..n] == ops[..n];
  }

  lemma WithCleanupAt(ops: seq<Operation>, at: nat, now: int, n: nat)
    requires at <= n <= |ops|
    ensures var more := WithCleanup(ops, at, now);
            && n < |more|
            && (n == at ==> more[..n] == ops[..n] && more[n] == CleanupExpired(now))
            && (n > at ==> more[n] == ops[n - 1])
  {
  }

  lemma {:induction false} CleanupShrinks(ops: seq<Operation>, at: nat, now: int, n: nat)
    requires at <= n <= |ops| && NoLeftovers(ops)
    ensures Submap(After(WithCleanup(ops, at, now)[..n + 1]).entries, After(ops[..n]).entries)
  {
    hide Apply, PlainApply, HitsLeftover, WithCleanup, After, PlainAfter;
    var more := WithCleanup(ops, at, now);
    WithCleanupAt(ops, at, now, n);
    AfterSnoc(more, n);
    if n == at {
      CleanupStep(After(more[..n]), NO_PLAIN, now);
      CleanupSubmap(After(ops[..n]).entries, After(ops[..n]).entries, now);
    } else {
      CleanupShrinks(ops, at, now, n - 1);
      AfterSnoc(ops, n - 1);
      assert !HitsLeftover(After(ops[..n - 1]), ops[n - 1]);
      ApplySubmap(After(more[..n]), After(ops[..n - 1]), ops[n - 1]);
    }
  }

  lemma {:induction false} PlainIgnoresCleanup(ops: seq<Operation>, at: nat, now: int, n: nat)
    requires at <= n <= |ops|
    ensures PlainAfter(WithCleanup(ops, at, now)[..n + 1]) == PlainAfter(ops[..n])
  {
    hide Apply, PlainApply;
    var more := WithCleanup(ops, at, now);
    AfterSnoc(more, n);
    if n == at {
      assert more[..n] == ops[..n] && more[n] == CleanupExpired(now);
      CleanupStep(EMPTY, PlainAfter(more[..n]), now);
    } else {
      PlainIgnoresCleanup(ops, at, now, n - 1);
      AfterSnoc(ops, n - 1);
      assert more[n] == ops[n - 1];
    }
  }

  lemma CleanupKeepsNoLeftovers(ops: seq<Operation>, at: nat, now: int)
    requires at <= |ops| && NoLeftovers(ops)
    ensures NoLeftovers(WithCleanup(ops, at, now))
  {
    hide Apply, After, Submap;
    var more := WithCleanup(ops, at, now);
    forall i | 0 <= i < |more|
      ensures !HitsLeftover(After(more[..i]), more[i])
    {
      if i < at {
        assert more[..i] == ops[..i] && more[i] == ops[i];
      } else if i > at {
        WithCleanupAt(ops, at, now, i);
        CleanupShrinks(ops, at, now, i - 1);
        assert !HitsLeftover(After(ops[..i - 1]), ops[i - 1]);
        hide HitsLeftover, WithCleanup;
        ApplySubmap(After(more[..i]), After(ops[..i - 1]), ops[i - 1]);
      }
    }
  }

  /** Inserting a cleanup anywhere changes no answer of a run that hits no leftover. */
  lemma CleanupInvisible(ops: seq<Operation>, at: nat, now: int, i: nat)
    requires at <= |ops| && NoLeftovers(ops) && i < |ops|
    requires Ordered(ops) && Ordered(WithCleanup(ops, at, now))
    ensures AnswerAt(EMPTY, WithCleanup(ops, at, now), if i < at then i else i + 1, None) == AnswerAt(EMPTY, ops, i, None)
  {
    var more := WithCleanup(ops, at, now);
    CleanupKeepsNoLeftovers(ops, at, now);
    RefinesPlainMap(ops);
    RefinesPlainMap(more);
    if i < at {
      assert more[..i] == ops[..i] && more[i] == ops[i];
    } else {
      PlainIgnoresCleanup(ops, at, now, i);
      assert more[i + 1] == ops[i];
      assert AnswerAt(EMPTY, more, i + 1, None) == PlainAnswer(more, i + 1);
      assert AnswerAt(EMPTY, ops, i, None) == PlainAnswer(ops, i);
    }
  }
}
