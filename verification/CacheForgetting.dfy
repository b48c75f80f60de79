/** The bounded cache against the plain map: what eviction makes it forget, and nothing else. */
module CacheForgetting {
  import opened Wrappers
  import opened MemoryCache
  import opened CacheRefinement
  import opened CacheRecency

  /**
   Every live entry of the cache is the plain map's, every live key the plain map has beyond those was
   evicted, and what was evicted is gone.
   */
  ghost predicate Accounted(es: Entries, m: map<string, PlainEntry>, evicted: set<string>, now: int) {
    && (forall k | k in es && !es[k].IsExpired(now) ::
          Live(m, k, now) && m[k] == PlainEntry(es[k].data, es[k].expiresAt))
    && (forall k | Live(m, k, now) :: k in evicted || (k in es && !es[k].IsExpired(now)))
    && (forall k | k in evicted :: k !in es)
  }

  /** The call asks for a key that was evicted and is live in the plain map, and a deadline if it is after one. */
  predicate Forgets(op: Operation, m: map<string, PlainEntry>, evicted: set<string>) {
    match op
    case Get(key, _, _, checkAt, _) => key in evicted && Live(m, key, checkAt)
    case Exists(key, _, checkAt) => key in evicted && Live(m, key, checkAt)
    case Delete(key, deleteAt) => key in evicted && Live(m, key, deleteAt)
    case Expire(key, _, expireAt) => key in evicted && Live(m, key, expireAt)
    case Ttl(key, cleanAt, _) => key in evicted && Live(m, key, cleanAt) && m[key].deadline.Some?
    case _ => false
  }

  /** What each call answers about a key that is not there. */
  function Nothing(op: Operation): Answer {
    match op
    case Get(_, _, _, _, _) => Value(None)
    case Ttl(_, _, _) => Remaining(None)
    case _ => Flag(false)
  }

  /** The answer is the plain map's, or, exactly for a forgotten key, that there is nothing. */
  predicate AnswersBut(op: Operation, m: map<string, PlainEntry>, evicted: set<string>, answer: Answer, expected: Answer) {
    if Forgets(op, m, evicted) then answer == Nothing(op) != expected else answer == expected
  }

  /** The evicted keys after an operation. */
  function EvictedNext(evicted: set<string>, s: State, op: Operation, max: Option<nat>): set<string> {
    evicted + EvictedBy(s, op, max) - if op.Set? && op.data.Some? then {op.key} else {}
  }

  lemma AccountedLater(es: Entries, m: map<string, PlainEntry>, evicted: set<string>, now: int, later: int)
    requires Accounted(es, m, evicted, now) && now <= later
    ensures Accounted(es, m, evicted, later)
  {
    forall k | Live(m, k, later)
      ensures Live(m, k, now)
    {
    }
  }

  lemma CleanupAccounts(es: Entries, m: map<string, PlainEntry>, evicted: set<string>, now: int, cleanAt: int)
    requires Accounted(es, m, evicted, now) && now <= cleanAt
    ensures Accounted(Cleanup(es, cleanAt), m, evicted, cleanAt)
  {
    AccountedLater(es, m, evicted, now, cleanAt);
  }

  lemma RemoveAccounts(es: Entries, m: map<string, PlainEntry>, evicted: set<string>, now: int, key: string)
    requires Accounted(es, m, evicted, now)
    ensures Accounted(es - {key}, m - {key}, evicted, now)
    ensures Accounted(es - {key}, m, evicted + {key}, now)
    ensures key in es && es[key].IsExpired(now) ==> !Live(m, key, now) && Accounted(es - {key}, m, evicted, now)
  {
    assert forall k :: Live(m - {key}, k, now) <==> k != key && Live(m, k, now);
  }

  lemma InsertAccounts(
    es: Entries, m: map<string, PlainEntry>, evicted: set<string>, now: int, key: string, entry: CacheEntry
  )
    requires Accounted(es, m, evicted, now)
    ensures Accounted(es[key := entry], m[key := PlainEntry(entry.data, entry.expiresAt)], evicted - {key}, now)
  {
    var m' := m[key := PlainEntry(entry.data, entry.expiresAt)];
    forall k | k != key
      ensures Live(m', k, now) <==> Live(m, k, now)
    {
    }
  }

  lemma RoomAccounts(
    s: State, m: map<string, PlainEntry>, evicted: set<string>, op: Operation, max: Option<nat>, now: int
  )
    requires op.Set? && now <= op.cleanAt && Accounted(s.entries, m, evicted, now)
    ensures Accounted(Evict(Cleanup(s.entries, op.cleanAt), max, op.victim), m, evicted + EvictedBy(s, op, max), op.cleanAt)
  {
    var clean := Cleanup(s.entries, op.cleanAt);
    CleanupAccounts(s.entries, m, evicted, now, op.cleanAt);
    RemoveAccounts(clean, m, evicted, op.cleanAt, op.victim);
    assert evicted + {} == evicted;
    hide Accounted, Cleanup, NeedsEviction;
  }

  lemma SetAccounts(s: State, p: Plain, evicted: set<string>, op: Operation, max: Option<nat>, now: int)
    requires op.Set? && Ticking(op) && now <= Start(op) && Accounted(s.entries, p.m, evicted, now)
    ensures var (s', answer) := SetResult(s, op, max); var (p', expected) := PlainApply(p, op);
            answer == expected && Accounted(s'.entries, p'.m, EvictedNext(evicted, s, op, max), End(op))
  {
    hide Cleanup, Evict, Accounted, EvictedBy;
    var room := Evict(Cleanup(s.entries, op.cleanAt), max, op.victim);
    var gone := evicted + EvictedBy(s, op, max);
    RoomAccounts(s, p.m, evicted, op, max, now);
    AccountedLater(room, p.m, gone, op.cleanAt, op.createAt);
    if op.data.Some? {
      InsertAccounts(room, p.m, gone, op.createAt, op.key, CacheEntry.New(op.data.value, op.ttl, op.createAt));
    } else {
      assert gone - {} == gone;
    }
  }

  lemma TouchAccounts(es: Entries, m: map<string, PlainEntry>, evicted: set<string>, key: string, now: int, touchAt: int)
    requires Accounted(es, m, evicted, now) && key in es && !es[key].IsExpired(now)
    ensures Accounted(es[key := es[key].MarkAccessed(touchAt)], m, evicted, now)
    ensures Live(m, key, now) && m[key].data == es[key].data && key !in evicted
  {
  }

  lemma GetAccounts(s: State, p: Plain, evicted: set<string>, op: Operation, now: int)
    requires op.Get? && Ticking(op) && now <= Start(op) && Accounted(s.entries, p.m, evicted, now)
    ensures var (s', answer) := GetResult(s, op); var (p', expected) := PlainApply(p, op);
            Accounted(s'.entries, p'.m, evicted, End(op)) && AnswersBut(op, p.m, evicted, answer, expected)
  {
    var es, key := Cleanup(s.entries, op.cleanAt), op.key;
    CleanupAccounts(s.entries, p.m, evicted, now, op.cleanAt);
    AccountedLater(es, p.m, evicted, op.cleanAt, op.checkAt);
    if key !in es {
      assert Live(p.m, key, op.checkAt) ==> key in evicted;
    } else if es[key].IsExpired(op.checkAt) {
      RemoveAccounts(es, p.m, evicted, op.checkAt, key);
    } else {
      TouchAccounts(es, p.m, evicted, key, op.checkAt, op.touchAt);
    }
    hide Accounted, Cleanup, Live;
    AccountedLater(GetResult(s, op).0.entries, PlainApply(p, op).0.m, evicted, op.checkAt, op.touchAt);
  }

  lemma DeleteAccounts(s: State, p: Plain, evicted: set<string>, op: Operation, now: int)
    requires op.Delete? && now <= op.deleteAt && Accounted(s.entries, p.m, evicted, now)
    ensures var (s', answer) := DeleteResult(s, op); var (p', expected) := PlainApply(p, op);
            && Accounted(s'.entries, p'.m, evicted, op.deleteAt)
            && (!HitsLeftover(s, op) ==> AnswersBut(op, p.m, evicted, answer, expected))
  {
    AccountedLater(s.entries, p.m, evicted, now, op.deleteAt);
    RemoveAccounts(s.entries, p.m, evicted, op.deleteAt, op.key);
    assert op.key !in s.entries ==> s.entries - {op.key} == s.entries;
  }

  lemma ExpireAccounts(s: State, p: Plain, evicted: set<string>, op: Operation, now: int)
    requires op.Expire? && now <= op.expireAt && Accounted(s.entries, p.m, evicted, now) && !HitsLeftover(s, op)
    ensures var (s', answer) := ExpireResult(s, op); var (p', expected) := PlainApply(p, op);
            && Accounted(s'.entries, p'.m, evicted, op.expireAt)
            && AnswersBut(op, p.m, evicted, answer, expected)
  {
    AccountedLater(s.entries, p.m, evicted, now, op.expireAt);
    if op.key in s.entries {
      var entry := s.entries[op.key].(expiresAt := Some(Deadline(op.expireAt, op.ttlSeconds)));
      InsertAccounts(s.entries, p.m, evicted, op.expireAt, op.key, entry);
      assert evicted - {op.key} == evicted;
    } else {
      var m' := PlainApply(p, op).0.m;
      assert forall k | k != op.key :: Live(m', k, op.expireAt) <==> Live(p.m, k, op.expireAt);
    }
  }

  lemma LookupAccounts(s: State, p: Plain, evicted: set<string>, op: Operation, max: Option<nat>, now: int)
    requires op.Exists? || op.Ttl? || op.Stats? || op.CleanupExpired? || op.Clear?
    requires Ticking(op) && now <= Start(op) && Accounted(s.entries, p.m, evicted, now)
    ensures var (s', answer) := Apply(s, op, max); var (p', expected) := PlainApply(p, op);
            && Accounted(s'.entries, p'.m, evicted, End(op))
            && (!op.Stats? ==> AnswersBut(op, p.m, evicted, answer, expected))
  {
    hide SetResult, GetResult, DeleteResult, ExpireResult, LiveKeys;
    if op.Clear? {
    } else {
      var es := Cleanup(s.entries, Start(op));
      CleanupAccounts(s.entries, p.m, evicted, now, Start(op));
      AccountedLater(es, p.m, evicted, Start(op), End(op));
      hide Cleanup;
      if op.Exists? {
        assert Live(p.m, op.key, op.checkAt) ==> op.key in evicted || op.key in es;
      } else if op.Ttl? {
        assert Live(p.m, op.key, op.cleanAt) ==> op.key in evicted || op.key in es;
      }
    }
  }

  lemma ApplyAccounts(s: State, p: Plain, evicted: set<string>, op: Operation, max: Option<nat>, now: int)
    requires Ticking(op) && now <= Start(op) && Accounted(s.entries, p.m, evicted, now)
    requires op.Expire? ==> !HitsLeftover(s, op)
    ensures var (s', answer) := Apply(s, op, max); var (p', expected) := PlainApply(p, op);
            && Accounted(s'.entries, p'.m, EvictedNext(evicted, s, op, max), End(op))
            && (!op.Stats? && !HitsLeftover(s, op) ==> AnswersBut(op, p.m, evicted, answer, expected))
  {
    assert !op.Set? ==> EvictedNext(evicted, s, op, max) == evicted;
    hide Accounted, PlainApply, SetResult, GetResult, DeleteResult, ExpireResult, EvictedNext;
    match op {
      case Set(_, _, _, _, _, _) => SetAccounts(s, p, evicted, op, max, now);
      case Get(_, _, _, _, _) => GetAccounts(s, p, evicted, op, now);
      case Delete(_, _) => DeleteAccounts(s, p, evicted, op, now);
      case Expire(_, _, _) => ExpireAccounts(s, p, evicted, op, now);
      case _ => LookupAccounts(s, p, evicted, op, max, now);
    }
  }

  /** No `expire` of the run reaches an expired entry that is still there. */
  ghost predicate NoLateExpire(ops: seq<Operation>, max: Option<nat>) {
    forall i | 0 <= i < |ops| && ops[i].Expire? :: !HitsLeftover(Now(ops[..i], max), ops[i])
  }

  lemma {:induction false} RunAccounts(ops: seq<Operation>, max: Option<nat>, now: int)
    requires Ordered(ops) && NoLateExpire(ops, max)
    requires ops != [] ==> End(ops[|ops| - 1]) <= now
    ensures Accounted(Now(ops, max).entries, PlainAfter(ops).m, Evicted(ops, max), now)
  {
    hide Apply, PlainApply, HitsLeftover, Accounted, EvictedBy;
    if ops == [] {
      assert Accounted(EMPTY.entries, NO_PLAIN.m, {}, now) by {
        NothingAccounted(now);
      }
    } else {
      var rest, last := ops[..|ops| - 1], ops[|ops| - 1];
      assert forall i | 0 <= i < |rest| :: rest[..i] == ops[..i];
      RunAccounts(rest, max, Start(last));
      ApplyAccounts(Now(rest, max), PlainAfter(rest), Evicted(rest, max), last, max, Start(last));
      AccountedLater(Now(ops, max).entries, PlainAfter(ops).m, Evicted(ops, max), End(last), now);
    }
  }

  lemma NothingAccounted(now: int)
    ensures Accounted(EMPTY.entries, NO_PLAIN.m, {}, now)
  {
  }

  /**
   With any capacity, and whatever eviction picks, the cache forgets and does nothing worse: over every
   run in which no `expire` hits an expired leftover, every call other than `stats` and a late `delete`
   differs from the plain map exactly when it asks for a key evicted since its last set and still live
   there, and then it answers that there is nothing.
   */
  lemma EvictionOnlyForgets(ops: seq<Operation>, max: Option<nat>, i: nat)
    requires Ordered(ops) && NoLateExpire(ops, max) && i < |ops| && !ops[i].Stats?
    requires !HitsLeftover(Now(ops[..i], max), ops[i])
    ensures var answer, expected := AnswerAt(EMPTY, ops, i, max), PlainAnswer(ops, i);
            && (answer != expected <==> Forgets(ops[i], PlainAfter(ops[..i]).m, Evicted(ops[..i], max)))
            && (answer != expected ==> answer == Nothing(ops[i]))
  {
    assert forall j | 0 <= j < i :: ops[..i][..j] == ops[..j];
    hide Apply, PlainApply, HitsLeftover, Accounted, Forgets;
    RunAccounts(ops[..i], max, Start(ops[i]));
    ApplyAccounts(Now(ops[..i], max), PlainAfter(ops[..i]), Evicted(ops[..i], max), ops[i], max, Start(ops[i]));
  }
}
