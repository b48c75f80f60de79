/** What a `get` split by other calls undoes: writes to its key between its read and its last step. */
module CacheLostWrites {
  import opened Wrappers
  import opened Basics
  import opened MemoryCache
  import opened CacheInterleaving

  /** What callers can see of a key: its value and deadline. */
  function View(es: Entries, key: string): Option<(Bytes, Option<int>)> {
    if key in es then Some((es[key].data, es[key].expiresAt)) else None
  }

  /** The move ends get `i`. */
  predicate Ends(m: Move, i: nat) {
    (m.GetRemove? || m.GetPutBack?) && m.call == i
  }

  lemma ReadStaysStep(w: World, m: Move, max: Option<nat>, i: nat)
    requires CanMove(w, m, max) && i in w.gets && !Ends(m, i)
    ensures i in Moved(w, m, max).gets && Moved(w, m, max).gets[i] == w.gets[i]
  {
    hide Apply, Evict, Cleanup, MayEvict;
  }

  /** Until it ends, a get keeps what it read. */
  lemma {:induction false} ReadStays(
    before: seq<Move>, during: seq<Move>, max: Option<nat>, k: nat, g: nat, i: nat
  )
    requires Legal(before, max, k, g) && Legal(before + during, max, k, g) && i in Exec(before, max, k, g).gets
    requires forall m | m in during :: !Ends(m, i)
    ensures var w, w' := Exec(before, max, k, g), Exec(before + during, max, k, g);
            i in w'.gets && w'.gets[i] == w.gets[i]
    decreases |during|
  {
    hide Moved, CanMove, Ends;
    if during == [] {
      assert before + during == before;
    } else {
      var rest, m := during[..|during| - 1], during[|during| - 1];
      assert (before + during)[..|before + during| - 1] == before + rest;
      assert m in during;
      ReadStays(before, rest, max, k, g, i);
      ReadStaysStep(Exec(before + rest, max, k, g), m, max, i);
    }
  }

  /** The move after `moves` changes what callers see of `key`. */
  ghost predicate Writes(moves: seq<Move>, m: Move, key: string, max: Option<nat>, k: nat, g: nat) {
    && Legal(moves, max, k, g) && Legal(moves + [m], max, k, g)
    && View(Exec(moves + [m], max, k, g).entries, key) != View(Exec(moves, max, k, g).entries, key)
  }

  /** The `n`-th move of `during` changes what callers see of `key`. */
  ghost predicate WritesAt(
    before: seq<Move>, during: seq<Move>, n: nat, key: string, max: Option<nat>, k: nat, g: nat
  ) {
    n < |during| && Writes(before + during[..n], during[n], key, max, k, g)
  }

  lemma {:induction false} LegalPrefix(before: seq<Move>, during: seq<Move>, n: nat, max: Option<nat>, k: nat, g: nat)
    requires Legal(before + during, max, k, g) && n <= |during|
    ensures Legal(before + during[..n], max, k, g)
    decreases |during|
  {
    if n == |during| {
      assert during[..n] == during;
    } else {
      var rest := during[..|during| - 1];
      assert (before + during)[..|before + during| - 1] == before + rest;
      LegalPrefix(before, rest, n, max, k, g);
      assert rest[..n] == during[..n];
    }
  }

  /** Moves that do not change what callers see of a key leave it seen as before. */
  lemma {:induction false} SameView(
    before: seq<Move>, during: seq<Move>, lo: nat, hi: nat, key: string, max: Option<nat>, k: nat, g: nat
  )
    requires Legal(before + during, max, k, g) && lo <= hi <= |during|
    requires forall n | lo <= n < hi :: !WritesAt(before, during, n, key, max, k, g)
    ensures Legal(before + during[..lo], max, k, g) && Legal(before + during[..hi], max, k, g)
    ensures View(Exec(before + during[..hi], max, k, g).entries, key) ==
            View(Exec(before + during[..lo], max, k, g).entries, key)
  {
    hide View, Exec, Legal;
    LegalPrefix(before, during, lo, max, k, g);
    LegalPrefix(before, during, hi, max, k, g);
    if lo == hi {
    } else {
      SameView(before, during, lo, hi - 1, key, max, k, g);
      assert !WritesAt(before, during, hi - 1, key, max, k, g);
      assert before + during[..hi - 1] + [during[hi - 1]] == before + during[..hi];
    }
  }

  /** At most one move of `during` changes what callers see of `key`. */
  ghost predicate WritesOnce(before: seq<Move>, during: seq<Move>, key: string, max: Option<nat>, k: nat, g: nat) {
    forall n, j | WritesAt(before, during, n, key, max, k, g) && WritesAt(before, during, j, key, max, k, g) :: n == j
  }

  /** What callers see of the key changes if a move changes it, and only if: at most one move does. */
  lemma LoneWriteShows(before: seq<Move>, during: seq<Move>, key: string, max: Option<nat>, k: nat, g: nat)
    requires Legal(before, max, k, g) && Legal(before + during, max, k, g)
    requires WritesOnce(before, during, key, max, k, g)
    ensures View(Exec(before + during, max, k, g).entries, key) != View(Exec(before, max, k, g).entries, key) <==>
            exists n :: WritesAt(before, during, n, key, max, k, g)
  {
    hide View, Exec, Legal, Writes;
    assert before + during[..0] == before && before + during[..|during|] == before + during;
    if n: nat :| WritesAt(before, during, n, key, max, k, g) {
      OnlyWriteShows(before, during, n, key, max, k, g);
    } else {
      SameView(before, during, 0, |during|, key, max, k, g);
    }
  }

  lemma OnlyWriteShows(before: seq<Move>, during: seq<Move>, n: nat, key: string, max: Option<nat>, k: nat, g: nat)
    requires Legal(before, max, k, g) && Legal(before + during, max, k, g)
    requires WritesAt(before, during, n, key, max, k, g)
    requires forall j | WritesAt(before, during, j, key, max, k, g) :: n == j
    ensures View(Exec(before + during, max, k, g).entries, key) != View(Exec(before, max, k, g).entries, key)
  {
    hide View, Exec, Legal;
    assert before + during[..0] == before && before + during[..|during|] == before + during;
    SameView(before, during, 0, n, key, max, k, g);
    assert before + during[..n] + [during[n]] == before + during[..n + 1];
    SameView(before, during, n + 1, |during|, key, max, k, g);
  }

  /** A schedule that runs the read of a get, then `during` without ending that get, then its last move. */
  ghost predicate SplitGet(
    before: seq<Move>, read: Move, during: seq<Move>, last: Move, max: Option<nat>, k: nat, g: nat
  ) {
    && read.GetRead? && Ends(last, read.call) && (forall m | m in during :: !Ends(m, read.call))
    && Legal(before + [read], max, k, g) && read.call in Exec(before + [read], max, k, g).gets
    && Legal(before + [read] + during, max, k, g) && Legal(before + [read] + during + [last], max, k, g)
  }

  lemma LastStep(before: seq<Move>, read: Move, during: seq<Move>, last: Move, max: Option<nat>, k: nat, g: nat)
    requires SplitGet(before, read, during, last, max, k, g)
    ensures var w, w' := Exec(before + [read], max, k, g), Exec(before + [read] + during, max, k, g);
            && read.call in w'.gets && w'.gets[read.call] == w.gets[read.call]
            && CanMove(w', last, max) && Exec(before + [read] + during + [last], max, k, g) == Moved(w', last, max)
  {
    hide Moved, CanMove;
    var whole := before + [read] + during + [last];
    assert whole[..|whole| - 1] == before + [read] + during;
    ReadStays(before + [read], during, max, k, g, read.call);
  }

  lemma ReadStep(before: seq<Move>, read: Move, max: Option<nat>, k: nat, g: nat)
    requires read.GetRead? && Legal(before + [read], max, k, g) && read.call in Exec(before + [read], max, k, g).gets
    ensures var w := Exec(before + [read], max, k, g);
            && read.key in w.entries && w.gets[read.call].key == read.key
            && (w.gets[read.call].Found? ==> w.gets[read.call].entry == w.entries[read.key])
            && (w.gets[read.call].Late? <==> w.entries[read.key].IsExpired(read.checkAt))
  {
    assert (before + [read])[..|before|] == before;
  }

  /**
   A get that found its value leaves its key as it read it, whatever ran in between, and no other key
   changed: every set, delete, expire, clear or eviction of the key since the read is undone. When at
   most one move in between changed what callers see of the key, the get undoes something exactly
   when there was one.
   */
  lemma PutBackUndoes(
    before: seq<Move>, read: Move, during: seq<Move>, last: Move, max: Option<nat>, k: nat, g: nat
  )
    requires SplitGet(before, read, during, last, max, k, g)
    requires Exec(before + [read], max, k, g).gets[read.call].Found?
    ensures var key := read.key;
            var atRead := Exec(before + [read], max, k, g).entries;
            var found := Exec(before + [read] + during, max, k, g).entries;
            var left := Exec(before + [read] + during + [last], max, k, g).entries;
            && View(left, key) == View(atRead, key)
            && (forall j | j != key :: (j in left <==> j in found) && (j in left ==> left[j] == found[j]))
            && (WritesOnce(before + [read], during, key, max, k, g) ==>
                  (View(left, key) != View(found, key) <==>
                   exists n :: WritesAt(before + [read], during, n, key, max, k, g)))
  {
    LastStep(before, read, during, last, max, k, g);
    ReadStep(before, read, max, k, g);
    hide Exec, Legal, Apply, Evict, MayEvict, Cleanup;
    if WritesOnce(before + [read], during, read.key, max, k, g) {
      LoneWriteShows(before + [read], during, read.key, max, k, g);
    }
  }

  /**
   A get that found its entry late removes the key, whatever ran in between, and no other key changed.
   The value it removes is live, at the time of the read or later, only if a move in between wrote
   the key: then that write is lost.
   */
  lemma RemovalUndoes(
    before: seq<Move>, read: Move, during: seq<Move>, last: Move, max: Option<nat>, k: nat, g: nat
  )
    requires SplitGet(before, read, during, last, max, k, g)
    requires Exec(before + [read], max, k, g).gets[read.call].Late?
    ensures var key := read.key;
            var found := Exec(before + [read] + during, max, k, g).entries;
            var left := Exec(before + [read] + during + [last], max, k, g).entries;
            && left == found - {key}
            && forall now | now >= read.checkAt && key in found && !found[key].IsExpired(now) ::
                 exists n :: WritesAt(before + [read], during, n, key, max, k, g)
  {
    LastStep(before, read, during, last, max, k, g);
    ReadStep(before, read, max, k, g);
    hide Exec, Legal, Apply, Evict, MayEvict, Cleanup;
    if forall n :: !WritesAt(before + [read], during, n, read.key, max, k, g) {
      LoneWriteShows(before + [read], during, read.key, max, k, g);
    }
  }

  /** ... and exactly then, when the one write since the read stored a value that is still live. */
  lemma RemovalLosesLoneWrite(
    before: seq<Move>, read: Move, during: seq<Move>, last: Move, max: Option<nat>, k: nat, g: nat, n: nat, now: int
  )
    requires SplitGet(before, read, during, last, max, k, g)
    requires Exec(before + [read], max, k, g).gets[read.call].Late?
    requires WritesAt(before + [read], during, n, read.key, max, k, g)
    requires WritesOnce(before + [read], during, read.key, max, k, g)
    ensures Legal(before + [read] + during[..n + 1], max, k, g)
    ensures var key := read.key;
            var written := View(Exec(before + [read] + during[..n + 1], max, k, g).entries, key);
            var found := Exec(before + [read] + during, max, k, g).entries;
            var left := Exec(before + [read] + during + [last], max, k, g).entries;
            && key !in left
            && (key in found && !found[key].IsExpired(now) <==>
                written.Some? && !(written.value.1.Some? && now > written.value.1.value))
  {
    RemovalUndoes(before, read, during, last, max, k, g);
    SameView(before + [read], during, n + 1, |during|, read.key, max, k, g);
    assert during[..|during|] == during;
  }

  // ----- Runs that lose a write

  /** The moves of one uninterrupted set at one time. */
  function SetMoves(key: string, data: Bytes, ttl: Option<nat>, at: int): seq<Move> {
    [] + [SetClean(0, key, Some(data), ttl, at)] + [SetEvict(0, "")] + [SetInsert(0, at)]
  }

  lemma SetRuns(moves: seq<Move>, key: string, data: Bytes, ttl: Option<nat>, at: int)
    requires Legal(moves, None, 1, 1) && Exec(moves, None, 1, 1).sets == map[] && |Exec(moves, None, 1, 1).gets| <= 1
    ensures Legal(moves + SetMoves(key, data, ttl, at), None, 1, 1)
    ensures var w, w' := Exec(moves, None, 1, 1), Exec(moves + SetMoves(key, data, ttl, at), None, 1, 1);
            w' == w.(entries := Cleanup(w.entries, at)[key := CacheEntry.New(data, ttl, at)])
  {
    var w := Exec(moves, None, 1, 1);
    var op := Operation.Set(key, Some(data), ttl, "", at, at);
    var m1, m2, m3 := SetClean(0, key, Some(data), ttl, at), SetEvict(0, ""), SetInsert(0, at);
    UninterruptedSet(w, op, 0, None);
    SetWithin(w, op);
    assert SetResult(State(w.entries, NO_STATS), op, None).0.entries ==
           Cleanup(w.entries, at)[key := CacheEntry.New(data, ttl, at)];
    SetMovesAre(moves, key, data, ttl, at);
    hide Legal, Exec, Moved, CanMove, SetResult, SetMoves, Valid, Cleanup;
    LegalSnoc(moves, m1, None, 1, 1);
    LegalSnoc(moves + [m1], m2, None, 1, 1);
    LegalSnoc(moves + [m1] + [m2], m3, None, 1, 1);
  }

  lemma SetMovesAre(moves: seq<Move>, key: string, data: Bytes, ttl: Option<nat>, at: int)
    ensures moves + SetMoves(key, data, ttl, at) ==
            moves + [SetClean(0, key, Some(data), ttl, at)] + [SetEvict(0, "")] + [SetInsert(0, at)]
  {
  }

  /** One set at a time stays within one set in progress. */
  lemma SetWithin(w: World, op: Operation)
    requires w.sets == map[] && op.Set? && op.data.Some?
    ensures var m1 := SetClean(0, op.key, op.data, op.ttl, op.cleanAt);
            var m2, m3 := SetEvict(0, ""), SetInsert(0, op.createAt);
            && CanMove(w, m1, None) && CanMove(Moved(w, m1, None), m2, None)
            && CanMove(Moved(Moved(w, m1, None), m2, None), m3, None)
            && var w1, w2 := Moved(w, m1, None), Moved(Moved(w, m1, None), m2, None);
               var w3 := Moved(w2, m3, None);
               |w1.sets| <= 1 && |w2.sets| <= 1 && |w3.sets| <= 1 && w1.gets == w2.gets == w3.gets == w.gets
  {
    hide Cleanup, Evict, IsLru, Apply;
    assert map[0 := MadeRoom(op.key, op.data, op.ttl)] - {0} == map[];
  }

  lemma ReadRuns(moves: seq<Move>, key: string, checkAt: int)
    requires Legal(moves, None, 1, 1) && Exec(moves, None, 1, 1).gets == map[]
    requires key in Exec(moves, None, 1, 1).entries && |Exec(moves, None, 1, 1).sets| <= 1
    ensures var m := GetRead(0, key, _ => true, checkAt); var w := Exec(moves, None, 1, 1);
            && Legal(moves + [m], None, 1, 1)
            && Exec(moves + [m], None, 1, 1) ==
               w.(gets := map[0 := if w.entries[key].IsExpired(checkAt) then Late(key) else Found(key, w.entries[key])])
  {
    hide Legal, Apply;
    var w, m := Exec(moves, None, 1, 1), GetRead(0, key, _ => true, checkAt);
    var c := if w.entries[key].IsExpired(checkAt) then Late(key) else Found(key, w.entries[key]);
    assert Moved(w, m, None) == w.(gets := map[0 := c]);
    LegalSnoc(moves, m, None, 1, 1);
  }

  lemma PutBackRuns(moves: seq<Move>, key: string, entry: CacheEntry)
    requires Legal(moves, None, 1, 1) && Exec(moves, None, 1, 1).gets == map[0 := Found(key, entry)]
    requires |Exec(moves, None, 1, 1).sets| <= 1
    ensures Legal(moves + [GetPutBack(0, 0)], None, 1, 1)
    ensures View(Exec(moves + [GetPutBack(0, 0)], None, 1, 1).entries, key) == Some((entry.data, entry.expiresAt))
  {
    hide Legal, Apply;
    LegalSnoc(moves, GetPutBack(0, 0), None, 1, 1);
  }

  lemma RemoveRuns(moves: seq<Move>, key: string)
    requires Legal(moves, None, 1, 1) && Exec(moves, None, 1, 1).gets == map[0 := Late(key)]
    requires |Exec(moves, None, 1, 1).sets| <= 1
    ensures Legal(moves + [GetRemove(0)], None, 1, 1) && key !in Exec(moves + [GetRemove(0)], None, 1, 1).entries
  {
    hide Legal, Apply;
    LegalSnoc(moves, GetRemove(0), None, 1, 1);
  }

  lemma OneEntry(key: string, data: Bytes, ttl: Option<nat>)
    ensures var moves := SetMoves(key, data, ttl, 0);
            && Legal(moves, None, 1, 1)
            && Exec(moves, None, 1, 1) == NEW.(entries := map[key := CacheEntry.New(data, ttl, 0)])
  {
    assert [] + SetMoves(key, data, ttl, 0) == SetMoves(key, data, ttl, 0);
    assert Cleanup(map[], 0) == map[];
    hide SetMoves;
    SetRuns([], key, data, ttl, 0);
  }

  /** A lost update: a set that ran while a get was between its read and its re-insertion leaves no trace. */
  lemma SetLost(key: string, first: Bytes, second: Bytes)
    ensures var read := SetMoves(key, first, None, 0) + [GetRead(0, key, _ => true, 0)];
            var set2 := read + SetMoves(key, second, None, 0);
            && Legal(set2, None, 1, 1) && View(Exec(set2, None, 1, 1).entries, key) == Some((second, None))
            && Legal(set2 + [GetPutBack(0, 0)], None, 1, 1)
            && View(Exec(set2 + [GetPutBack(0, 0)], None, 1, 1).entries, key) == Some((first, None))
  {
    hide Legal, Exec, SetMoves, Cleanup;
    OneEntry(key, first, None);
    var moves := SetMoves(key, first, None, 0);
    ReadRuns(moves, key, 0);
    SetRuns(moves + [GetRead(0, key, _ => true, 0)], key, second, None, 0);
    PutBackRuns(moves + [GetRead(0, key, _ => true, 0)] + SetMoves(key, second, None, 0), key, CacheEntry.New(first, None, 0));
  }

  /** And a key deleted meanwhile, with `true` answered, is there again. */
  lemma DeleteLost(key: string, data: Bytes)
    ensures var read := SetMoves(key, data, None, 0) + [GetRead(0, key, _ => true, 0)];
            var moves := read + [Whole(Delete(key, 0))] + [GetPutBack(0, 0)];
            && Legal(read, None, 1, 1) && Legal(read + [Whole(Delete(key, 0))], None, 1, 1) && Legal(moves, None, 1, 1)
            && key in Exec(read, None, 1, 1).entries && key !in Exec(read + [Whole(Delete(key, 0))], None, 1, 1).entries
            && View(Exec(moves, None, 1, 1).entries, key) == Some((data, None))
  {
    hide Legal, Exec, SetMoves, GetResult, SetResult, Cleanup;
    OneEntry(key, data, None);
    var moves := SetMoves(key, data, None, 0);
    ReadRuns(moves, key, 0);
    var read := moves + [GetRead(0, key, _ => true, 0)];
    LegalSnoc(read, Whole(Delete(key, 0)), None, 1, 1);
    PutBackRuns(read + [Whole(Delete(key, 0))], key, CacheEntry.New(data, None, 0));
  }

  /**
   The other way to lose a set, with the clock never going back: a get cleans up at one second, when
   the entry is not late yet, and finds it late at two; a set stores a value that never expires; the
   get removes it.
   */
  lemma LateSetLost(key: string, first: Bytes, second: Bytes)
    ensures var read := SetMoves(key, first, Some(1), 0) + [Whole(CleanupExpired(SECOND))] +
                        [GetRead(0, key, _ => true, 2 * SECOND)];
            var set2 := read + SetMoves(key, second, None, 2 * SECOND);
            && Legal(set2, None, 1, 1) && View(Exec(set2, None, 1, 1).entries, key) == Some((second, None))
            && Legal(set2 + [GetRemove(0)], None, 1, 1) && key !in Exec(set2 + [GetRemove(0)], None, 1, 1).entries
  {
    hide Legal, Exec, SetMoves, GetResult, SetResult;
    OneEntry(key, first, Some(1));
    var moves := SetMoves(key, first, Some(1), 0);
    var w := Exec(moves, None, 1, 1);
    assert Cleanup(w.entries, SECOND) == w.entries;
    LegalSnoc(moves, Whole(CleanupExpired(SECOND)), None, 1, 1);
    var cleaned := moves + [Whole(CleanupExpired(SECOND))];
    hide Cleanup;
    ReadRuns(cleaned, key, 2 * SECOND);
    var read := cleaned + [GetRead(0, key, _ => true, 2 * SECOND)];
    SetRuns(read, key, second, None, 2 * SECOND);
    RemoveRuns(read + SetMoves(key, second, None, 2 * SECOND), key);
  }
}
