/**
 Overlapping calls on the cache, one step per lock acquisition: the cleanup, the eviction and the
 insertion of a `set`, and the cleanup, the read and the removal or re-insertion of a `get`, may be
 separated by any steps of other calls.
 */
module CacheInterleaving {
  import opened Wrappers
  import opened Basics
  import opened MemoryCache
  import opened CacheRecency

  /** A `set` call after its cleanup, or after its eviction. */
  datatype SetCall =
    | Cleaned(key: string, data: Option<Bytes>, ttl: Option<nat>)
    | MadeRoom(key: string, data: Option<Bytes>, ttl: Option<nat>)

  /** A `get` call after its read: it found the entry too late, or is to put it back. */
  datatype GetCall =
    | Late(key: string)
    | Found(key: string, entry: CacheEntry)

  /** The entries, the calls in progress, and a history variable: how many times a get put back a key that was gone. */
  datatype World = World(entries: Entries, sets: map<nat, SetCall>, gets: map<nat, GetCall>, putBack: nat)

  const NEW := World(map[], map[], map[], 0)

  datatype Move =
    | SetClean(call: nat, key: string, data: Option<Bytes>, ttl: Option<nat>, now: int)
    | SetEvict(call: nat, victim: string)
    | SetInsert(call: nat, now: int)
    | Whole(op: Operation)                      // any other call as one step; a get's own cleanup
    | GetRead(call: nat, key: string, decodable: Bytes -> bool, checkAt: int)
    | GetRemove(call: nat)
    | GetPutBack(call: nat, now: int)

  predicate CanMove(w: World, m: Move, max: Option<nat>) {
    match m
    case SetClean(i, _, _, _, _) => i !in w.sets
    case SetEvict(i, victim) => i in w.sets && w.sets[i].Cleaned? && MayEvict(w.entries, max, victim)
    case SetInsert(i, _) => i in w.sets && w.sets[i].MadeRoom?
    case Whole(op) => !op.Set?
    case GetRead(i, _, _, _) => i !in w.gets
    case GetRemove(i) => i in w.gets && w.gets[i].Late?
    case GetPutBack(i, _) => i in w.gets && w.gets[i].Found?
  }

  function Moved(w: World, m: Move, max: Option<nat>): World
    requires CanMove(w, m, max)
  {
    match m
    case SetClean(i, key, data, ttl, now) =>
      w.(entries := Cleanup(w.entries, now), sets := w.sets[i := Cleaned(key, data, ttl)])
    case SetEvict(i, victim) =>
      var c := w.sets[i];
      w.(entries := Evict(w.entries, max, victim), sets := w.sets[i := MadeRoom(c.key, c.data, c.ttl)])
    case SetInsert(i, now) =>
      var c := w.sets[i];
      w.(entries := if c.data.None? then w.entries else w.entries[c.key := CacheEntry.New(c.data.value, c.ttl, now)],
         sets := w.sets - {i})
    case Whole(op) => w.(entries := Apply(State(w.entries, NO_STATS), op, max).0.entries)
    case GetRead(i, key, decodable, checkAt) =>
      if key !in w.entries then w
      else if w.entries[key].IsExpired(checkAt) then w.(gets := w.gets[i := Late(key)])
      else if !decodable(w.entries[key].data) then w
      else w.(gets := w.gets[i := Found(key, w.entries[key])])
    case GetRemove(i) =>
      w.(entries := w.entries - {w.gets[i].key}, gets := w.gets - {i})
    case GetPutBack(i, now) =>
      var c := w.gets[i];
      w.(entries := w.entries[c.key := c.entry.MarkAccessed(now)], gets := w.gets - {i},
         putBack := if c.key in w.entries then w.putBack else w.putBack + 1)
  }

  /** A schedule with never more than `k` sets and `g` gets in progress. */
  ghost predicate Legal(moves: seq<Move>, max: Option<nat>, k: nat, g: nat)
    decreases |moves|, 0
  {
    moves != [] ==>
      && Legal(moves[..|moves| - 1], max, k, g)
      && CanMove(Exec(moves[..|moves| - 1], max, k, g), moves[|moves| - 1], max)
      && var w := Moved(Exec(moves[..|moves| - 1], max, k, g), moves[|moves| - 1], max);
         |w.sets| <= k && |w.gets| <= g
  }

  ghost function Exec(moves: seq<Move>, max: Option<nat>, k: nat, g: nat): World
    requires Legal(moves, max, k, g)
    decreases |moves|, 1
  {
    if moves == [] then NEW else Moved(Exec(moves[..|moves| - 1], max, k, g), moves[|moves| - 1], max)
  }

  /** The three steps of a set with nothing between them are the sequential set. */
  lemma UninterruptedSet(w: World, op: Operation, i: nat, max: Option<nat>)
    requires op.Set? && i !in w.sets && Valid(State(w.entries, NO_STATS), op, max)
    ensures var m1 := SetClean(i, op.key, op.data, op.ttl, op.cleanAt);
            var m2, m3 := SetEvict(i, op.victim), SetInsert(i, op.createAt);
            && CanMove(w, m1, max) && CanMove(Moved(w, m1, max), m2, max)
            && CanMove(Moved(Moved(w, m1, max), m2, max), m3, max)
            && Moved(Moved(Moved(w, m1, max), m2, max), m3, max) ==
               w.(entries := SetResult(State(w.entries, NO_STATS), op, max).0.entries)
  {
    hide Cleanup, Evict, IsLru, NeedsEviction;
    var c := MadeRoom(op.key, op.data, op.ttl);
    assert w.sets[i := Cleaned(op.key, op.data, op.ttl)][i := c] - {i} == w.sets;
  }

  /** The step that ends a get after its read, if there is one. */
  function LastStep(c: GetCall, i: nat, touchAt: int): Move {
    if c.Late? then GetRemove(i) else GetPutBack(i, touchAt)
  }

  lemma GetCases(s: State, op: Operation)
    requires op.Get?
    ensures var es, (s', answer) := Cleanup(s.entries, op.cleanAt), GetResult(s, op);
            if op.key !in es then s'.entries == es && answer == Value(None)
            else if es[op.key].IsExpired(op.checkAt) then s'.entries == es - {op.key} && answer == Value(None)
            else if !op.decodable(es[op.key].data) then s'.entries == es && answer == Failed(DeserializationError)
            else s'.entries == es[op.key := es[op.key].MarkAccessed(op.touchAt)] && answer == Value(Some(es[op.key].data))
  {
    hide Cleanup;
  }

  lemma ReadAfterCleanup(w: World, op: Operation, i: nat, max: Option<nat>)
    requires op.Get? && i !in w.gets
    ensures var m1, m2 := Whole(CleanupExpired(op.cleanAt)), GetRead(i, op.key, op.decodable, op.checkAt);
            var w1 := w.(entries := Cleanup(w.entries, op.cleanAt));
            && CanMove(w, m1, max) && Moved(w, m1, max) == w1 && CanMove(w1, m2, max)
            && Moved(w1, m2, max) ==
               if op.key !in w1.entries then w1
               else if w1.entries[op.key].IsExpired(op.checkAt) then w1.(gets := w.gets[i := Late(op.key)])
               else if !op.decodable(w1.entries[op.key].data) then w1
               else w1.(gets := w.gets[i := Found(op.key, w1.entries[op.key])])
  {
    hide Cleanup, Evict, MayEvict;
  }

  lemma GetFinishes(w: World, c: GetCall, i: nat, touchAt: int, max: Option<nat>)
    requires i !in w.gets && c.key in w.entries
    ensures var w', m := w.(gets := w.gets[i := c]), LastStep(c, i, touchAt);
            && CanMove(w', m, max)
            && Moved(w', m, max) ==
               w.(entries := if c.Late? then w.entries - {c.key} else w.entries[c.key := c.entry.MarkAccessed(touchAt)])
  {
    hide Apply, Cleanup, Evict, MayEvict;
    assert w.gets[i := c] - {i} == w.gets;
  }

  /** The steps of a get with nothing between them are the sequential get, whatever it answers. */
  lemma UninterruptedGet(w: World, op: Operation, i: nat, max: Option<nat>)
    requires op.Get? && i !in w.gets
    ensures var m1, m2 := Whole(CleanupExpired(op.cleanAt)), GetRead(i, op.key, op.decodable, op.checkAt);
            var (s, answer) := GetResult(State(w.entries, NO_STATS), op);
            && CanMove(w, m1, max) && CanMove(Moved(w, m1, max), m2, max)
            && var w2 := Moved(Moved(w, m1, max), m2, max);
               if i !in w2.gets then w2 == w.(entries := s.entries) && (answer == Value(None) || answer.Failed?)
               else
                 var c := w2.gets[i];
                 && CanMove(w2, LastStep(c, i, op.touchAt), max)
                 && Moved(w2, LastStep(c, i, op.touchAt), max) == w.(entries := s.entries)
                 && answer == Value(if c.Late? then None else Some(c.entry.data))
  {
    var es := Cleanup(w.entries, op.cleanAt);
    var w1 := w.(entries := es);
    GetCases(State(w.entries, NO_STATS), op);
    ReadAfterCleanup(w, op, i, max);
    hide Moved, CanMove, Cleanup, GetResult;
    if op.key in es && es[op.key].IsExpired(op.checkAt) {
      GetFinishes(w1, Late(op.key), i, op.touchAt, max);
    } else if op.key in es && op.decodable(es[op.key].data) {
      GetFinishes(w1, Found(op.key, es[op.key]), i, op.touchAt, max);
    }
  }

  // ----- The bound

  /** The sets between their eviction and their insertion. */
  function Pending(sets: map<nat, SetCall>): set<nat> {
    set i | i in sets && sets[i].MadeRoom?
  }

  ghost predicate SizeInv(w: World, max: nat, k: nat) {
    |w.entries| + |Pending(w.sets)| <= Bound(max) - 1 + k + w.putBack
  }

  lemma PendingWithin(sets: map<nat, SetCall>)
    ensures |Pending(sets)| <= |sets|
  {
    SubsetSize(Pending(sets), sets.Keys);
    assert |sets| == |sets.Keys|;
  }

  lemma SetCleanSize(w: World, m: Move, max: nat, k: nat)
    requires m.SetClean? && CanMove(w, m, Some(max)) && SizeInv(w, max, k)
    ensures SizeInv(Moved(w, m, Some(max)), max, k)
  {
    CleanupSize(w.entries, m.now);
    assert Pending(w.sets[m.call := Cleaned(m.key, m.data, m.ttl)]) == Pending(w.sets);
  }

  lemma PendingGrows(sets: map<nat, SetCall>, i: nat, c: SetCall)
    requires i in sets && sets[i].Cleaned? && c.MadeRoom?
    ensures |Pending(sets[i := c])| == |Pending(sets)| + 1 <= |sets|
  {
    assert Pending(sets[i := c]) == Pending(sets) + {i};
    assert sets[i := c].Keys == sets.Keys;
    assert |sets[i := c]| == |sets[i := c].Keys| && |sets| == |sets.Keys|;
    PendingWithin(sets[i := c]);
  }

  lemma EvictSize(es: Entries, max: nat, victim: string)
    requires MayEvict(es, Some(max), victim)
    ensures |Evict(es, Some(max), victim)| <= if |es| <= Bound(max) - 1 then Bound(max) - 1 else |es| - 1
  {
    RemoveSize(es, victim);
  }

  /** Below capacity there is room for every overlapping call; at capacity the eviction pays for the insertion. */
  lemma SetEvictSize(w: World, m: Move, max: nat, k: nat)
    requires m.SetEvict? && CanMove(w, m, Some(max)) && SizeInv(w, max, k) && |w.sets| <= k
    ensures SizeInv(Moved(w, m, Some(max)), max, k)
  {
    hide Pending, Evict, MayEvict;
    var c := w.sets[m.call];
    PendingGrows(w.sets, m.call, MadeRoom(c.key, c.data, c.ttl));
    EvictSize(w.entries, max, m.victim);
  }

  lemma SetInsertSize(w: World, m: Move, max: nat, k: nat)
    requires m.SetInsert? && CanMove(w, m, Some(max)) && SizeInv(w, max, k)
    ensures SizeInv(Moved(w, m, Some(max)), max, k)
  {
    var w' := Moved(w, m, Some(max));
    assert Pending(w'.sets) == Pending(w.sets) - {m.call};
    assert m.call in Pending(w.sets);
    var c := w.sets[m.call];
    if c.data.Some? {
      UpdateSize(w.entries, c.key, CacheEntry.New(c.data.value, c.ttl, m.now));
    }
  }

  lemma WholeSize(w: World, m: Move, max: nat, k: nat)
    requires m.Whole? && CanMove(w, m, Some(max)) && SizeInv(w, max, k)
    ensures SizeInv(Moved(w, m, Some(max)), max, k)
  {
    hide GetResult, Cleanup;
    var s, op := State(w.entries, NO_STATS), m.op;
    if op.Get? {
      GetSize(s, op);
    } else if op.Delete? {
      RemoveSize(s.entries, op.key);
    } else if op.Expire? {
      if op.key in s.entries {
        UpdateSize(s.entries, op.key, s.entries[op.key].(expiresAt := Some(Deadline(op.expireAt, op.ttlSeconds))));
      }
    } else if !op.Clear? {
      CleanupSize(s.entries, op.cleanAt);
    }
  }

  lemma GetStepsSize(w: World, m: Move, max: nat, k: nat)
    requires SplitsGet(m) && CanMove(w, m, Some(max)) && SizeInv(w, max, k)
    ensures SizeInv(Moved(w, m, Some(max)), max, k)
  {
    if m.GetRemove? {
      RemoveSize(w.entries, w.gets[m.call].key);
    } else if m.GetPutBack? {
      UpdateSize(w.entries, w.gets[m.call].key, w.gets[m.call].entry.MarkAccessed(m.now));
    }
  }

  /**
   With at most `k` sets in progress at a time, the cache never holds more than the capacity less
   one, plus `k`, plus one for each key a get put back after it had been removed.
   */
  lemma {:induction false} OverlappingSetsBound(moves: seq<Move>, max: nat, k: nat, g: nat)
    requires Legal(moves, Some(max), k, g)
    ensures var w := Exec(moves, Some(max), k, g);
            |w.entries| + |Pending(w.sets)| <= Bound(max) - 1 + k + w.putBack && |w.sets| <= k
  {
    hide Moved, Pending;
    if moves == [] {
      assert Pending(map[]) == {} by {
        PendingWithin(map[]);
      }
    } else {
      var rest, m := moves[..|moves| - 1], moves[|moves| - 1];
      OverlappingSetsBound(rest, max, k, g);
      var w := Exec(rest, Some(max), k, g);
      match m {
        case SetClean(_, _, _, _, _) => SetCleanSize(w, m, max, k);
        case SetEvict(_, _) => SetEvictSize(w, m, max, k);
        case SetInsert(_, _) => SetInsertSize(w, m, max, k);
        case Whole(_) => WholeSize(w, m, max, k);
        case _ => GetStepsSize(w, m, max, k);
      }
    }
  }

  predicate SplitsGet(m: Move) {
    m.GetRead? || m.GetRemove? || m.GetPutBack?
  }

  lemma {:induction false} WholeGetsPutNothingBack(moves: seq<Move>, max: Option<nat>, k: nat, g: nat)
    requires Legal(moves, max, k, g) && forall m | m in moves :: !SplitsGet(m)
    ensures Exec(moves, max, k, g).putBack == 0
  {
    if moves == [] {
    } else {
      WholeGetsPutNothingBack(moves[..|moves| - 1], max, k, g);
      assert moves[|moves| - 1] in moves;
    }
  }

  /** When every get runs as one step, `k` overlapping sets exceed the capacity by at most `k - 1`. */
  lemma CapacityUnderOverlap(moves: seq<Move>, max: nat, k: nat)
    requires Legal(moves, Some(max), k, 0) && forall m | m in moves :: !SplitsGet(m)
    ensures |Exec(moves, Some(max), k, 0).entries| <= Bound(max) - 1 + k
  {
    OverlappingSetsBound(moves, max, k, 0);
    WholeGetsPutNothingBack(moves, Some(max), k, 0);
  }

  // ----- The bound is reached

  function Key(j: nat): string {
    seq(j, _ => 'k')
  }

  /** The entries under the first `n` keys. */
  function Filled(n: nat): (es: Entries)
    ensures |es| == n && NoDeadlines(es) && forall key | key in es :: |key| < n
  {
    if n == 0 then map[]
    else
      UpdateSize(Filled(n - 1), Key(n - 1), CacheEntry.New([], None, 0));
      Filled(n - 1)[Key(n - 1) := CacheEntry.New([], None, 0)]
  }

  /** Sets of the keys in order: `cleaned` have cleaned up, `evicted` of them evicted, `inserted` of those inserted. */
  datatype Progress = Progress(cleaned: nat, evicted: nat, inserted: nat)

  predicate InOrder(g: Progress) {
    g.inserted <= g.evicted <= g.cleaned
  }

  function SetAt(evicted: nat, j: nat): SetCall {
    if j < evicted then MadeRoom(Key(j), Some([]), None) else Cleaned(Key(j), Some([]), None)
  }

  /** The calls numbered from `inserted` to `n`, of which those below `evicted` have evicted. */
  function Sets(inserted: nat, evicted: nat, n: nat): map<nat, SetCall> {
    if n <= inserted then map[] else Sets(inserted, evicted, n - 1)[n - 1 := SetAt(evicted, n - 1)]
  }

  lemma {:induction false} SetsMeaning(inserted: nat, evicted: nat, n: nat)
    requires inserted <= n
    ensures forall j: nat :: j in Sets(inserted, evicted, n) <==> inserted <= j < n
    ensures |Sets(inserted, evicted, n)| == n - inserted
  {
    hide SetAt;
    if n == inserted {
    } else {
      SetsMeaning(inserted, evicted, n - 1);
    }
  }

  function WorldAt(g: Progress): World
    requires InOrder(g)
  {
    World(Filled(g.inserted), Sets(g.inserted, g.evicted, g.cleaned), map[], 0)
  }

  function CleanMove(g: Progress): Move {
    SetClean(g.cleaned, Key(g.cleaned), Some([]), None, 0)
  }

  function EvictMove(g: Progress): Move {
    SetEvict(g.evicted, "")
  }

  function InsertMove(g: Progress): Move {
    SetInsert(g.inserted, 0)
  }

  lemma SetsGrow(inserted: nat, evicted: nat, n: nat)
    requires inserted <= n && evicted <= n
    ensures Sets(inserted, evicted, n + 1) == Sets(inserted, evicted, n)[n := Cleaned(Key(n), Some([]), None)]
  {
    hide Key;
  }

  /** Below `n` all have evicted already. */
  lemma {:induction false} SameSets(inserted: nat, evicted: nat, n: nat)
    requires n <= evicted
    ensures Sets(inserted, evicted, n) == Sets(inserted, evicted + 1, n)
  {
    hide Key;
    if n <= inserted {
    } else {
      SameSets(inserted, evicted, n - 1);
    }
  }

  lemma {:induction false} SetsEvict(inserted: nat, evicted: nat, n: nat)
    requires inserted <= evicted < n
    ensures var sets := Sets(inserted, evicted, n);
            && evicted in sets && sets[evicted] == Cleaned(Key(evicted), Some([]), None)
            && sets[evicted := MadeRoom(Key(evicted), Some([]), None)] == Sets(inserted, evicted + 1, n)
  {
    hide Key;
    if n == evicted + 1 {
      SameSets(inserted, evicted, evicted);
    } else {
      SetsEvict(inserted, evicted, n - 1);
      UpdateTwice(Sets(inserted, evicted, n - 1), n - 1, SetAt(evicted, n - 1), evicted, SetAt(evicted + 1, evicted));
    }
  }

  lemma UpdateTwice(sets: map<nat, SetCall>, j: nat, c: SetCall, i: nat, d: SetCall)
    requires i != j
    ensures sets[j := c][i := d] == sets[i := d][j := c]
  {
  }

  lemma {:induction false} SetsInsert(inserted: nat, evicted: nat, n: nat)
    requires inserted < evicted && inserted < n
    ensures var sets := Sets(inserted, evicted, n);
            && inserted in sets && sets[inserted] == MadeRoom(Key(inserted), Some([]), None)
            && sets - {inserted} == Sets(inserted + 1, evicted, n)
  {
    hide Key;
    if n == inserted + 1 {
      assert Sets(inserted, evicted, n) - {inserted} == map[];
    } else {
      SetsInsert(inserted, evicted, n - 1);
      UpdateThenRemove(Sets(inserted, evicted, n - 1), n - 1, SetAt(evicted, n - 1), inserted);
    }
  }

  lemma UpdateThenRemove(sets: map<nat, SetCall>, j: nat, c: SetCall, i: nat)
    requires i != j
    ensures sets[j := c] - {i} == (sets - {i})[j := c]
  {
  }

  lemma CleanNext(g: Progress, max: nat)
    requires InOrder(g)
    ensures var m, g' := CleanMove(g), g.(cleaned := g.cleaned + 1);
            InOrder(g') && CanMove(WorldAt(g), m, Some(max)) && Moved(WorldAt(g), m, Some(max)) == WorldAt(g')
  {
    CleanupOfNoDeadlines(Filled(g.inserted), 0);
    SetsMeaning(g.inserted, g.evicted, g.cleaned);
    SetsGrow(g.inserted, g.evicted, g.cleaned);
    hide Apply, Cleanup, Evict, MayEvict, Filled, Sets, Key;
  }

  lemma EvictNext(g: Progress, max: nat)
    requires InOrder(g) && g.evicted < g.cleaned && g.inserted < Bound(max)
    ensures var m, g' := EvictMove(g), g.(evicted := g.evicted + 1);
            InOrder(g') && CanMove(WorldAt(g), m, Some(max)) && Moved(WorldAt(g), m, Some(max)) == WorldAt(g')
  {
    assert !NeedsEviction(Filled(g.inserted), Some(max));
    SetsEvict(g.inserted, g.evicted, g.cleaned);
    hide Apply, Cleanup, IsLru, Filled, Sets, NeedsEviction, Key;
  }

  lemma InsertNext(g: Progress, max: nat)
    requires InOrder(g) && g.inserted < g.evicted
    ensures var m, g' := InsertMove(g), g.(inserted := g.inserted + 1);
            InOrder(g') && CanMove(WorldAt(g), m, Some(max)) && Moved(WorldAt(g), m, Some(max)) == WorldAt(g')
  {
    assert Filled(g.inserted + 1) == Filled(g.inserted)[Key(g.inserted) := CacheEntry.New([], None, 0)];
    SetsInsert(g.inserted, g.evicted, g.cleaned);
    hide Apply, Cleanup, Evict, MayEvict, Filled, Sets, Key;
  }

  /** A schedule of set steps to `g` with at most `k` sets in progress. */
  ghost predicate Reaches(moves: seq<Move>, g: Progress, max: nat, k: nat) {
    && InOrder(g) && Legal(moves, Some(max), k, 0) && Exec(moves, Some(max), k, 0) == WorldAt(g)
    && forall m | m in moves :: !SplitsGet(m)
  }

  lemma ReachesOn(moves: seq<Move>, g: Progress, max: nat, k: nat, m: Move, g': Progress)
    requires Reaches(moves, g, max, k) && InOrder(g') && g'.cleaned - g'.inserted <= k && !SplitsGet(m)
    requires CanMove(WorldAt(g), m, Some(max)) && Moved(WorldAt(g), m, Some(max)) == WorldAt(g')
    ensures Reaches(moves + [m], g', max, k)
  {
    SetsMeaning(g'.inserted, g'.evicted, g'.cleaned);
    hide Moved, CanMove;
    LegalSnoc(moves, m, Some(max), k, 0);
  }

  lemma CleanOn(moves: seq<Move>, g: Progress, max: nat, k: nat)
    requires Reaches(moves, g, max, k) && InOrder(g) && g.cleaned - g.inserted < k
    ensures Reaches(moves + [CleanMove(g)], g.(cleaned := g.cleaned + 1), max, k)
  {
    hide Reaches, Moved, CanMove, WorldAt;
    CleanNext(g, max);
    ReachesOn(moves, g, max, k, CleanMove(g), g.(cleaned := g.cleaned + 1));
  }

  lemma EvictOn(moves: seq<Move>, g: Progress, max: nat, k: nat)
    requires Reaches(moves, g, max, k) && InOrder(g) && g.evicted < g.cleaned && g.inserted < Bound(max)
    requires g.cleaned - g.inserted <= k
    ensures Reaches(moves + [EvictMove(g)], g.(evicted := g.evicted + 1), max, k)
  {
    hide Reaches, Moved, CanMove, WorldAt;
    EvictNext(g, max);
    ReachesOn(moves, g, max, k, EvictMove(g), g.(evicted := g.evicted + 1));
  }

  lemma InsertOn(moves: seq<Move>, g: Progress, max: nat, k: nat)
    requires Reaches(moves, g, max, k) && InOrder(g) && g.inserted < g.evicted && g.cleaned - g.inserted <= k
    ensures Reaches(moves + [InsertMove(g)], g.(inserted := g.inserted + 1), max, k)
  {
    hide Reaches, Moved, CanMove, WorldAt;
    InsertNext(g, max);
    ReachesOn(moves, g, max, k, InsertMove(g), g.(inserted := g.inserted + 1));
  }

  /** The first sets run one after the other. */
  lemma {:induction false} FillUp(max: nat, k: nat, n: nat) returns (moves: seq<Move>)
    requires n < Bound(max) && 1 <= k
    ensures Reaches(moves, Progress(n, n, n), max, k)
  {
    if n == 0 {
      moves := [];
    } else {
      hide Reaches, CleanMove, EvictMove, InsertMove;
      var rest := FillUp(max, k, n - 1);
      var g1, g2, g3 := Progress(n - 1, n - 1, n - 1), Progress(n, n - 1, n - 1), Progress(n, n, n - 1);
      CleanOn(rest, g1, max, k);
      EvictOn(rest + [CleanMove(g1)], g2, max, k);
      InsertOn(rest + [CleanMove(g1)] + [EvictMove(g2)], g3, max, k);
      moves := rest + [CleanMove(g1)] + [EvictMove(g2)] + [InsertMove(g3)];
    }
  }

  /** Then `k` sets clean up, before any evicts. */
  lemma {:induction false} AllClean(max: nat, k: nat, i: nat) returns (moves: seq<Move>)
    requires 1 <= k && i <= k
    ensures var n := Bound(max) - 1; Reaches(moves, Progress(n + i, n, n), max, k)
  {
    hide Reaches, CleanMove;
    var n := Bound(max) - 1;
    if i == 0 {
      moves := FillUp(max, k, n);
    } else {
      moves := AllClean(max, k, i - 1);
      CleanOn(moves, Progress(n + i - 1, n, n), max, k);
      moves := moves + [CleanMove(Progress(n + i - 1, n, n))];
    }
  }

  /** All of them find room. */
  lemma {:induction false} AllEvict(max: nat, k: nat, i: nat) returns (moves: seq<Move>)
    requires 1 <= k && i <= k
    ensures var n := Bound(max) - 1; Reaches(moves, Progress(n + k, n + i, n), max, k)
  {
    hide Reaches, EvictMove;
    var n := Bound(max) - 1;
    if i == 0 {
      moves := AllClean(max, k, k);
    } else {
      moves := AllEvict(max, k, i - 1);
      EvictOn(moves, Progress(n + k, n + i - 1, n), max, k);
      moves := moves + [EvictMove(Progress(n + k, n + i - 1, n))];
    }
  }

  /** All of them insert. */
  lemma {:induction false} AllInsert(max: nat, k: nat, i: nat) returns (moves: seq<Move>)
    requires 1 <= k && i <= k
    ensures var n := Bound(max) - 1; Reaches(moves, Progress(n + k, n + k, n + i), max, k)
  {
    hide Reaches, InsertMove;
    var n := Bound(max) - 1;
    if i == 0 {
      moves := AllEvict(max, k, k);
    } else {
      moves := AllInsert(max, k, i - 1);
      InsertOn(moves, Progress(n + k, n + k, n + i - 1), max, k);
      moves := moves + [InsertMove(Progress(n + k, n + k, n + i - 1))];
    }
  }

  /** The bound is the least one, for every capacity and every number of overlapping sets. */
  lemma BoundIsReached(max: nat, k: nat) returns (moves: seq<Move>)
    requires 1 <= k
    ensures Legal(moves, Some(max), k, 0) && forall m | m in moves :: !SplitsGet(m)
    ensures |Exec(moves, Some(max), k, 0).entries| == Bound(max) - 1 + k
  {
    hide Legal, Exec;
    moves := AllInsert(max, k, k);
  }

  // ----- No bound when gets are split

  lemma {:induction false} LongerThanAll(keys: set<string>) returns (n: nat)
    ensures forall k | k in keys :: |k| < n
  {
    if keys == {} {
      n := 0;
    } else {
      var k :| k in keys;
      n := LongerThanAll(keys - {k});
      n := if |k| < n then n else |k| + 1;
    }
  }

  lemma FreshKey(keys: set<string>) returns (key: string)
    ensures key !in keys
  {
    var n := LongerThanAll(keys);
    key := seq(n, _ => 'k');
  }

  lemma {:induction false} SomeLru(es: Entries, among: set<string>) returns (key: string)
    requires among <= es.Keys && among != {}
    ensures key in among && forall j | j in among :: es[key].Recency() <= es[j].Recency()
  {
    key :| key in among;
    if among - {key} == {} {
      assert among == {key};
    } else {
      var other := SomeLru(es, among - {key});
      if es[other].Recency() < es[key].Recency() {
        key := other;
      }
    }
  }

  /** A quiet world of entries that never expire. */
  ghost predicate Quiet(w: World) {
    w.sets == map[] && w.gets == map[] && w.entries != map[] && NoDeadlines(w.entries)
  }

  lemma LegalSnoc(moves: seq<Move>, m: Move, max: Option<nat>, k: nat, g: nat)
    requires Legal(moves, max, k, g) && CanMove(Exec(moves, max, k, g), m, max)
    requires var w := Moved(Exec(moves, max, k, g), m, max); |w.sets| <= k && |w.gets| <= g
    ensures Legal(moves + [m], max, k, g)
    ensures Exec(moves + [m], max, k, g) == Moved(Exec(moves, max, k, g), m, max)
  {
    assert (moves + [m])[..|moves|] == moves;
  }

  /** The moves of one get and one set: the get reads the oldest key, the set evicts it, the get puts it back. */
  function GrowMoves(oldest: string, newcomer: string): seq<Move> {
    [GetRead(0, oldest, _ => true, 0), SetClean(0, newcomer, Some([]), None, 0), SetEvict(0, oldest), SetInsert(0, 0),
     GetPutBack(0, 0)]
  }

  /** The worlds those moves lead through. */
  function GrowWorlds(es: Entries, oldest: string, newcomer: string, putBack: nat): seq<World>
    requires oldest in es
  {
    var reading := map[0 := Found(oldest, es[oldest])];
    var inserted := (es - {oldest})[newcomer := CacheEntry.New([], None, 0)];
    [ World(es, map[], map[], putBack),
      World(es, map[], reading, putBack),
      World(es, map[0 := Cleaned(newcomer, Some([]), None)], reading, putBack),
      World(es - {oldest}, map[0 := MadeRoom(newcomer, Some([]), None)], reading, putBack),
      World(inserted, map[], reading, putBack),
      World(inserted[oldest := es[oldest].MarkAccessed(0)], map[], map[], putBack + 1) ]
  }

  lemma GrowReads(es: Entries, oldest: string, newcomer: string, putBack: nat)
    requires IsLru(es, oldest) && newcomer !in es && NoDeadlines(es)
    ensures var ms, ws := GrowMoves(oldest, newcomer), GrowWorlds(es, oldest, newcomer, putBack);
            forall i | 0 <= i < 2 :: CanMove(ws[i], ms[i], Some(1)) && Moved(ws[i], ms[i], Some(1)) == ws[i + 1]
  {
    CleanupOfNoDeadlines(es, 0);
    hide Apply, Cleanup, MayEvict;
  }

  lemma GrowEvicts(es: Entries, oldest: string, newcomer: string, putBack: nat)
    requires IsLru(es, oldest)
    ensures var ms, ws := GrowMoves(oldest, newcomer), GrowWorlds(es, oldest, newcomer, putBack);
            CanMove(ws[2], ms[2], Some(1)) && Moved(ws[2], ms[2], Some(1)) == ws[3]
  {
    assert |es| >= 1 by {
      assert oldest in es;
    }
    hide Apply, Cleanup, IsLru;
  }

  lemma GrowWrites(es: Entries, oldest: string, newcomer: string, putBack: nat)
    requires IsLru(es, oldest) && newcomer !in es && NoDeadlines(es)
    ensures var ms, ws := GrowMoves(oldest, newcomer), GrowWorlds(es, oldest, newcomer, putBack);
            forall i | 3 <= i < 5 :: CanMove(ws[i], ms[i], Some(1)) && Moved(ws[i], ms[i], Some(1)) == ws[i + 1]
    ensures var end := GrowWorlds(es, oldest, newcomer, putBack)[5];
            Quiet(end) && |end.entries| == |es| + 1
  {
    var entry := CacheEntry.New([], None, 0);
    var inserted := (es - {oldest})[newcomer := entry];
    RemoveSize(es, oldest);
    UpdateSize(es - {oldest}, newcomer, entry);
    UpdateSize(inserted, oldest, es[oldest].MarkAccessed(0));
    assert oldest in inserted[oldest := es[oldest].MarkAccessed(0)];
    hide Apply, Cleanup, IsLru;
  }

  /** Move `i` leads from world `i` to the next, with at most one set and one get in progress. */
  ghost predicate Leads(ms: seq<Move>, ws: seq<World>, max: Option<nat>, i: nat) {
    && i < |ms| && i + 1 < |ws|
    && CanMove(ws[i], ms[i], max) && Moved(ws[i], ms[i], max) == ws[i + 1]
    && |ws[i + 1].sets| <= 1 && |ws[i + 1].gets| <= 1
  }

  /** A move that leads on from where a schedule ended extends the schedule. */
  lemma FollowMove(moves: seq<Move>, ms: seq<Move>, ws: seq<World>, max: Option<nat>, i: nat)
    requires Leads(ms, ws, max, i)
    requires Legal(moves, max, 1, 1) && Exec(moves, max, 1, 1) == ws[i]
    ensures Legal(moves + [ms[i]], max, 1, 1) && Exec(moves + [ms[i]], max, 1, 1) == ws[i + 1]
  {
    hide Moved, CanMove, Legal, Exec;
    LegalSnoc(moves, ms[i], max, 1, 1);
  }

  lemma GrowOnce(moves: seq<Move>) returns (more: seq<Move>)
    requires Legal(moves, Some(1), 1, 1) && Quiet(Exec(moves, Some(1), 1, 1))
    ensures Legal(more, Some(1), 1, 1) && Quiet(Exec(more, Some(1), 1, 1))
    ensures |Exec(more, Some(1), 1, 1).entries| == |Exec(moves, Some(1), 1, 1).entries| + 1
  {
    var w := Exec(moves, Some(1), 1, 1);
    var oldest := SomeLru(w.entries, w.entries.Keys);
    var newcomer := FreshKey(w.entries.Keys);
    var ms, ws := GrowMoves(oldest, newcomer), GrowWorlds(w.entries, oldest, newcomer, w.putBack);
    hide Moved, CanMove, Legal;
    GrowReads(w.entries, oldest, newcomer, w.putBack);
    GrowEvicts(w.entries, oldest, newcomer, w.putBack);
    GrowWrites(w.entries, oldest, newcomer, w.putBack);
    assert forall i: nat | i < 5 :: Leads(ms, ws, Some(1), i);
    hide Leads, Exec, GrowMoves, GrowWorlds;
    FollowMove(moves, ms, ws, Some(1), 0);
    FollowMove(moves + [ms[0]], ms, ws, Some(1), 1);
    FollowMove(moves + [ms[0]] + [ms[1]], ms, ws, Some(1), 2);
    FollowMove(moves + [ms[0]] + [ms[1]] + [ms[2]], ms, ws, Some(1), 3);
    FollowMove(moves + [ms[0]] + [ms[1]] + [ms[2]] + [ms[3]], ms, ws, Some(1), 4);
    more := moves + [ms[0]] + [ms[1]] + [ms[2]] + [ms[3]] + [ms[4]];
  }

  /**
   A get split by other calls breaks every bound: for any `n`, one get and one set in progress at a
   time can drive a cache of capacity one to more than `n` entries.
   */
  lemma {:induction false} SplitGetsBreakEveryBound(n: nat) returns (moves: seq<Move>)
    ensures Legal(moves, Some(1), 1, 1) && Quiet(Exec(moves, Some(1), 1, 1))
    ensures |Exec(moves, Some(1), 1, 1).entries| == n + 1
  {
    if n == 0 {
      var max := Some(1);
      var m1, m2, m3 := SetClean(0, "", Some([]), None, 0), SetEvict(0, ""), SetInsert(0, 0);
      assert Cleanup(map[], 0) == map[];
      LegalSnoc([], m1, max, 1, 1);
      var w1 := Moved(NEW, m1, max);
      assert w1.entries == map[] && w1.sets == map[0 := Cleaned("", Some([]), None)];
      LegalSnoc([] + [m1], m2, max, 1, 1);
      var w2 := Moved(w1, m2, max);
      assert w2.entries == map[] && w2.sets == map[0 := MadeRoom("", Some([]), None)];
      LegalSnoc([] + [m1] + [m2], m3, max, 1, 1);
      moves := [] + [m1] + [m2] + [m3];
      assert Exec(moves, max, 1, 1).sets == map[];
      assert Exec(moves, max, 1, 1).entries == map["" := CacheEntry.New([], None, 0)];
    } else {
      moves := SplitGetsBreakEveryBound(n - 1);
      moves := GrowOnce(moves);
    }
  }
}
