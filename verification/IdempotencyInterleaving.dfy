/**
 Keyed requests running together: lookup, handler run and store as separate steps. Each may fail, and
 a request may be abandoned by its client between any two.
 */
module IdempotencyInterleaving {
  import opened Basics
  import opened Idempotency

  /** Where a keyed request stands. */
  datatype Call =
    | Arrived(key: Key)
    | Running(key: Key)
    | Ran(key: Key, status: nat, headers: Headers, captured: Body)
    | Replied(key: Key, response: Response, replayed: bool)
    | Abandoned(key: Key)

  /** A history variable: a successful handler run. */
  datatype Run = Run(key: Key, status: nat, headers: Headers, body: BodyStream)

  datatype World = World(rows: Table, calls: map<nat, Call>, runs: map<nat, Run>)

  datatype Move =
    | Look(call: nat, ok: bool)
    | RunHandler(call: nat, status: nat, headers: Headers, body: BodyStream)
    | StoreRow(call: nat, ok: bool)
    | Abandon(call: nat)

  predicate CanMove(w: World, m: Move) {
    && m.call in w.calls
    && match m
       case Look(i, _) => w.calls[i].Arrived?
       case RunHandler(i, _, _, _) => w.calls[i].Running?
       case StoreRow(i, _) => w.calls[i].Ran?
       case Abandon(i) => w.calls[i].Arrived? || w.calls[i].Running? || w.calls[i].Ran?
  }

  function Moved(w: World, m: Move, isUtf8: Body -> bool): World
    requires CanMove(w, m)
  {
    var k := w.calls[m.call].key;
    match m
    case Look(i, ok) =>
      w.(calls := w.calls[i := if ok && k in w.rows then Replied(k, Replay(w.rows[k]), true) else Running(k)])
    case RunHandler(i, status, headers, body) =>
      if Success(status) then
        w.(calls := w.calls[i := Ran(k, status, headers, Captured(body))],
           runs := w.runs[i := Run(k, status, headers, body)])
      else
        w.(calls := w.calls[i := Replied(k, Response(status, headers, body), false)])
    case StoreRow(i, ok) =>
      var c := w.calls[i];
      w.(rows := if ok then Inserted(w.rows, k, RowFor(c.status, c.captured, isUtf8)) else w.rows,
         calls := w.calls[i := Replied(k, Response(c.status, c.headers, Complete(c.captured)), false)])
    case Abandon(i) => w.(calls := w.calls[i := Abandoned(k)])
  }

  ghost predicate Legal(w: World, moves: seq<Move>, isUtf8: Body -> bool)
    decreases |moves|, 0
  {
    moves != [] ==>
      && Legal(w, moves[..|moves| - 1], isUtf8)
      && CanMove(Exec(w, moves[..|moves| - 1], isUtf8), moves[|moves| - 1])
  }

  ghost function Exec(w: World, moves: seq<Move>, isUtf8: Body -> bool): World
    requires Legal(w, moves, isUtf8)
    decreases |moves|, 1
  {
    if moves == [] then w else Moved(Exec(w, moves[..|moves| - 1], isUtf8), moves[|moves| - 1], isUtf8)
  }

  ghost predicate Initial(w: World) {
    w.rows == map[] && w.runs == map[] && forall i | i in w.calls :: w.calls[i].Arrived?
  }

  // ----- Rows never change, and every replay is of a run

  /** A stored row never changes, whatever runs, fails or overlaps. */
  lemma {:induction false} RowsNeverChange(w: World, moves: seq<Move>, isUtf8: Body -> bool, k: Key)
    requires Legal(w, moves, isUtf8) && k in w.rows
    ensures k in Exec(w, moves, isUtf8).rows && Exec(w, moves, isUtf8).rows[k] == w.rows[k]
    decreases |moves|
  {
    if moves == [] {
    } else {
      RowsNeverChange(w, moves[..|moves| - 1], isUtf8, k);
    }
  }

  /** Some successful run of `k` gave this status, and this body as far as a row can hold it. */
  ghost predicate FromRun(w: World, k: Key, status: nat, body: Body, isUtf8: Body -> bool) {
    exists i :: i in w.runs && w.runs[i].key == k &&
                RowFor(w.runs[i].status, Captured(w.runs[i].body), isUtf8) == Row(status, body)
  }

  /** A run belongs to the call that made it, which carries or has given its result. */
  ghost predicate CallsInv(w: World) {
    && (forall i | i in w.runs :: i in w.calls && w.runs[i].key == w.calls[i].key && Success(w.runs[i].status))
    && (forall i | i in w.calls && w.calls[i].Ran? ::
          i in w.runs && w.runs[i].status == w.calls[i].status && Captured(w.runs[i].body) == w.calls[i].captured)
    && (forall i | i in w.calls && (w.calls[i].Arrived? || w.calls[i].Running?) :: i !in w.runs)
  }

  ghost predicate RowsInv(w: World, isUtf8: Body -> bool) {
    forall k | k in w.rows :: FromRun(w, k, w.rows[k].status, w.rows[k].body, isUtf8)
  }

  ghost predicate ReplaysInv(w: World) {
    forall i | i in w.calls && w.calls[i].Replied? && w.calls[i].replayed ::
      && w.calls[i].key in w.rows
      && w.calls[i].response == Replay(w.rows[w.calls[i].key])
  }

  ghost predicate RunInv(w: World, isUtf8: Body -> bool) {
    CallsInv(w) && RowsInv(w, isUtf8) && ReplaysInv(w)
  }

  lemma FromRunStays(w: World, m: Move, isUtf8: Body -> bool, k: Key, status: nat, body: Body)
    requires CallsInv(w) && CanMove(w, m) && FromRun(w, k, status, body, isUtf8)
    ensures FromRun(Moved(w, m, isUtf8), k, status, body, isUtf8)
  {
    var i :| i in w.runs && w.runs[i].key == k &&
             RowFor(w.runs[i].status, Captured(w.runs[i].body), isUtf8) == Row(status, body);
    assert i in Moved(w, m, isUtf8).runs && Moved(w, m, isUtf8).runs[i] == w.runs[i];
  }

  lemma CallsInvRun(w: World, m: Move, isUtf8: Body -> bool)
    requires CallsInv(w) && CanMove(w, m) && m.RunHandler?
    ensures CallsInv(Moved(w, m, isUtf8))
  {
    hide RowFor, Captured, Replay;
  }

  lemma CallsInvOther(w: World, m: Move, isUtf8: Body -> bool)
    requires CallsInv(w) && CanMove(w, m) && !m.RunHandler?
    ensures CallsInv(Moved(w, m, isUtf8))
  {
    hide RowFor, Captured, Replay, Inserted, Success;
  }

  lemma CallsInvStep(w: World, m: Move, isUtf8: Body -> bool)
    requires CallsInv(w) && CanMove(w, m)
    ensures CallsInv(Moved(w, m, isUtf8))
  {
    hide Moved, CallsInv;
    if m.RunHandler? {
      CallsInvRun(w, m, isUtf8);
    } else {
      CallsInvOther(w, m, isUtf8);
    }
  }

  lemma RowsInvStep(w: World, m: Move, isUtf8: Body -> bool)
    requires CallsInv(w) && RowsInv(w, isUtf8) && CanMove(w, m)
    ensures RowsInv(Moved(w, m, isUtf8), isUtf8)
  {
    var w' := Moved(w, m, isUtf8);
    forall k | k in w'.rows
      ensures FromRun(w', k, w'.rows[k].status, w'.rows[k].body, isUtf8)
    {
      if k in w.rows {
        FromRunStays(w, m, isUtf8, k, w.rows[k].status, w.rows[k].body);
      } else {
        assert m.call in w'.runs && w'.runs[m.call].key == k;
      }
    }
  }

  lemma ReplaysInvStep(w: World, m: Move, isUtf8: Body -> bool)
    requires ReplaysInv(w) && CanMove(w, m)
    ensures ReplaysInv(Moved(w, m, isUtf8))
  {
    hide RowFor, Captured;
  }

  lemma RunInvStep(w: World, m: Move, isUtf8: Body -> bool)
    requires RunInv(w, isUtf8) && CanMove(w, m)
    ensures RunInv(Moved(w, m, isUtf8), isUtf8)
  {
    hide Moved, CallsInv, RowsInv, ReplaysInv;
    CallsInvStep(w, m, isUtf8);
    RowsInvStep(w, m, isUtf8);
    ReplaysInvStep(w, m, isUtf8);
  }

  lemma {:induction false} RunInvHolds(w: World, moves: seq<Move>, isUtf8: Body -> bool)
    requires Initial(w) && Legal(w, moves, isUtf8)
    ensures RunInv(Exec(w, moves, isUtf8), isUtf8)
    decreases |moves|
  {
    hide Moved, RunInv;
    if moves == [] {
      assert RunInv(w, isUtf8) by {
        EmptyRunInv(w, isUtf8);
      }
    } else {
      RunInvHolds(w, moves[..|moves| - 1], isUtf8);
      RunInvStep(Exec(w, moves[..|moves| - 1], isUtf8), moves[|moves| - 1], isUtf8);
    }
  }

  lemma EmptyRunInv(w: World, isUtf8: Body -> bool)
    requires Initial(w)
    ensures RunInv(w, isUtf8)
  {
  }

  /** The bodies a replay can give back whole. */
  predicate Replayable(body: BodyStream, isUtf8: Body -> bool) {
    body.Complete? && |body.bytes| <= 65536 && isUtf8(body.bytes)
  }

  /**
   In every interleaving, a replay answers the status of one successful run for its key, and that
   run's body exactly when the body is empty or replayable; otherwise the body comes back empty.
   */
  lemma ReplayIsOfARun(w: World, moves: seq<Move>, isUtf8: Body -> bool, i: nat) returns (j: nat)
    requires Initial(w) && Legal(w, moves, isUtf8)
    requires var now := Exec(w, moves, isUtf8);
             i in now.calls && now.calls[i].Replied? && now.calls[i].replayed
    ensures var now := Exec(w, moves, isUtf8);
            && j in now.runs && now.runs[j].key == now.calls[i].key && 200 <= now.runs[j].status <= 299
            && now.calls[i].response.status == now.runs[j].status
            && now.calls[i].response.headers == map["content-type" := "application/json", "idempotent-replay" := "true"]
            && (now.calls[i].response.body == now.runs[j].body <==>
                now.runs[j].body == Complete([]) || Replayable(now.runs[j].body, isUtf8))
            && (!Replayable(now.runs[j].body, isUtf8) ==> now.calls[i].response.body == Complete([]))
  {
    RunInvHolds(w, moves, isUtf8);
    var now := Exec(w, moves, isUtf8);
    var k := now.calls[i].key;
    assert FromRun(now, k, now.rows[k].status, now.rows[k].body, isUtf8);
    j :| j in now.runs && now.runs[j].key == k &&
         RowFor(now.runs[j].status, Captured(now.runs[j].body), isUtf8) == now.rows[k];
  }

  /** All replays of one key are the same response. */
  lemma ReplaysAgree(w: World, moves: seq<Move>, isUtf8: Body -> bool, i: nat, j: nat)
    requires Initial(w) && Legal(w, moves, isUtf8)
    requires var now := Exec(w, moves, isUtf8);
             && i in now.calls && now.calls[i].Replied? && now.calls[i].replayed
             && j in now.calls && now.calls[j].Replied? && now.calls[j].replayed
             && now.calls[i].key == now.calls[j].key
    ensures Exec(w, moves, isUtf8).calls[i] == Exec(w, moves, isUtf8).calls[j]
  {
    RunInvHolds(w, moves, isUtf8);
  }

  // ----- How many times the handler succeeds

  function RunsOf(w: World, k: Key): set<nat> {
    set i | i in w.runs && w.runs[i].key == k
  }

  function RunningOf(w: World, k: Key): set<nat> {
    set i | i in w.calls && w.calls[i] == Running(k)
  }

  function RanOf(w: World, k: Key): set<nat> {
    set i | i in w.calls && w.calls[i].Ran? && w.calls[i].key == k
  }

  /** The requests of `k` between their lookup and their reply. */
  function InProgress(w: World, k: Key): set<nat> {
    RunningOf(w, k) + RanOf(w, k)
  }

  /** At no moment of the schedule are more than `n` requests of `k` in progress. */
  ghost predicate Overlaps(w: World, moves: seq<Move>, isUtf8: Body -> bool, k: Key, n: nat)
    requires Legal(w, moves, isUtf8)
    decreases |moves|
  {
    && |InProgress(Exec(w, moves, isUtf8), k)| <= n
    && (moves != [] ==> Overlaps(w, moves[..|moves| - 1], isUtf8, k, n))
  }

  /** A query of a request of `k` that fails, or such a request abandoned after its run, before its store. */
  predicate FailsFor(w: World, m: Move, k: Key) {
    && m.call in w.calls && w.calls[m.call].key == k
    && (((m.Look? || m.StoreRow?) && !m.ok) || (m.Abandon? && w.calls[m.call].Ran?))
  }

  /** How often a query for `k` fails or a run of `k` is abandoned. */
  ghost function FailedOf(w: World, moves: seq<Move>, isUtf8: Body -> bool, k: Key): nat
    requires Legal(w, moves, isUtf8)
    decreases |moves|
  {
    if moves == [] then 0
    else
      var rest := moves[..|moves| - 1];
      FailedOf(w, rest, isUtf8, k) + if FailsFor(Exec(w, rest, isUtf8), moves[|moves| - 1], k) then 1 else 0
  }

  /** After `f` failures: before the first row for `k`, all but `f` successful runs are still to be stored. */
  ghost predicate CountInv(w: World, k: Key, n: nat, f: nat) {
    && (k !in w.rows ==> |RunsOf(w, k) - RanOf(w, k)| <= f)
    && |RunsOf(w, k) + RunningOf(w, k)| <= n + f
  }

  lemma OtherKeyCount(w: World, m: Move, isUtf8: Body -> bool, k: Key)
    requires CallsInv(w) && CanMove(w, m) && w.calls[m.call].key != k
    ensures var w' := Moved(w, m, isUtf8);
            && RunsOf(w', k) == RunsOf(w, k) && RanOf(w', k) == RanOf(w, k) && RunningOf(w', k) == RunningOf(w, k)
            && (k in w'.rows <==> k in w.rows)
  {
    hide RowFor, Captured;
  }

  lemma LookCount(w: World, m: Move, isUtf8: Body -> bool, k: Key)
    requires CallsInv(w) && CanMove(w, m) && m.Look? && w.calls[m.call].key == k
    ensures var w' := Moved(w, m, isUtf8);
            && RunsOf(w', k) == RunsOf(w, k) && RanOf(w', k) == RanOf(w, k) && w'.rows == w.rows
            && RunningOf(w', k) == RunningOf(w, k) + if m.ok && k in w.rows then {} else {m.call}
  {
  }

  lemma RunCount(w: World, m: Move, isUtf8: Body -> bool, k: Key)
    requires CallsInv(w) && CanMove(w, m) && m.RunHandler? && w.calls[m.call].key == k
    ensures var w' := Moved(w, m, isUtf8); var added := if Success(m.status) then {m.call} else {};
            && m.call in RunningOf(w, k) && RunningOf(w', k) == RunningOf(w, k) - {m.call}
            && RunsOf(w', k) == RunsOf(w, k) + added && RanOf(w', k) == RanOf(w, k) + added && w'.rows == w.rows
  {
    assert w.calls[m.call] == Running(k);
    hide RowFor, Captured, Replay, Success;
  }

  lemma StoreCount(w: World, m: Move, isUtf8: Body -> bool, k: Key)
    requires CallsInv(w) && CanMove(w, m) && m.StoreRow? && w.calls[m.call].key == k
    ensures var w' := Moved(w, m, isUtf8);
            && RunsOf(w', k) == RunsOf(w, k) && RunningOf(w', k) == RunningOf(w, k)
            && RanOf(w', k) == RanOf(w, k) - {m.call}
            && (k in w'.rows <==> m.ok || k in w.rows)
  {
    hide RowFor, Captured;
  }

  lemma AbandonCount(w: World, m: Move, isUtf8: Body -> bool, k: Key)
    requires CallsInv(w) && CanMove(w, m) && m.Abandon? && w.calls[m.call].key == k
    ensures var w' := Moved(w, m, isUtf8);
            && RunsOf(w', k) == RunsOf(w, k) && RunningOf(w', k) == RunningOf(w, k) - {m.call}
            && RanOf(w', k) == RanOf(w, k) - {m.call} && w'.rows == w.rows
            && (!w.calls[m.call].Ran? ==> m.call !in RanOf(w, k))
  {
  }

  lemma OneMore(a: set<nat>, b: set<nat>, i: nat)
    requires a <= b + {i}
    ensures |a| <= |b| + 1
  {
    SubsetSize(a, b + {i});
  }

  /** A lookup: one that finds no row adds a request in progress, one that fails is counted. */
  lemma LookStep(w: World, m: Move, isUtf8: Body -> bool, k: Key, n: nat, f: nat)
    requires CallsInv(w) && CanMove(w, m) && m.Look? && w.calls[m.call].key == k && CountInv(w, k, n, f)
    requires |InProgress(Moved(w, m, isUtf8), k)| <= n
    ensures CountInv(Moved(w, m, isUtf8), k, n, if m.ok then f else f + 1)
  {
    hide Moved, CallsInv, RunsOf, RanOf, RunningOf;
    var w' := Moved(w, m, isUtf8);
    LookCount(w, m, isUtf8, k);
    if !m.ok {
      OneMore(RunsOf(w', k) + RunningOf(w', k), RunsOf(w, k) + RunningOf(w, k), m.call);
    } else if k in w.rows {
      assert RunningOf(w', k) == RunningOf(w, k);
    } else {
      var lost := RunsOf(w', k) - RanOf(w', k);
      SubsetSize(RunsOf(w', k) + RunningOf(w', k), lost + InProgress(w', k));
      assert |lost + InProgress(w', k)| <= |lost| + |InProgress(w', k)|;
    }
  }

  /** Abandoning a request that has run loses its row, as a failed store does. */
  lemma AbandonStep(w: World, m: Move, isUtf8: Body -> bool, k: Key, n: nat, f: nat)
    requires CallsInv(w) && CanMove(w, m) && m.Abandon? && w.calls[m.call].key == k && CountInv(w, k, n, f)
    ensures CountInv(Moved(w, m, isUtf8), k, n, if w.calls[m.call].Ran? then f + 1 else f)
  {
    hide Moved, CallsInv, RunsOf, RanOf, RunningOf;
    var w' := Moved(w, m, isUtf8);
    AbandonCount(w, m, isUtf8, k);
    SubsetSize(RunsOf(w', k) + RunningOf(w', k), RunsOf(w, k) + RunningOf(w, k));
    if w.calls[m.call].Ran? {
      OneMore(RunsOf(w', k) - RanOf(w', k), RunsOf(w, k) - RanOf(w, k), m.call);
    } else {
      assert RanOf(w', k) == RanOf(w, k);
    }
  }

  lemma CountStep(w: World, m: Move, isUtf8: Body -> bool, k: Key, n: nat, f: nat)
    requires CallsInv(w) && CanMove(w, m) && CountInv(w, k, n, f)
    requires |InProgress(Moved(w, m, isUtf8), k)| <= n
    ensures CountInv(Moved(w, m, isUtf8), k, n, if FailsFor(w, m, k) then f + 1 else f)
  {
    hide Moved, CallsInv, RunsOf, RanOf, RunningOf;
    var w' := Moved(w, m, isUtf8);
    if w.calls[m.call].key != k {
      OtherKeyCount(w, m, isUtf8, k);
    } else if m.Look? {
      LookStep(w, m, isUtf8, k, n, f);
    } else if m.RunHandler? {
      RunCount(w, m, isUtf8, k);
      SubsetSize(RunsOf(w', k) + RunningOf(w', k), RunsOf(w, k) + RunningOf(w, k));
      SubsetSize(RunsOf(w', k) - RanOf(w', k), RunsOf(w, k) - RanOf(w, k));
    } else if m.StoreRow? {
      StoreCount(w, m, isUtf8, k);
      OneMore(RunsOf(w', k) - RanOf(w', k), RunsOf(w, k) - RanOf(w, k), m.call);
    } else {
      AbandonStep(w, m, isUtf8, k, n, f);
    }
  }

  lemma {:induction false} CountHolds(w: World, moves: seq<Move>, isUtf8: Body -> bool, k: Key, n: nat)
    requires Initial(w) && Legal(w, moves, isUtf8) && Overlaps(w, moves, isUtf8, k, n)
    ensures CountInv(Exec(w, moves, isUtf8), k, n, FailedOf(w, moves, isUtf8, k))
    decreases |moves|
  {
    hide Moved, CallsInv, CountInv;
    if moves == [] {
      assert CountInv(w, k, n, 0) by {
        NothingRunYet(w, k, n);
      }
    } else {
      var rest, m := moves[..|moves| - 1], moves[|moves| - 1];
      CountHolds(w, rest, isUtf8, k, n);
      RunInvHolds(w, rest, isUtf8);
      CountStep(Exec(w, rest, isUtf8), m, isUtf8, k, n, FailedOf(w, rest, isUtf8, k));
    }
  }

  lemma NothingRunYet(w: World, k: Key, n: nat)
    requires Initial(w)
    ensures CountInv(w, k, n, 0)
  {
    assert RunsOf(w, k) + RunningOf(w, k) == {};
    assert RunsOf(w, k) - RanOf(w, k) == {};
  }

  /**
   In every interleaving, if at most `n` requests of a key are in progress at a time, at most `n`
   handler runs for it succeed, plus one for each of its queries that fails and each of its requests
   abandoned between run and store: once, when the requests never overlap and nothing fails.
   */
  lemma AtMostOverlapRuns(w: World, moves: seq<Move>, isUtf8: Body -> bool, k: Key, n: nat)
    requires Initial(w) && Legal(w, moves, isUtf8) && Overlaps(w, moves, isUtf8, k, n)
    ensures |RunsOf(Exec(w, moves, isUtf8), k)| <= n + FailedOf(w, moves, isUtf8, k)
  {
    CountHolds(w, moves, isUtf8, k, n);
    var now := Exec(w, moves, isUtf8);
    SubsetSize(RunsOf(now, k), RunsOf(now, k) + RunningOf(now, k));
  }

  // ----- The bound is reached

  lemma LegalSnoc(w: World, moves: seq<Move>, m: Move, isUtf8: Body -> bool)
    requires Legal(w, moves, isUtf8) && CanMove(Exec(w, moves, isUtf8), m)
    ensures Legal(w, moves + [m], isUtf8) && Exec(w, moves + [m], isUtf8) == Moved(Exec(w, moves, isUtf8), m, isUtf8)
  {
    assert (moves + [m])[..|moves|] == moves;
  }

  /** What every run of the schedule answers, and where it is kept. */
  datatype Answer = Answer(key: Key, status: nat, headers: Headers, body: BodyStream, isUtf8: Body -> bool)

  /** Requests of one key, of which the first `looked` have looked, the first `ran` run and the first `stored` replied. */
  datatype Progress = Progress(total: nat, looked: nat, ran: nat, stored: nat)

  predicate InOrder(g: Progress) {
    g.stored <= g.ran <= g.looked <= g.total
  }

  function CallAt(a: Answer, g: Progress, j: nat): Call {
    if j < g.stored then Replied(a.key, Response(a.status, a.headers, Complete(Captured(a.body))), false)
    else if j < g.ran then Ran(a.key, a.status, a.headers, Captured(a.body))
    else if j < g.looked then Running(a.key)
    else Arrived(a.key)
  }

  /** The first `n` requests. */
  function Calls(a: Answer, g: Progress, n: nat): (calls: map<nat, Call>)
    ensures forall j: nat :: (j in calls <==> j < n) && (j in calls ==> calls[j] == CallAt(a, g, j))
  {
    if n == 0 then map[] else Calls(a, g, n - 1)[n - 1 := CallAt(a, g, n - 1)]
  }

  /** The first `n` runs. */
  function Runs(a: Answer, n: nat): (runs: map<nat, Run>)
    ensures forall j: nat :: (j in runs <==> j < n) && (j in runs ==> runs[j] == Run(a.key, a.status, a.headers, a.body))
  {
    if n == 0 then map[] else Runs(a, n - 1)[n - 1 := Run(a.key, a.status, a.headers, a.body)]
  }

  function WorldAt(a: Answer, g: Progress): World {
    World(if g.stored == 0 then map[] else map[a.key := RowFor(a.status, Captured(a.body), a.isUtf8)],
          Calls(a, g, g.total), Runs(a, g.ran))
  }

  /** The requests differ in one place. */
  lemma OneCallMoves(a: Answer, g: Progress, g': Progress, j: nat)
    requires j < g.total == g'.total && forall i: nat | i < g.total && i != j :: CallAt(a, g, i) == CallAt(a, g', i)
    ensures Calls(a, g, g.total)[j := CallAt(a, g', j)] == Calls(a, g', g.total)
  {
    hide Calls, CallAt;
  }

  lemma LookNext(a: Answer, g: Progress, ok: bool)
    requires InOrder(g) && g.looked < g.total && (ok ==> g.stored == 0)
    ensures var w, m := WorldAt(a, g), Look(g.looked, ok);
            CanMove(w, m) && Moved(w, m, a.isUtf8) == WorldAt(a, g.(looked := g.looked + 1))
  {
    hide RowFor, Captured, Replay, Calls, Runs;
    OneCallMoves(a, g, g.(looked := g.looked + 1), g.looked);
  }

  lemma OneMoreRun(a: Answer, n: nat)
    ensures Runs(a, n)[n := Run(a.key, a.status, a.headers, a.body)] == Runs(a, n + 1)
  {
  }

  lemma RunNext(a: Answer, g: Progress)
    requires InOrder(g) && g.ran < g.looked && Success(a.status)
    ensures var w, m := WorldAt(a, g), RunHandler(g.ran, a.status, a.headers, a.body);
            CanMove(w, m) && Moved(w, m, a.isUtf8) == WorldAt(a, g.(ran := g.ran + 1))
  {
    OneMoreRun(a, g.ran);
    hide RowFor, Captured, Replay, Calls, Runs, Success;
    OneCallMoves(a, g, g.(ran := g.ran + 1), g.ran);
  }

  lemma StoreNext(a: Answer, g: Progress)
    requires InOrder(g) && g.stored < g.ran
    ensures var w, m := WorldAt(a, g), StoreRow(g.stored, true);
            CanMove(w, m) && Moved(w, m, a.isUtf8) == WorldAt(a, g.(stored := g.stored + 1))
  {
    hide RowFor, Captured, Replay, Calls, Runs;
    OneCallMoves(a, g, g.(stored := g.stored + 1), g.stored);
  }

  lemma {:induction false} UpTo(n: nat, m: nat, s: set<nat>)
    requires n <= m && forall j: nat :: j in s <==> n <= j < m
    ensures |s| == m - n
  {
    if n == m {
      assert s == {};
    } else {
      UpTo(n, m - 1, s - {m - 1});
      assert s == s - {m - 1} + {m - 1};
    }
  }

  lemma CountsAt(a: Answer, g: Progress)
    requires InOrder(g)
    ensures |InProgress(WorldAt(a, g), a.key)| == g.looked - g.stored
    ensures |RunsOf(WorldAt(a, g), a.key)| == g.ran
  {
    UpTo(g.stored, g.looked, InProgress(WorldAt(a, g), a.key));
    UpTo(0, g.ran, RunsOf(WorldAt(a, g), a.key));
  }

  /** A schedule from the start to `g`, with at most `n` requests in progress and `f` failed queries. */
  ghost predicate Leads(moves: seq<Move>, a: Answer, g: Progress, n: nat, f: nat) {
    var w := WorldAt(a, Progress(g.total, 0, 0, 0));
    && Legal(w, moves, a.isUtf8) && Exec(w, moves, a.isUtf8) == WorldAt(a, g)
    && Overlaps(w, moves, a.isUtf8, a.key, n) && FailedOf(w, moves, a.isUtf8, a.key) == f
  }

  lemma LeadsOn(moves: seq<Move>, a: Answer, g: Progress, n: nat, f: nat, m: Move, g': Progress)
    requires Leads(moves, a, g, n, f) && CanMove(WorldAt(a, g), m) && Moved(WorldAt(a, g), m, a.isUtf8) == WorldAt(a, g')
    requires g'.total == g.total && InOrder(g') && g'.looked - g'.stored <= n
    ensures Leads(moves + [m], a, g', n, if FailsFor(WorldAt(a, g), m, a.key) then f + 1 else f)
  {
    hide Moved, WorldAt, InProgress;
    LegalSnoc(WorldAt(a, Progress(g.total, 0, 0, 0)), moves, m, a.isUtf8);
    CountsAt(a, g');
    assert (moves + [m])[..|moves|] == moves;
  }

  /** `n` requests look, before any has stored. */
  lemma {:induction false} AllLook(a: Answer, total: nat, n: nat, i: nat) returns (moves: seq<Move>)
    requires i <= n <= total
    ensures Leads(moves, a, Progress(total, i, 0, 0), n, 0)
  {
    hide Leads, Moved, WorldAt, CanMove;
    if i == 0 {
      moves := [];
      NothingMoved(a, total, n);
    } else {
      var g := Progress(total, i - 1, 0, 0);
      var rest := AllLook(a, total, n, i - 1);
      LookNext(a, g, true);
      LeadsOn(rest, a, g, n, 0, Look(i - 1, true), g.(looked := i));
      moves := rest + [Look(i - 1, true)];
    }
  }

  lemma NothingMoved(a: Answer, total: nat, n: nat)
    ensures Leads([], a, Progress(total, 0, 0, 0), n, 0)
  {
    CountsAt(a, Progress(total, 0, 0, 0));
  }

  /** All of them run. */
  lemma {:induction false} AllRun(a: Answer, total: nat, n: nat, i: nat) returns (moves: seq<Move>)
    requires i <= n <= total && Success(a.status)
    ensures Leads(moves, a, Progress(total, n, i, 0), n, 0)
  {
    hide Leads, Moved, WorldAt, CanMove;
    if i == 0 {
      moves := AllLook(a, total, n, n);
    } else {
      var g := Progress(total, n, i - 1, 0);
      var rest := AllRun(a, total, n, i - 1);
      RunNext(a, g);
      LeadsOn(rest, a, g, n, 0, RunHandler(i - 1, a.status, a.headers, a.body), g.(ran := i));
      moves := rest + [RunHandler(i - 1, a.status, a.headers, a.body)];
    }
  }

  /** All of them store. */
  lemma {:induction false} AllStore(a: Answer, total: nat, n: nat, i: nat) returns (moves: seq<Move>)
    requires i <= n <= total && Success(a.status)
    ensures Leads(moves, a, Progress(total, n, n, i), n, 0)
  {
    hide Leads, Moved, WorldAt, CanMove;
    if i == 0 {
      moves := AllRun(a, total, n, n);
    } else {
      var g := Progress(total, n, n, i - 1);
      var rest := AllStore(a, total, n, i - 1);
      StoreNext(a, g);
      LeadsOn(rest, a, g, n, 0, StoreRow(i - 1, true), g.(stored := i));
      moves := rest + [StoreRow(i - 1, true)];
    }
  }

  /** One more request comes alone, and its lookup fails. */
  lemma OneFails(moves: seq<Move>, a: Answer, total: nat, j: nat, n: nat, f: nat) returns (longer: seq<Move>)
    requires 1 <= n && j < total && Success(a.status) && Leads(moves, a, Progress(total, j, j, j), n, f)
    ensures Leads(longer, a, Progress(total, j + 1, j + 1, j + 1), n, f + 1)
  {
    hide Leads, Moved, WorldAt;
    var g1, g2, g3 := Progress(total, j + 1, j, j), Progress(total, j + 1, j + 1, j), Progress(total, j + 1, j + 1, j + 1);
    LookNext(a, Progress(total, j, j, j), false);
    FailedLook(a, Progress(total, j, j, j));
    LeadsOn(moves, a, Progress(total, j, j, j), n, f, Look(j, false), g1);
    RunNext(a, g1);
    LeadsOn(moves + [Look(j, false)], a, g1, n, f + 1, RunHandler(j, a.status, a.headers, a.body), g2);
    StoreNext(a, g2);
    longer := moves + [Look(j, false)] + [RunHandler(j, a.status, a.headers, a.body)] + [StoreRow(j, true)];
    LeadsOn(moves + [Look(j, false)] + [RunHandler(j, a.status, a.headers, a.body)], a, g2, n, f + 1, StoreRow(j, true), g3);
  }

  lemma FailedLook(a: Answer, g: Progress)
    requires InOrder(g) && g.looked < g.total
    ensures FailsFor(WorldAt(a, g), Look(g.looked, false), a.key)
  {
  }

  /** Then requests come one at a time, and the lookup of each fails. */
  lemma {:induction false} AllFail(a: Answer, total: nat, n: nat, f: nat) returns (moves: seq<Move>)
    requires 1 <= n && n + f <= total && Success(a.status)
    ensures Leads(moves, a, Progress(total, n + f, n + f, n + f), n, f)
  {
    hide Leads;
    if f == 0 {
      moves := AllStore(a, total, n, n);
    } else {
      var rest := AllFail(a, total, n, f - 1);
      moves := OneFails(rest, a, total, n + f - 1, n, f - 1);
    }
  }

  lemma AllSucceeded(moves: seq<Move>, a: Answer, n: nat, f: nat)
    requires Leads(moves, a, Progress(n + f, n + f, n + f, n + f), n, f)
    ensures var w := WorldAt(a, Progress(n + f, 0, 0, 0));
            Initial(w) && Legal(w, moves, a.isUtf8) && |RunsOf(Exec(w, moves, a.isUtf8), a.key)| == n + f
  {
    hide Overlaps, FailedOf, InProgress;
    CountsAt(a, Progress(n + f, n + f, n + f, n + f));
  }

  /** The bound is the least one: `n` overlapping requests and `f` failed queries can make `n + f` runs succeed. */
  lemma BoundIsReached(k: Key, status: nat, headers: Headers, body: BodyStream, isUtf8: Body -> bool, n: nat, f: nat)
    returns (w: World, moves: seq<Move>)
    requires Success(status) && 1 <= n
    ensures Initial(w) && Legal(w, moves, isUtf8) && Overlaps(w, moves, isUtf8, k, n)
    ensures FailedOf(w, moves, isUtf8, k) == f && |RunsOf(Exec(w, moves, isUtf8), k)| == n + f
  {
    hide Initial, Legal, Exec, Overlaps, FailedOf, RunsOf, WorldAt;
    var a := Answer(k, status, headers, body, isUtf8);
    w := WorldAt(a, Progress(n + f, 0, 0, 0));
    moves := AllFail(a, n + f, n, f);
    AllSucceeded(moves, a, n, f);
  }

  /** Two requests of `k` yet to arrive. */
  function TwoCalls(k: Key): World {
    World(map[], map[0 := Arrived(k), 1 := Arrived(k)], map[])
  }

  /** Two requests that both look before either stores both run, though every query succeeds. */
  lemma OverlapRunsTwice(k: Key, status: nat, headers: Headers, body: BodyStream, isUtf8: Body -> bool)
    requires Success(status)
    ensures var w := TwoCalls(k);
            var run0, run1 := RunHandler(0, status, headers, body), RunHandler(1, status, headers, body);
            var moves := [Look(0, true), Look(1, true), run0, run1];
            Initial(w) && Legal(w, moves, isUtf8) && RunsOf(Exec(w, moves, isUtf8), k) == {0, 1}
  {
    var w := TwoCalls(k);
    var m1, m2 := Look(0, true), Look(1, true);
    var m3, m4 := RunHandler(0, status, headers, body), RunHandler(1, status, headers, body);
    LegalSnoc(w, [], m1, isUtf8);
    LegalSnoc(w, [] + [m1], m2, isUtf8);
    LegalSnoc(w, [] + [m1] + [m2], m3, isUtf8);
    LegalSnoc(w, [] + [m1] + [m2] + [m3], m4, isUtf8);
    assert [] + [m1] + [m2] + [m3] + [m4] == [m1, m2, m3, m4];
    var run := Run(k, status, headers, body);
    assert Exec(w, [m1, m2, m3, m4], isUtf8).runs == map[0 := run, 1 := run];
  }

  /** So do two requests one after the other, when the first one's row is not stored or the second one's lookup fails. */
  lemma FailedQueryRunsTwice(
    k: Key, status: nat, headers: Headers, body: BodyStream, isUtf8: Body -> bool, storeOk: bool, lookOk: bool
  )
    requires Success(status) && (!storeOk || !lookOk)
    ensures var w := TwoCalls(k);
            var run0, run1 := RunHandler(0, status, headers, body), RunHandler(1, status, headers, body);
            var moves := [Look(0, true), run0, StoreRow(0, storeOk), Look(1, lookOk), run1];
            Initial(w) && Legal(w, moves, isUtf8) && RunsOf(Exec(w, moves, isUtf8), k) == {0, 1}
  {
    var w := TwoCalls(k);
    var m1, m2, m3 := Look(0, true), RunHandler(0, status, headers, body), StoreRow(0, storeOk);
    var m4, m5 := Look(1, lookOk), RunHandler(1, status, headers, body);
    LegalSnoc(w, [], m1, isUtf8);
    LegalSnoc(w, [] + [m1], m2, isUtf8);
    LegalSnoc(w, [] + [m1] + [m2], m3, isUtf8);
    LegalSnoc(w, [] + [m1] + [m2] + [m3], m4, isUtf8);
    LegalSnoc(w, [] + [m1] + [m2] + [m3] + [m4], m5, isUtf8);
    assert [] + [m1] + [m2] + [m3] + [m4] + [m5] == [m1, m2, m3, m4, m5];
    var run := Run(k, status, headers, body);
    assert Exec(w, [m1, m2, m3, m4, m5], isUtf8).runs == map[0 := run, 1 := run];
  }

  /** And when the client of the first one goes away after the run, before the row is stored. */
  lemma AbandonedRunsTwice(k: Key, status: nat, headers: Headers, body: BodyStream, isUtf8: Body -> bool)
    requires Success(status)
    ensures var w, ran := TwoCalls(k), RunHandler(0, status, headers, body);
            var moves := [Look(0, true), ran, Abandon(0), Look(1, true), RunHandler(1, status, headers, body)];
            Initial(w) && Legal(w, moves, isUtf8) && RunsOf(Exec(w, moves, isUtf8), k) == {0, 1}
  {
    var w := TwoCalls(k);
    var m1, m2, m3 := Look(0, true), RunHandler(0, status, headers, body), Abandon(0);
    var m4, m5 := Look(1, true), RunHandler(1, status, headers, body);
    LegalSnoc(w, [], m1, isUtf8);
    LegalSnoc(w, [] + [m1], m2, isUtf8);
    LegalSnoc(w, [] + [m1] + [m2], m3, isUtf8);
    LegalSnoc(w, [] + [m1] + [m2] + [m3], m4, isUtf8);
    LegalSnoc(w, [] + [m1] + [m2] + [m3] + [m4], m5, isUtf8);
    assert [] + [m1] + [m2] + [m3] + [m4] + [m5] == [m1, m2, m3, m4, m5];
    var run := Run(k, status, headers, body);
    assert Exec(w, [m1, m2, m3, m4, m5], isUtf8).runs == map[0 := run, 1 := run];
  }

  // ----- A request on its own

  lemma OneMoreMove(w: World, moves: seq<Move>, m: Move, isUtf8: Body -> bool)
    requires Legal(w, moves, isUtf8) && CanMove(Exec(w, moves, isUtf8), m)
    ensures Legal(w, moves + [m], isUtf8)
    ensures Exec(w, moves + [m], isUtf8) == Moved(Exec(w, moves, isUtf8), m, isUtf8)
  {
    assert (moves + [m])[..|moves|] == moves;
  }

  /** A lookup that finds a row answers its replay and leaves the table, as `Store.Handle` does. */
  lemma ReplayAlone(w: World, i: nat, isUtf8: Body -> bool)
    requires i in w.calls && w.calls[i].Arrived? && w.calls[i].key in w.rows
    ensures var k := w.calls[i].key;
            var row := w.rows[k];
            var replay := Response(if 100 <= row.status <= 999 then row.status else 200,
                                   map["content-type" := "application/json", "idempotent-replay" := "true"],
                                   Complete(row.body));
            && Legal(w, [Look(i, true)], isUtf8)
            && var w' := Exec(w, [Look(i, true)], isUtf8); w'.rows == w.rows && w'.calls[i] == Replied(k, replay, true)
  {
    OneMoreMove(w, [], Look(i, true), isUtf8);
    assert [] + [Look(i, true)] == [Look(i, true)];
  }

  /** The steps of a request that is not answered from a row, with nothing between them. */
  function StepsAlone(
    i: nat, lookOk: bool, status: nat, headers: Headers, body: BodyStream, storeOk: bool
  ): seq<Move> {
    if 200 <= status <= 299 then [Look(i, lookOk), RunHandler(i, status, headers, body), StoreRow(i, storeOk)]
    else [Look(i, lookOk), RunHandler(i, status, headers, body)]
  }

  /** Such a request leaves the table and gives the response that `Store.Handle` does. */
  lemma RunAlone(
    w: World, i: nat, isUtf8: Body -> bool, lookOk: bool, status: nat, headers: Headers, body: BodyStream, storeOk: bool
  )
    requires i in w.calls && w.calls[i].Arrived? && !(lookOk && w.calls[i].key in w.rows)
    ensures var k, moves := w.calls[i].key, StepsAlone(i, lookOk, status, headers, body, storeOk);
            var kept := if body.Complete? && |body.bytes| <= 65536 then body.bytes else [];
            var succeeds := 200 <= status <= 299;
            && Legal(w, moves, isUtf8)
            && var w' := Exec(w, moves, isUtf8);
               && w'.calls[i] == Replied(k, Response(status, headers, if succeeds then Complete(kept) else body), false)
               && w'.rows == if !succeeds || !storeOk || k in w.rows then w.rows
                             else w.rows[k := Row(status, if isUtf8(kept) then kept else [])]
  {
    var look, run, store := Look(i, lookOk), RunHandler(i, status, headers, body), StoreRow(i, storeOk);
    assert [] + [look] == [look] && [look] + [run] == [look, run] && [look, run] + [store] == [look, run, store];
    OneMoreMove(w, [], look, isUtf8);
    OneMoreMove(w, [look], run, isUtf8);
    if 200 <= status <= 299 {
      OneMoreMove(w, [look, run], store, isUtf8);
    }
    hide Legal, Exec;
  }
}
