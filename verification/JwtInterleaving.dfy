/**
 Concurrent rotations and validations, one step per lock acquisition or protected action. A schedule
 is any sequence of thread steps and clock ticks.
 */
module JwtInterleaving {
  import opened Wrappers
  import opened Jwt
  import JwtLaws

  /** Where a call stands, and which guards that means it holds. */
  datatype Thread =
    | RotateCall(newKey: KeyMaterial)
    | RotateHolds(newKey: KeyMaterial)                     // active.write()
    | RotateSwapped(oldKey: KeyMaterial)                   // active.write(); old key stamped
    | RotateHoldsBoth(oldKey: KeyMaterial)                 // active.write(), retired.write()
    | RotatePushed                                         // active.write(), retired.write()
    | RotateReleasing                                      // active.write()
    | RotateDone
    | ValidateCall(token: Token, custom: Option<Validation>)
    | ValidateChecking(token: Token, validation: Validation)
    | ValidateReading(token: Token, validation: Validation)                  // active.read()
    | ValidateMissed(token: Token, validation: Validation)
    | ValidatePruning(token: Token, validation: Validation)                  // retired.write()
    | ValidateScanning(token: Token, validation: Validation)                 // retired.write()
    | ValidateDone(token: Token, validation: Validation, result: Option<Claims>)

  /** The two locked values and their locks, the clock, the calls, and `log`, a history variable: the keys ever retired. */
  datatype World = World(
    active: KeyMaterial, retired: seq<KeyMaterial>, clock: int,
    activeWriter: Option<nat>, activeReaders: set<nat>, retiredWriter: Option<nat>,
    threads: map<nat, Thread>, log: seq<KeyMaterial>
  )

  datatype Params = Params(grace: int, decode: Decoder)

  datatype Move = Tick(ticks: nat) | Act(thread: nat)

  /** Whether the next step of thread `i` does not block. */
  predicate Enabled(w: World, i: nat) {
    && i in w.threads
    && match w.threads[i]
       case RotateCall(_) => w.activeWriter.None? && w.activeReaders == {}
       case RotateSwapped(_) => w.retiredWriter.None?
       case ValidateCall(_, _) => w.activeWriter.None?
       case ValidateChecking(_, _) => w.activeWriter.None?
       case ValidateMissed(_, _) => w.retiredWriter.None?
       case RotateDone => false
       case ValidateDone(_, _, _) => false
       case _ => true
  }

  function ActStep(w: World, i: nat, p: Params): World
    requires Enabled(w, i)
  {
    match w.threads[i]
    case RotateCall(newKey) =>
      w.(activeWriter := Some(i), threads := w.threads[i := RotateHolds(newKey)])
    case RotateHolds(newKey) =>
      var out := SetRetired(w.active, w.clock);
      w.(active := newKey, log := w.log + [out], threads := w.threads[i := RotateSwapped(out)])
    case RotateSwapped(out) =>
      w.(retiredWriter := Some(i), threads := w.threads[i := RotateHoldsBoth(out)])
    case RotateHoldsBoth(out) =>
      w.(retired := Prune(w.retired + [out], p.grace, w.clock), threads := w.threads[i := RotatePushed])
    case RotatePushed =>
      w.(retiredWriter := None, threads := w.threads[i := RotateReleasing])
    case RotateReleasing =>
      w.(activeWriter := None, threads := w.threads[i := RotateDone])
    case ValidateCall(token, custom) =>
      var v := if custom.Some? then custom.value else Validation(AlgorithmOf(w.active), true);
      w.(threads := w.threads[i := ValidateChecking(token, v)])
    case ValidateChecking(token, v) =>
      w.(activeReaders := w.activeReaders + {i}, threads := w.threads[i := ValidateReading(token, v)])
    case ValidateReading(token, v) =>
      var claims := TryKey(token, w.active, v, w.clock, p.decode);
      w.(activeReaders := w.activeReaders - {i},
         threads := w.threads[i := if claims.Some? then ValidateDone(token, v, claims) else ValidateMissed(token, v)])
    case ValidateMissed(token, v) =>
      w.(retiredWriter := Some(i), threads := w.threads[i := ValidatePruning(token, v)])
    case ValidatePruning(token, v) =>
      w.(retired := Prune(w.retired, p.grace, w.clock), threads := w.threads[i := ValidateScanning(token, v)])
    case ValidateScanning(token, v) =>
      w.(retiredWriter := None,
         threads := w.threads[i := ValidateDone(token, v, FirstAccepting(w.retired, token, v, w.clock, p.decode))])
  }

  predicate CanMove(w: World, m: Move) {
    m.Act? ==> Enabled(w, m.thread)
  }

  function Moved(w: World, m: Move, p: Params): World
    requires CanMove(w, m)
  {
    match m
    case Tick(ticks) => w.(clock := w.clock + ticks)
    case Act(i) => ActStep(w, i, p)
  }

  ghost predicate Legal(w: World, moves: seq<Move>, p: Params)
    decreases |moves|, 0
  {
    moves != [] ==>
      Legal(w, moves[..|moves| - 1], p) && CanMove(Exec(w, moves[..|moves| - 1], p), moves[|moves| - 1])
  }

  ghost function Exec(w: World, moves: seq<Move>, p: Params): World
    requires Legal(w, moves, p)
    decreases |moves|, 1
  {
    if moves == [] then w else Moved(Exec(w, moves[..|moves| - 1], p), moves[|moves| - 1], p)
  }

  predicate IsCall(t: Thread) {
    t.RotateCall? || t.ValidateCall?
  }

  ghost predicate Initial(w: World) {
    && w.retired == [] && w.log == []
    && w.activeWriter.None? && w.activeReaders == {} && w.retiredWriter.None?
    && forall j | j in w.threads :: IsCall(w.threads[j])
  }

  // ----- Locks

  predicate HoldsActiveWrite(t: Thread) {
    t.RotateHolds? || t.RotateSwapped? || t.RotateHoldsBoth? || t.RotatePushed? || t.RotateReleasing?
  }

  predicate HoldsRetired(t: Thread) {
    t.RotateHoldsBoth? || t.RotatePushed? || t.ValidatePruning? || t.ValidateScanning?
  }

  /** Each guard is held by exactly the thread whose position says so, and a writer excludes readers. */
  ghost predicate ActiveLock(w: World) {
    && (forall j | j in w.threads :: HoldsActiveWrite(w.threads[j]) <==> w.activeWriter == Some(j))
    && (forall j | j in w.threads :: w.threads[j].ValidateReading? <==> j in w.activeReaders)
    && (w.activeWriter.Some? ==> w.activeWriter.value in w.threads && w.activeReaders == {})
    && w.activeReaders <= w.threads.Keys
  }

  ghost predicate RetiredLock(w: World) {
    && (forall j | j in w.threads :: HoldsRetired(w.threads[j]) <==> w.retiredWriter == Some(j))
    && (w.retiredWriter.Some? ==> w.retiredWriter.value in w.threads)
  }

  predicate InTransit(w: World, x: KeyMaterial) {
    && w.activeWriter.Some? && w.activeWriter.value in w.threads
    && var t := w.threads[w.activeWriter.value]; (t == RotateSwapped(x) || t == RotateHoldsBoth(x))
  }

  /** A retired key sits in the list, or its grace is over. */
  predicate Settled(w: World, x: KeyMaterial, grace: int) {
    x in w.retired || !WithinGrace(x, grace, w.clock)
  }

  /** No retired key is lost while its grace lasts: it is in the list or with the rotation holding the active lock. */
  ghost predicate KeysInv(w: World, grace: int) {
    && (forall x | x in w.log :: x.retiredAt.Some? && x.retiredAt.value <= w.clock)
    && (forall x | x in w.log :: InTransit(w, x) || Settled(w, x, grace))
    && (forall x | x in w.retired :: x in w.log)
    && (forall j | j in w.threads :: w.threads[j].RotateSwapped? || w.threads[j].RotateHoldsBoth? ==>
          w.threads[j].oldKey in w.log)
  }

  ghost predicate Inv(w: World, grace: int) {
    ActiveLock(w) && RetiredLock(w) && KeysInv(w, grace)
  }

  lemma ActiveLockRotate(w: World, i: nat, p: Params)
    requires ActiveLock(w) && Enabled(w, i) && (w.threads[i].RotateCall? || w.threads[i].RotateReleasing?)
    ensures ActiveLock(ActStep(w, i, p))
  {
    hide Prune, FirstAccepting, TryKey, SetRetired;
  }

  lemma ActiveLockOther(w: World, i: nat, p: Params)
    requires ActiveLock(w) && Enabled(w, i) && !w.threads[i].RotateCall? && !w.threads[i].RotateReleasing?
    ensures ActiveLock(ActStep(w, i, p))
  {
    hide Prune, FirstAccepting, TryKey, SetRetired;
  }

  lemma ActiveLockStep(w: World, m: Move, p: Params)
    requires ActiveLock(w) && CanMove(w, m)
    ensures ActiveLock(Moved(w, m, p))
  {
    hide ActStep;
    if m.Act? {
      if w.threads[m.thread].RotateCall? || w.threads[m.thread].RotateReleasing? {
        ActiveLockRotate(w, m.thread, p);
      } else {
        ActiveLockOther(w, m.thread, p);
      }
    }
  }

  lemma RetiredLockStep(w: World, m: Move, p: Params)
    requires RetiredLock(w) && CanMove(w, m)
    ensures RetiredLock(Moved(w, m, p))
  {
  }

  lemma PruneKeeps(keys: seq<KeyMaterial>, grace: int, now: int)
    ensures forall x :: x in Prune(keys, grace, now) <==> x in keys && WithinGrace(x, grace, now)
  {
    forall x {
      PruneMembers(keys, grace, now, x);
    }
  }

  lemma SwapStep(w: World, i: nat, p: Params)
    requires Inv(w, p.grace) && Enabled(w, i) && w.threads[i].RotateHolds?
    ensures KeysInv(ActStep(w, i, p), p.grace)
  {
  }

  lemma PushStep(w: World, i: nat, p: Params)
    requires Inv(w, p.grace) && Enabled(w, i) && w.threads[i].RotateHoldsBoth?
    ensures KeysInv(ActStep(w, i, p), p.grace)
  {
    PruneKeeps(w.retired + [w.threads[i].oldKey], p.grace, w.clock);
  }

  lemma PruneStep(w: World, i: nat, p: Params)
    requires Inv(w, p.grace) && Enabled(w, i) && w.threads[i].ValidatePruning?
    ensures KeysInv(ActStep(w, i, p), p.grace)
  {
    PruneKeeps(w.retired, p.grace, w.clock);
  }

  lemma KeysStep(w: World, m: Move, p: Params)
    requires Inv(w, p.grace) && CanMove(w, m)
    ensures KeysInv(Moved(w, m, p), p.grace)
  {
    if m.Tick? {
    } else if w.threads[m.thread].RotateHolds? {
      SwapStep(w, m.thread, p);
    } else if w.threads[m.thread].RotateHoldsBoth? {
      PushStep(w, m.thread, p);
    } else if w.threads[m.thread].ValidatePruning? {
      PruneStep(w, m.thread, p);
    } else {
      var w' := Moved(w, m, p);
      assert w'.log == w.log && w'.retired == w.retired && w'.clock == w.clock;
      forall x | x in w.log && InTransit(w, x)
        ensures InTransit(w', x)
      {
      }
    }
  }

  lemma {:induction false} InvHolds(w: World, moves: seq<Move>, p: Params)
    requires Inv(w, p.grace) && Legal(w, moves, p)
    ensures Inv(Exec(w, moves, p), p.grace)
    ensures Exec(w, moves, p).clock >= w.clock
    decreases |moves|
  {
    if moves == [] {
    } else {
      var rest, last := moves[..|moves| - 1], moves[|moves| - 1];
      InvHolds(w, rest, p);
      ActiveLockStep(Exec(w, rest, p), last, p);
      RetiredLockStep(Exec(w, rest, p), last, p);
      KeysStep(Exec(w, rest, p), last, p);
    }
  }

  lemma InitialInv(w: World, grace: int)
    requires Initial(w)
    ensures Inv(w, grace)
  {
  }

  /** The lock order has no cycle: in every reachable world, some unfinished call can step. */
  lemma NeverStuck(w: World, moves: seq<Move>, p: Params, i: nat) returns (j: nat)
    requires Initial(w) && Legal(w, moves, p)
    requires i in Exec(w, moves, p).threads
    requires !Exec(w, moves, p).threads[i].RotateDone? && !Exec(w, moves, p).threads[i].ValidateDone?
    ensures Enabled(Exec(w, moves, p), j)
  {
    InitialInv(w, p.grace);
    InvHolds(w, moves, p);
    var now := Exec(w, moves, p);
    if now.retiredWriter.Some? {
      j := now.retiredWriter.value;
    } else if now.activeWriter.Some? {
      j := now.activeWriter.value;
    } else if now.activeReaders != {} {
      j :| j in now.activeReaders;
    } else {
      j := i;
    }
  }

  // ----- No live key is refused

  predicate SameKey(x: KeyMaterial, k: KeyMaterial) {
    x.(retiredAt := None) == k.(retiredAt := None)
  }

  /** `k` has been the active key, now or earlier. */
  ghost predicate BeenActive(w: World, k: KeyMaterial) {
    SameKey(w.active, k) || exists x :: x in w.log && SameKey(x, k)
  }

  /** `token` carries a signature of `k` and claims that hold until `exp`. */
  ghost predicate GoodUntil(decode: Decoder, token: Token, k: KeyMaterial, exp: int) {
    && (token.kid.Some? ==> token.kid.value == k.kid)
    && match k
       case Hmac(_, secret, _, _) =>
         forall v: Validation, t :: v.algorithm.HS256? && t <= exp ==> decode(token, FromSecret(secret), v, t).Some?
       case Rsa(_, _, publicKeyPem, _, _) =>
         forall v: Validation, t :: v.algorithm.RS256? && t <= exp ==> decode(token, FromRsaPem(publicKeyPem), v, t).Some?
  }

  lemma SameKeyDecides(x: KeyMaterial, k: KeyMaterial, token: Token, v: Validation, now: int, decode: Decoder)
    requires SameKey(x, k)
    ensures TryKey(token, x, v, now, decode) == TryKey(token, k, v, now, decode)
    ensures AlgorithmOf(x) == AlgorithmOf(k)
  {
    assert x.Hmac? == x.(retiredAt := None).Hmac?;
    assert k.Hmac? == k.(retiredAt := None).Hmac?;
  }

  /** A retired copy of `k` is in the list, or its grace is over. */
  ghost predicate Reachable(w: World, k: KeyMaterial, grace: int) {
    exists x :: x in w.log && SameKey(x, k) && Settled(w, x, grace)
  }

  ghost predicate Lapsed(w: World, k: KeyMaterial, grace: int) {
    exists x :: x in w.log && SameKey(x, k) && !WithinGrace(x, grace, w.clock)
  }

  /** What holds of validation `i` of a good token of `k` at each of its positions. */
  ghost predicate Followed(w: World, i: nat, k: KeyMaterial, token: Token, grace: int) {
    && i in w.threads && BeenActive(w, k)
    && match w.threads[i]
       case ValidateCall(tk, _) => tk == token
       case ValidateChecking(tk, _) => tk == token
       case ValidateReading(tk, _) => tk == token
       case ValidateMissed(tk, v) => tk == token && (v.algorithm == AlgorithmOf(k) ==> Reachable(w, k, grace))
       case ValidatePruning(tk, v) => tk == token && (v.algorithm == AlgorithmOf(k) ==> Reachable(w, k, grace))
       case ValidateScanning(tk, v) => tk == token && (v.algorithm == AlgorithmOf(k) ==> Reachable(w, k, grace))
       case ValidateDone(tk, v, result) =>
         tk == token && (v.algorithm == AlgorithmOf(k) ==> result.Some? || Lapsed(w, k, grace))
       case _ => false
  }

  lemma BeenActiveStays(w: World, m: Move, p: Params, k: KeyMaterial)
    requires CanMove(w, m) && BeenActive(w, k)
    ensures BeenActive(Moved(w, m, p), k)
  {
    var w' := Moved(w, m, p);
    if w'.log != w.log {
      var out := SetRetired(w.active, w.clock);
      assert w'.log == w.log + [out];
      if SameKey(w.active, k) {
        assert out in w'.log && SameKey(out, k);
      } else {
        var x :| x in w.log && SameKey(x, k);
        assert x in w'.log;
      }
    }
  }

  lemma SettledStays(w: World, m: Move, p: Params, x: KeyMaterial)
    requires CanMove(w, m) && Settled(w, x, p.grace)
    ensures Settled(Moved(w, m, p), x, p.grace)
    ensures x in w.log ==> x in Moved(w, m, p).log
  {
    if m.Act? {
      if w.threads[m.thread].RotateHoldsBoth? {
        PruneKeeps(w.retired + [w.threads[m.thread].oldKey], p.grace, w.clock);
      } else if w.threads[m.thread].ValidatePruning? {
        PruneKeeps(w.retired, p.grace, w.clock);
      }
    }
  }

  lemma ReachableStays(w: World, m: Move, p: Params, k: KeyMaterial)
    requires CanMove(w, m)
    ensures Reachable(w, k, p.grace) ==> Reachable(Moved(w, m, p), k, p.grace)
    ensures Lapsed(w, k, p.grace) ==> Lapsed(Moved(w, m, p), k, p.grace)
  {
    var w' := Moved(w, m, p);
    if Reachable(w, k, p.grace) {
      var x :| x in w.log && SameKey(x, k) && Settled(w, x, p.grace);
      SettledStays(w, m, p, x);
    }
    if Lapsed(w, k, p.grace) {
      var x :| x in w.log && SameKey(x, k) && !WithinGrace(x, p.grace, w.clock);
      assert x in w'.log && w.clock <= w'.clock;
    }
  }

  /** Under the read guard no key is in transit: a key that is not active is settled. */
  lemma MissedIsReachable(w: World, i: nat, p: Params, k: KeyMaterial, exp: int)
    requires Inv(w, p.grace) && Enabled(w, i) && w.threads[i].ValidateReading? && BeenActive(w, k)
    requires GoodUntil(p.decode, w.threads[i].token, k, exp) && w.clock <= exp
    requires w.threads[i].validation.algorithm == AlgorithmOf(k)
    ensures ActStep(w, i, p).threads[i].ValidateDone? || Reachable(w, k, p.grace)
  {
    var token, v := w.threads[i].token, w.threads[i].validation;
    if SameKey(w.active, k) {
      SameKeyDecides(w.active, k, token, v, w.clock, p.decode);
    } else {
      var x :| x in w.log && SameKey(x, k);
      assert i in w.activeReaders;
      assert !InTransit(w, x);
    }
  }

  /** A scan that refuses has met every key still in the list. */
  lemma ScanRefusesOnlyLapsed(w: World, i: nat, p: Params, k: KeyMaterial, exp: int)
    requires Enabled(w, i) && w.threads[i].ValidateScanning? && Reachable(w, k, p.grace)
    requires GoodUntil(p.decode, w.threads[i].token, k, exp) && w.clock <= exp
    requires w.threads[i].validation.algorithm == AlgorithmOf(k)
    ensures ActStep(w, i, p).threads[i].result.Some? || Lapsed(w, k, p.grace)
  {
    var token, v := w.threads[i].token, w.threads[i].validation;
    FirstAcceptingMeaning(w.retired, token, v, w.clock, p.decode);
    var x :| x in w.log && SameKey(x, k) && Settled(w, x, p.grace);
    SameKeyDecides(x, k, token, v, w.clock, p.decode);
    assert TryKey(token, x, v, w.clock, p.decode).Some?;
  }

  lemma FollowedOwn(w: World, p: Params, i: nat, k: KeyMaterial, token: Token, exp: int)
    requires Inv(w, p.grace) && Enabled(w, i) && w.clock <= exp
    requires Followed(w, i, k, token, p.grace) && GoodUntil(p.decode, token, k, exp)
    requires BeenActive(ActStep(w, i, p), k)
    requires Reachable(w, k, p.grace) ==> Reachable(ActStep(w, i, p), k, p.grace)
    requires Lapsed(w, k, p.grace) ==> Lapsed(ActStep(w, i, p), k, p.grace)
    ensures Followed(ActStep(w, i, p), i, k, token, p.grace)
  {
    hide Inv, GoodUntil, BeenActive, Lapsed, Prune, FirstAccepting, TryKey, Reachable, KeysInv;
    var t := w.threads[i];
    if t.ValidateReading? && t.validation.algorithm == AlgorithmOf(k) {
      MissedIsReachable(w, i, p, k, exp);
    } else if t.ValidateScanning? && t.validation.algorithm == AlgorithmOf(k) {
      ScanRefusesOnlyLapsed(w, i, p, k, exp);
    }
  }

  lemma FollowedStep(w: World, m: Move, p: Params, i: nat, k: KeyMaterial, token: Token, exp: int)
    requires Inv(w, p.grace) && CanMove(w, m) && w.clock <= exp
    requires Followed(w, i, k, token, p.grace) && GoodUntil(p.decode, token, k, exp)
    ensures Followed(Moved(w, m, p), i, k, token, p.grace)
  {
    BeenActiveStays(w, m, p, k);
    ReachableStays(w, m, p, k);
    if m == Act(i) {
      FollowedOwn(w, p, i, k, token, exp);
    } else {
      StillThere(w, m, p, i);
      hide Moved, Inv, GoodUntil, BeenActive, Reachable, Lapsed;
    }
  }

  lemma StillThere(w: World, m: Move, p: Params, j: nat)
    requires CanMove(w, m) && j in w.threads && m != Act(j)
    ensures j in Moved(w, m, p).threads && Moved(w, m, p).threads[j] == w.threads[j]
  {
  }

  lemma ClockNeverBack(w: World, m: Move, p: Params)
    requires CanMove(w, m)
    ensures w.clock <= Moved(w, m, p).clock
  {
  }

  lemma {:induction false} FollowedHolds(
    w: World, moves: seq<Move>, p: Params, i: nat, k: KeyMaterial, token: Token, exp: int
  )
    requires Inv(w, p.grace) && Legal(w, moves, p) && Exec(w, moves, p).clock <= exp
    requires Followed(w, i, k, token, p.grace) && GoodUntil(p.decode, token, k, exp)
    ensures Followed(Exec(w, moves, p), i, k, token, p.grace)
    decreases |moves|
  {
    hide Inv, Followed, Moved, GoodUntil;
    if moves == [] {
    } else {
      var rest := moves[..|moves| - 1];
      InvHolds(w, rest, p);
      ClockNeverBack(Exec(w, rest, p), moves[|moves| - 1], p);
      FollowedHolds(w, rest, p, i, k, token, exp);
      FollowedStep(Exec(w, rest, p), moves[|moves| - 1], p, i, k, token, exp);
    }
  }

  /** At the end, a key whose grace is not over was not refused under its own algorithm. */
  lemma FollowedToLive(w: World, i: nat, k: KeyMaterial, token: Token, grace: int)
    requires Followed(w, i, k, token, grace) && w.threads[i].ValidateDone?
    requires forall x | x in w.log && SameKey(x, k) :: WithinGrace(x, grace, w.clock)
    ensures var done := w.threads[i];
            done.token == token && (done.validation.algorithm == AlgorithmOf(k) ==> done.result.Some?)
  {
  }

  /**
   In every interleaving: a validation that starts after `k` was installed, of a token good under
   `k`, whose call ends with `k` active or within its grace, is refused only if another algorithm
   was active when the call read it.
   */
  lemma LiveKeyNeverRefused(
    start: World, before: seq<Move>, during: seq<Move>, p: Params,
    i: nat, k: KeyMaterial, token: Token, custom: Option<Validation>
  )
    requires Initial(start) && Legal(start, before, p) && Legal(Exec(start, before, p), during, p)
    requires var called := Exec(start, before, p);
             i in called.threads && called.threads[i] == ValidateCall(token, custom) && BeenActive(called, k)
    requires var ended := Exec(Exec(start, before, p), during, p);
             && i in ended.threads && ended.threads[i].ValidateDone?
             && (forall x | x in ended.log && SameKey(x, k) :: WithinGrace(x, p.grace, ended.clock))
             && GoodUntil(p.decode, token, k, ended.clock)
    ensures var done := Exec(Exec(start, before, p), during, p).threads[i];
            done.token == token && (done.validation.algorithm == AlgorithmOf(k) ==> done.result.Some?)
  {
    var called := Exec(start, before, p);
    var ended := Exec(called, during, p);
    InitialInv(start, p.grace);
    InvHolds(start, before, p);
    assert Followed(called, i, k, token, p.grace);
    hide Initial, Legal, Exec, Inv, GoodUntil, BeenActive, Followed;
    FollowedHolds(called, during, p, i, k, token, ended.clock);
    FollowedToLive(ended, i, k, token, p.grace);
  }

  // ----- One algorithm family

  /** Every key, now and to come, and every validation is of algorithm `a`. */
  ghost predicate OneFamily(w: World, a: Algorithm) {
    && AlgorithmOf(w.active) == a
    && forall j | j in w.threads ::
         match w.threads[j]
         case RotateCall(newKey) => AlgorithmOf(newKey) == a
         case RotateHolds(newKey) => AlgorithmOf(newKey) == a
         case ValidateCall(_, custom) => custom.Some? ==> custom.value.algorithm == a
         case ValidateChecking(_, v) => v.algorithm == a
         case ValidateReading(_, v) => v.algorithm == a
         case ValidateMissed(_, v) => v.algorithm == a
         case ValidatePruning(_, v) => v.algorithm == a
         case ValidateScanning(_, v) => v.algorithm == a
         case ValidateDone(_, v, _) => v.algorithm == a
         case _ => true
  }

  lemma FamilyStep(w: World, m: Move, p: Params, a: Algorithm)
    requires OneFamily(w, a) && CanMove(w, m)
    ensures OneFamily(Moved(w, m, p), a)
  {
    if m.Act? {
      match w.threads[m.thread] {
        case RotateCall(_) =>
        case RotateHolds(_) =>
        case _ =>
      }
    }
  }

  lemma {:induction false} FamilyHolds(w: World, moves: seq<Move>, p: Params, a: Algorithm)
    requires OneFamily(w, a) && Legal(w, moves, p)
    ensures OneFamily(Exec(w, moves, p), a)
    decreases |moves|
  {
    if moves == [] {
    } else {
      FamilyHolds(w, moves[..|moves| - 1], p, a);
      FamilyStep(Exec(w, moves[..|moves| - 1], p), moves[|moves| - 1], p, a);
    }
  }

  /** With one algorithm family, such a token is never refused. */
  lemma OneFamilyNeverRefuses(
    start: World, before: seq<Move>, during: seq<Move>, p: Params,
    i: nat, k: KeyMaterial, token: Token, custom: Option<Validation>
  )
    requires Initial(start) && Legal(start, before, p) && Legal(Exec(start, before, p), during, p)
    requires OneFamily(start, AlgorithmOf(k))
    requires var called := Exec(start, before, p);
             i in called.threads && called.threads[i] == ValidateCall(token, custom) && BeenActive(called, k)
    requires var ended := Exec(Exec(start, before, p), during, p);
             && i in ended.threads && ended.threads[i].ValidateDone?
             && (forall x | x in ended.log && SameKey(x, k) :: WithinGrace(x, p.grace, ended.clock))
             && GoodUntil(p.decode, token, k, ended.clock)
    ensures Exec(Exec(start, before, p), during, p).threads[i].result.Some?
  {
    LiveKeyNeverRefused(start, before, during, p, i, k, token, custom);
    FamilyHolds(start, before, p, AlgorithmOf(k));
    FamilyHolds(Exec(start, before, p), during, p, AlgorithmOf(k));
  }

  // ----- Only live keys accept

  predicate IsValidationOf(t: Thread, token: Token) {
    && (t.ValidateCall? || t.ValidateChecking? || t.ValidateReading? || t.ValidateMissed? || t.ValidatePruning? ||
        t.ValidateScanning? || t.ValidateDone?)
    && t.token == token
  }

  lemma TokenStaysStep(w: World, m: Move, p: Params, i: nat, token: Token)
    requires CanMove(w, m) && i in w.threads && IsValidationOf(w.threads[i], token)
    ensures i in Moved(w, m, p).threads && IsValidationOf(Moved(w, m, p).threads[i], token)
  {
  }

  lemma {:induction false} TokenStays(w: World, moves: seq<Move>, p: Params, i: nat, token: Token)
    requires Legal(w, moves, p) && i in w.threads && IsValidationOf(w.threads[i], token)
    ensures i in Exec(w, moves, p).threads && IsValidationOf(Exec(w, moves, p).threads[i], token)
    decreases |moves|
  {
    hide Moved, IsValidationOf;
    if moves == [] {
    } else {
      TokenStays(w, moves[..|moves| - 1], p, i, token);
      TokenStaysStep(Exec(w, moves[..|moves| - 1], p), moves[|moves| - 1], p, i, token);
    }
  }

  /** The list can change only under a lock that a scanning validation holds. */
  lemma ScanHoldsList(w: World, m: Move, p: Params, i: nat)
    requires Inv(w, p.grace) && CanMove(w, m) && m != Act(i) && i in w.threads && w.threads[i].ValidateScanning?
    ensures Moved(w, m, p).retired == w.retired && Moved(w, m, p).threads[i] == w.threads[i]
  {
  }

  lemma ScanBegins(w: World, i: nat, p: Params)
    requires Enabled(w, i) && ActStep(w, i, p).threads[i].ValidateScanning?
    ensures w.threads[i].ValidatePruning? && Moved(w, Act(i), p).retired == Prune(w.retired, p.grace, w.clock)
  {
  }

  /** Validation `i` is about to prune after the first `m` moves. */
  ghost predicate PrunesAt(w: World, moves: seq<Move>, p: Params, i: nat, m: nat) {
    && m < |moves| && Legal(w, moves[..m], p)
    && var there := Exec(w, moves[..m], p); i in there.threads && there.threads[i].ValidatePruning?
  }

  /** What a validation scans is what its own prune left. */
  lemma {:induction false} ScanAfterPrune(w: World, moves: seq<Move>, p: Params, i: nat) returns (m: nat)
    requires Inv(w, p.grace) && Legal(w, moves, p) && i in w.threads && w.threads[i].ValidateCall?
    requires i in Exec(w, moves, p).threads && Exec(w, moves, p).threads[i].ValidateScanning?
    ensures PrunesAt(w, moves, p, i, m)
    ensures var there := Exec(w, moves[..m], p);
            Exec(w, moves, p).retired == Prune(there.retired, p.grace, there.clock)
    decreases |moves|
  {
    if moves == [] {
      assert false;
    } else {
      hide ActStep, Inv;
      var rest, last := moves[..|moves| - 1], moves[|moves| - 1];
      InvHolds(w, rest, p);
      if last == Act(i) {
        m := |rest|;
        ScanBegins(Exec(w, rest, p), i, p);
      } else {
        OthersUnchanged(Exec(w, rest, p), last, p, i);
        m := ScanAfterPrune(w, rest, p, i);
        ScanHoldsList(Exec(w, rest, p), last, p, i);
        assert rest[..m] == moves[..m];
      }
    }
  }

  lemma OthersUnchanged(w: World, m: Move, p: Params, j: nat)
    requires CanMove(w, m) && j in Moved(w, m, p).threads && m != Act(j)
    ensures j in w.threads && Moved(w, m, p).threads[j] == w.threads[j]
  {
  }

  /** `key` is active after the first `n` moves. */
  ghost predicate ActiveAt(w: World, moves: seq<Move>, p: Params, n: nat, key: KeyMaterial) {
    n < |moves| && Legal(w, moves[..n], p) && Exec(w, moves[..n], p).active == key
  }

  /** Validation `i` prunes after the first `m` moves, and `key` is in the list and within its grace there. */
  ghost predicate PrunedWith(w: World, moves: seq<Move>, p: Params, i: nat, m: nat, key: KeyMaterial) {
    && PrunesAt(w, moves, p, i, m)
    && var there := Exec(w, moves[..m], p);
       key in there.retired && key in there.log && WithinGrace(key, p.grace, there.clock)
  }

  /** A scan accepts under some key of the list. */
  lemma ScanAccepts(w: World, i: nat, p: Params) returns (key: KeyMaterial)
    requires Enabled(w, i) && w.threads[i].ValidateScanning? && ActStep(w, i, p).threads[i].result.Some?
    ensures var t, done := w.threads[i], ActStep(w, i, p).threads[i];
            && key in w.retired && done.token == t.token && done.validation == t.validation
            && TryKey(t.token, key, t.validation, w.clock, p.decode) == done.result
  {
    var t := w.threads[i];
    FirstAcceptingMeaning(w.retired, t.token, t.validation, w.clock, p.decode);
    hide TryKey, FirstAccepting;
    key :| key in w.retired && TryKey(t.token, key, t.validation, w.clock, p.decode) == ActStep(w, i, p).threads[i].result;
  }

  lemma ReadAccepts(w: World, i: nat, p: Params)
    requires Enabled(w, i) && ActStep(w, i, p).threads[i].ValidateDone? && ActStep(w, i, p).threads[i].result.Some?
    ensures w.threads[i].ValidateReading? || w.threads[i].ValidateScanning?
    ensures var done := ActStep(w, i, p).threads[i];
            w.threads[i].ValidateReading? ==>
              TryKey(done.token, w.active, done.validation, w.clock, p.decode) == done.result
  {
    hide TryKey, FirstAccepting, Prune;
  }

  /** The step with which a validation accepts is taken with the read guard, or after its own prune. */
  lemma AcceptStep(w: World, moves: seq<Move>, p: Params, i: nat) returns (m: nat, key: KeyMaterial)
    requires Inv(w, p.grace) && moves != [] && Legal(w, moves, p) && moves[|moves| - 1] == Act(i)
    requires i in w.threads && w.threads[i].ValidateCall?
    requires var ended := Exec(w, moves, p);
             i in ended.threads && ended.threads[i].ValidateDone? && ended.threads[i].result.Some?
    ensures var n, done := |moves| - 1, Exec(w, moves, p).threads[i];
            && Legal(w, moves[..n], p)
            && TryKey(done.token, key, done.validation, Exec(w, moves[..n], p).clock, p.decode) == done.result
            && (ActiveAt(w, moves, p, n, key) || PrunedWith(w, moves, p, i, m, key))
  {
    var rest := moves[..|moves| - 1];
    var now := Exec(w, rest, p);
    m, key := 0, now.active;
    ReadAccepts(now, i, p);
    hide ActStep, TryKey, Inv;
    if now.threads[i].ValidateScanning? {
      key := ScanAccepts(now, i, p);
      m := ScanAfterPrune(w, rest, p, i);
      assert rest[..m] == moves[..m];
      var there := Exec(w, moves[..m], p);
      PruneMembers(there.retired, p.grace, there.clock, key);
      InvHolds(w, rest[..m], p);
      ListIsLogged(there, p.grace, key);
    }
  }

  lemma ListIsLogged(w: World, grace: int, key: KeyMaterial)
    requires Inv(w, grace) && key in w.retired
    ensures key in w.log
  {
  }

  lemma {:induction false} AcceptMoment(w: World, moves: seq<Move>, p: Params, i: nat)
    returns (n: nat, m: nat, key: KeyMaterial)
    requires Inv(w, p.grace) && Legal(w, moves, p) && i in w.threads && w.threads[i].ValidateCall?
    requires var ended := Exec(w, moves, p);
             i in ended.threads && ended.threads[i].ValidateDone? && ended.threads[i].result.Some?
    ensures n < |moves| && Legal(w, moves[..n], p)
    ensures var done := Exec(w, moves, p).threads[i];
            TryKey(done.token, key, done.validation, Exec(w, moves[..n], p).clock, p.decode) == done.result
    ensures ActiveAt(w, moves, p, n, key) || (m < n && PrunedWith(w, moves, p, i, m, key))
    decreases |moves|
  {
    if moves == [] {
      assert false;
    } else {
      var rest, last := moves[..|moves| - 1], moves[|moves| - 1];
      if last == Act(i) {
        n := |rest|;
        m, key := AcceptStep(w, moves, p, i);
      } else {
        OthersUnchanged(Exec(w, rest, p), last, p, i);
        n, m, key := AcceptMoment(w, rest, p, i);
        assert rest[..n] == moves[..n];
        assert m < n ==> rest[..m] == moves[..m];
      }
    }
  }

  /**
   In every interleaving, a token is accepted only under a key that was live during the call: there
   is a moment `n` of the call at which the key accepts the token, and either the key is the active
   one at that moment, or the call itself pruned the list at an earlier moment `m` of the call, with
   the key in it, retired, and within its grace.
   */
  lemma AcceptsOnlyLiveKeys(
    start: World, before: seq<Move>, during: seq<Move>, p: Params, i: nat, token: Token, custom: Option<Validation>
  ) returns (n: nat, m: nat, key: KeyMaterial)
    requires Initial(start) && Legal(start, before, p) && Legal(Exec(start, before, p), during, p)
    requires var called := Exec(start, before, p);
             i in called.threads && called.threads[i] == ValidateCall(token, custom)
    requires var ended := Exec(Exec(start, before, p), during, p);
             i in ended.threads && ended.threads[i].ValidateDone? && ended.threads[i].result.Some?
    ensures var called := Exec(start, before, p);
            && n < |during| && Legal(called, during[..n], p)
            && (ActiveAt(called, during, p, n, key) || (m < n && PrunedWith(called, during, p, i, m, key)))
    ensures var called := Exec(start, before, p);
            var done := Exec(called, during, p).threads[i];
            && done.token == token
            && TryKey(token, key, done.validation, Exec(called, during[..n], p).clock, p.decode) == done.result
  {
    InitialInv(start, p.grace);
    InvHolds(start, before, p);
    n, m, key := AcceptMoment(Exec(start, before, p), during, p, i);
    TokenStays(Exec(start, before, p), during, p, i, token);
  }

  // ----- Accepted or refused, exactly

  /** No two keys of the history share the kid of `k`. */
  ghost predicate OwnKid(w: World, k: KeyMaterial) {
    && (w.active.kid == k.kid ==> SameKey(w.active, k))
    && forall x | x in w.log && x.kid == k.kid :: SameKey(x, k)
  }

  lemma {:induction false} BeenActiveLater(w: World, moves: seq<Move>, p: Params, n: nat, key: KeyMaterial)
    requires Legal(w, moves, p) && n <= |moves| && Legal(w, moves[..n], p) && BeenActive(Exec(w, moves[..n], p), key)
    ensures BeenActive(Exec(w, moves, p), key)
    decreases |moves|
  {
    hide Moved, BeenActive;
    if n == |moves| {
      assert moves[..n] == moves;
    } else {
      var rest := moves[..|moves| - 1];
      assert rest[..n] == moves[..n];
      BeenActiveLater(w, rest, p, n, key);
      BeenActiveStays(Exec(w, rest, p), moves[|moves| - 1], p, key);
    }
  }

  /** A key of the history that matches the kid of `k` decides as `k` does. */
  lemma OwnKidDecides(
    w: World, k: KeyMaterial, key: KeyMaterial, token: Token, v: Validation, now: int, decode: Decoder
  )
    requires OwnKid(w, k) && BeenActive(w, key) && token.kid == Some(k.kid)
    ensures TryKey(token, key, v, now, decode).Some? ==>
              TryKey(token, key, v, now, decode) == decode(token, DecodingKeyOf(k), v, now)
  {
    if KidMatches(token, key) {
      assert SameKey(key, k) by {
        if SameKey(w.active, key) {
          SameKid(w.active, key);
        } else {
          var x :| x in w.log && SameKey(x, key);
          SameKid(x, key);
        }
      }
      SameKeyDecides(key, k, token, v, now, decode);
    }
  }

  lemma SameKid(x: KeyMaterial, y: KeyMaterial)
    requires SameKey(x, y)
    ensures x.kid == y.kid
  {
    assert x.(retiredAt := None).kid == x.kid && y.(retiredAt := None).kid == y.kid;
  }

  /** An acceptance is under `k`, with its claims and its algorithm. */
  lemma AcceptedUnder(
    start: World, before: seq<Move>, during: seq<Move>, p: Params,
    i: nat, k: KeyMaterial, token: Token, custom: Option<Validation>, claims: Claims, until: int
  )
    requires Initial(start) && Legal(start, before, p) && Legal(Exec(start, before, p), during, p)
    requires var called := Exec(start, before, p);
             i in called.threads && called.threads[i] == ValidateCall(token, custom)
    requires var ended := Exec(Exec(start, before, p), during, p);
             && i in ended.threads && ended.threads[i].ValidateDone? && ended.threads[i].result.Some?
             && OwnKid(ended, k) && JwtLaws.MintedUnder(p.decode, token, k, claims, until)
    ensures var done := Exec(Exec(start, before, p), during, p).threads[i];
            done.result == Some(claims) && done.validation.algorithm == AlgorithmOf(k)
  {
    var called := Exec(start, before, p);
    var ended := Exec(called, during, p);
    var n, m, key := AcceptsOnlyLiveKeys(start, before, during, p, i, token, custom);
    if ActiveAt(called, during, p, n, key) {
      assert BeenActive(Exec(called, during[..n], p), key);
      BeenActiveLater(called, during, p, n, key);
    } else {
      assert BeenActive(Exec(called, during[..m], p), key);
      BeenActiveLater(called, during, p, m, key);
    }
    hide Exec, Legal, BeenActive, OwnKid, ActiveAt, PrunedWith;
    OwnKidDecides(ended, k, key, token, ended.threads[i].validation, Exec(called, during[..n], p).clock, p.decode);
  }

  /**
   In every interleaving, a token minted under `k` and not expired, whose call starts after `k` was
   installed and ends with `k` active or within its grace, is accepted with its claims exactly when
   the algorithm the call read is the one of `k`, and refused otherwise; kids are not reused.
   */
  lemma AcceptsExactly(
    start: World, before: seq<Move>, during: seq<Move>, p: Params,
    i: nat, k: KeyMaterial, token: Token, custom: Option<Validation>, claims: Claims, until: int
  )
    requires Initial(start) && Legal(start, before, p) && Legal(Exec(start, before, p), during, p)
    requires var called := Exec(start, before, p);
             i in called.threads && called.threads[i] == ValidateCall(token, custom) && BeenActive(called, k)
    requires var ended := Exec(Exec(start, before, p), during, p);
             && i in ended.threads && ended.threads[i].ValidateDone?
             && (forall x | x in ended.log && SameKey(x, k) :: WithinGrace(x, p.grace, ended.clock))
             && OwnKid(ended, k)
             && JwtLaws.MintedUnder(p.decode, token, k, claims, until) && ended.clock <= until
    ensures var done := Exec(Exec(start, before, p), during, p).threads[i];
            done.result == if done.validation.algorithm == AlgorithmOf(k) then Some(claims) else None
  {
    var ended := Exec(Exec(start, before, p), during, p);
    assert GoodUntil(p.decode, token, k, ended.clock);
    LiveKeyNeverRefused(start, before, during, p, i, k, token, custom);
    if ended.threads[i].result.Some? {
      AcceptedUnder(start, before, during, p, i, k, token, custom, claims, until);
    }
  }

  // ----- A call on its own is the sequential one

  /** The steps a call has left. */
  function StepsLeft(t: Thread): nat {
    match t
    case RotateCall(_) => 6
    case RotateHolds(_) => 5
    case RotateSwapped(_) => 4
    case RotateHoldsBoth(_) => 3
    case RotatePushed => 2
    case RotateReleasing => 1
    case RotateDone => 0
    case ValidateCall(_, _) => 6
    case ValidateChecking(_, _) => 5
    case ValidateReading(_, _) => 4
    case ValidateMissed(_, _) => 3
    case ValidatePruning(_, _) => 2
    case ValidateScanning(_, _) => 1
    case ValidateDone(_, _, _) => 0
  }

  /** The world after thread `i` alone has run until it ends or blocks. */
  function RunAlone(w: World, i: nat, p: Params): (r: World)
    requires i in w.threads
    ensures i in r.threads
    decreases StepsLeft(w.threads[i])
  {
    if Enabled(w, i) then RunAlone(ActStep(w, i, p), i, p) else w
  }

  predicate LocksFree(w: World) {
    w.activeWriter.None? && w.activeReaders == {} && w.retiredWriter.None?
  }

  /** A rotation running alone leaves what the sequential rotation does, and every lock free. */
  lemma RotationAlone(w: World, i: nat, p: Params)
    requires LocksFree(w) && i in w.threads && w.threads[i].RotateCall?
    ensures var w' := RunAlone(w, i, p);
            && State(w'.active, w'.retired) ==
               Rotated(State(w.active, w.retired), w.threads[i].newKey, p.grace, w.clock, w.clock)
            && LocksFree(w') && w'.threads[i].RotateDone?
  {
    var w1 := ActStep(w, i, p);
    var w2 := ActStep(w1, i, p);
    var w3 := ActStep(w2, i, p);
    var w4 := ActStep(w3, i, p);
    var w5 := ActStep(w4, i, p);
    var w6 := ActStep(w5, i, p);
    assert RunAlone(w6, i, p) == w6;
    assert RunAlone(w4, i, p) == w6;
    assert RunAlone(w2, i, p) == w6;
  }

  /** A validation running alone answers, and prunes, as the sequential one does. */
  lemma ValidationAlone(w: World, i: nat, p: Params)
    requires LocksFree(w) && i in w.threads && w.threads[i].ValidateCall?
    ensures var w', s, call := RunAlone(w, i, p), State(w.active, w.retired), w.threads[i];
            var at := Readings(w.clock, w.clock, w.clock);
            && State(w'.active, w'.retired) == Validated(s, call.token, call.custom, at, p.grace, p.decode)
            && LocksFree(w') && w'.threads[i].ValidateDone?
            && w'.threads[i].result == Answer(s, call.token, call.custom, at, p.grace, p.decode)
  {
    var w1 := ActStep(w, i, p);
    var w2 := ActStep(w1, i, p);
    var w3 := ActStep(w2, i, p);
    assert w3.activeReaders == {};
    if w3.threads[i].ValidateDone? {
      assert RunAlone(w3, i, p) == w3;
      assert RunAlone(w1, i, p) == w3;
    } else {
      var w4 := ActStep(w3, i, p);
      var w5 := ActStep(w4, i, p);
      var w6 := ActStep(w5, i, p);
      assert RunAlone(w6, i, p) == w6;
      assert RunAlone(w4, i, p) == w6;
      assert RunAlone(w2, i, p) == w6;
    }
  }
}
