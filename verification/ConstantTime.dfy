/** The comparison that looks at every byte: an or-fold of byte differences. */
module ConstantTime {
  /** The fold over the zipped bytes, from the left. */
  function FoldDifferences(a: seq<bv8>, b: seq<bv8>, acc: bv8): bv8
    requires |a| == |b|
  {
    if a == [] then acc else FoldDifferences(a[1..], b[1..], acc | (a[0] ^ b[0]))
  }

  function ConstantTimeEq(a: seq<bv8>, b: seq<bv8>): bool {
    if |a| != |b| then false else FoldDifferences(a, b, 0) == 0
  }

  lemma {:induction false} FoldIsZero(a: seq<bv8>, b: seq<bv8>, acc: bv8)
    requires |a| == |b|
    ensures FoldDifferences(a, b, acc) == 0 <==> acc == 0 && a == b
  {
    if a == [] {
    } else {
      var x, y := a[0], b[0];
      assert acc | (x ^ y) == 0 <==> acc == 0 && x == y;
      FoldIsZero(a[1..], b[1..], acc | (x ^ y));
      assert a == [x] + a[1..] && b == [y] + b[1..];
    }
  }

  /** The comparison answers equality. */
  lemma ConstantTimeEqIsEquality(a: seq<bv8>, b: seq<bv8>)
    ensures ConstantTimeEq(a, b) <==> a == b
  {
    if |a| == |b| {
      FoldIsZero(a, b, 0);
    }
  }
}
