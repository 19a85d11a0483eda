/**
 * Selection over a list of scores with Python's tie rule: max() and min() keep
 * the first element that is maximal (minimal), replacing it only on a strict improvement.
 */
module Selection {

  /** Index of the first maximum of xs, scanning left to right. */
  function FirstArgMax(xs: seq<real>): (i: nat)
    requires |xs| > 0
    ensures i < |xs|
    ensures forall j :: 0 <= j < |xs| ==> xs[j] <= xs[i]
    ensures forall j :: 0 <= j < i ==> xs[j] < xs[i]
    decreases |xs|
  {
    if |xs| == 1 then 0
    else
      var k := FirstArgMax(xs[..|xs| - 1]);
      if xs[|xs| - 1] > xs[k] then |xs| - 1 else k
  }

  /** Index of the first minimum of xs, scanning left to right. */
  function FirstArgMin(xs: seq<real>): (i: nat)
    requires |xs| > 0
    ensures i < |xs|
    ensures forall j :: 0 <= j < |xs| ==> xs[i] <= xs[j]
    ensures forall j :: 0 <= j < i ==> xs[i] < xs[j]
    decreases |xs|
  {
    if |xs| == 1 then 0
    else
      var k := FirstArgMin(xs[..|xs| - 1]);
      if xs[|xs| - 1] < xs[k] then |xs| - 1 else k
  }

  /** The two properties of FirstArgMax determine it: any index having both is that index. */
  lemma FirstArgMaxUnique(xs: seq<real>, i: nat)
    requires i < |xs|
    requires forall j :: 0 <= j < |xs| ==> xs[j] <= xs[i]
    requires forall j :: 0 <= j < i ==> xs[j] < xs[i]
    ensures FirstArgMax(xs) == i
  {
  }

  /** Scanning one more score moves the first maximum only on a strict improvement. */
  lemma FirstArgMaxStep(xs: seq<real>, i: nat)
    requires 0 < i < |xs|
    ensures FirstArgMax(xs[..i + 1]) == if xs[i] > xs[FirstArgMax(xs[..i])] then i else FirstArgMax(xs[..i])
  {
    assert xs[..i + 1][..i] == xs[..i];
  }
}
