/** The adjustment of p-values for many tests. */
module BenjaminiHochberg {
  import opened Reals
  import opened FiniteSets

  /** A value that may be missing. */
  datatype Value = NaN | Number(p: real)

  predicate PValues(values: seq<Value>) {
    forall i :: 0 <= i < |values| && values[i].Number? ==> 0.0 <= values[i].p <= 1.0
  }

  predicate Valid(values: seq<Value>, i: int) {
    0 <= i < |values| && values[i].Number?
  }

  /** The positions of all values that are not missing, by ascending value; ties may stand
      in any order, as the sort is not stable. */
  ghost predicate IsSortOrder(values: seq<Value>, order: seq<nat>) {
    && (forall k :: 0 <= k < |order| ==> Valid(values, order[k]))
    && (forall i :: Valid(values, i) ==> i in order)
    && (forall j, k :: 0 <= j < k < |order| ==> order[j] != order[k])
    && (forall j, k :: 0 <= j <= k < |order| ==> values[order[j]].p <= values[order[k]].p)
  }

  /** The k-th smallest value times the number of values over its rank. */
  function Adjusted(values: seq<Value>, order: seq<nat>, k: nat): real
    requires k < |order| && Valid(values, order[k])
  {
    Quot(Mul(values[order[k]].p, |order| as real), (k + 1) as real)
  }

  /** The least adjusted value from rank k on: a running minimum from the end. */
  function Least(values: seq<Value>, order: seq<nat>, k: nat): real
    requires k < |order| && forall i :: 0 <= i < |order| ==> Valid(values, order[i])
    decreases |order| - k
  {
    if k == |order| - 1 then Adjusted(values, order, k)
    else Min(Adjusted(values, order, k), Least(values, order, k + 1))
  }

  /** The running minimum of the adjusted values, taken from the end. */
  method RunningMinimum(values: seq<Value>, order: seq<nat>) returns (least: seq<real>)
    requires forall i :: 0 <= i < |order| ==> Valid(values, order[i])
    ensures |least| == |order| && forall k :: 0 <= k < |order| ==> least[k] == Least(values, order, k)
  {
    hide Adjusted, Valid;
    least := seq(|order|, k requires 0 <= k < |order| => Adjusted(values, order, k));
    if order == [] {
      return;
    }
    for k := |order| - 1 downto 0
      invariant |least| == |order|
      invariant forall j :: 0 <= j < k ==> least[j] == Adjusted(values, order, j)
      invariant forall j :: k <= j < |order| ==> least[j] == Least(values, order, j)
    {
      var at := Min(least[k], least[k + 1]);
      assert at == Least(values, order, k);
      least := least[k := at];
    }
  }

  /** Writes the running minimum, cut off at one, back to the positions the values came from. */
  method Adjust(values: seq<Value>, order: seq<nat>) returns (result: seq<Value>)
    requires IsSortOrder(values, order)
    ensures IsAdjustment(values, order, result)
  {
    hide Least;
    var least := RunningMinimum(values, order);
    result := seq(|values|, _ => NaN);
    for k := 0 to |order|
      invariant |result| == |values|
      invariant forall j :: 0 <= j < k ==> result[order[j]] == Number(Min(least[j], 1.0))
      invariant forall i :: 0 <= i < |values| && result[i].Number? ==> Valid(values, i)
      invariant forall j :: k <= j < |order| ==> result[order[j]] == NaN
    {
      result := result[order[k] := Number(Min(least[k], 1.0))];
    }
    forall i | Valid(values, i)
      ensures result[i].Number?
    {
      assert i in order;
      ghost var k :| 0 <= k < |order| && order[k] == i;
    }
  }

  // -------------------------------------------------------------- the step-up rule

  /** The positions whose value is at most x. */
  function AtMost(values: seq<Value>, x: real): set<nat> {
    set i: nat | i < |values| && values[i].Number? && values[i].p <= x
  }

  /** How many values there are. */
  function ValidOnes(values: seq<Value>): set<nat> {
    set i: nat | i < |values| && values[i].Number?
  }

  /** The rejection rule at level alpha, without any sorting: some value, not smaller than
      the one at hand, passes its own threshold, alpha times the share of values that are
      not larger. */
  ghost predicate Rejected(values: seq<Value>, i: nat, alpha: real)
    requires Valid(values, i)
  {
    exists j: nat :: Valid(values, j) && values[i].p <= values[j].p && Passes(values, j, alpha)
  }

  ghost predicate Passes(values: seq<Value>, j: nat, alpha: real)
    requires Valid(values, j)
  {
    Mul(values[j].p, |ValidOnes(values)| as real) <= Mul(alpha, |AtMost(values, values[j].p)| as real)
  }

  lemma ValidCount(values: seq<Value>, order: seq<nat>)
    requires IsSortOrder(values, order)
    ensures |ValidOnes(values)| == |order|
  {
    ReachedSize(order, |order|);
    forall i: nat
      ensures i in Reached(order, |order|) <==> i in ValidOnes(values)
    {
      if i in ValidOnes(values) {
        assert i in order;
        var r :| 0 <= r < |order| && order[r] == i;
      }
    }
    assert Reached(order, |order|) == ValidOnes(values);
  }

  /** The last rank with the same value as rank k. */
  lemma LastOfTie(values: seq<Value>, order: seq<nat>, k: nat) returns (last: nat)
    requires IsSortOrder(values, order) && k < |order|
    ensures k <= last < |order| && values[order[last]].p == values[order[k]].p
    ensures |AtMost(values, values[order[k]].p)| == last + 1
  {
    last := k;
    while last + 1 < |order| && values[order[last + 1]].p <= values[order[k]].p
      invariant k <= last < |order| && values[order[last]].p <= values[order[k]].p
      decreases |order| - last
    {
      last := last + 1;
    }
    var c := last + 1;
    ReachedSize(order, c);
    forall i: nat
      ensures i in Reached(order, c) <==> i in AtMost(values, values[order[k]].p)
    {
      if i in AtMost(values, values[order[k]].p) {
        assert i in order;
        var r :| 0 <= r < |order| && order[r] == i;
        assert r < c;
      }
    }
    assert Reached(order, c) == AtMost(values, values[order[k]].p);
  }

  /** The least adjusted value is attained at some rank from k on, and bounds all of them. */
  lemma {:induction false} LeastIsAttained(values: seq<Value>, order: seq<nat>, k: nat) returns (r: nat)
    requires k < |order| && forall i :: 0 <= i < |order| ==> Valid(values, order[i])
    ensures k <= r < |order| && Least(values, order, k) == Adjusted(values, order, r)
    decreases |order| - k
  {
    hide Adjusted;
    if k == |order| - 1 || Adjusted(values, order, k) <= Least(values, order, k + 1) {
      r := k;
    } else {
      r := LeastIsAttained(values, order, k + 1);
    }
  }

  lemma {:induction false} LeastIsBound(values: seq<Value>, order: seq<nat>, k: nat, r: nat)
    requires k <= r < |order| && forall i :: 0 <= i < |order| ==> Valid(values, order[i])
    ensures Least(values, order, k) <= Adjusted(values, order, r)
    decreases |order| - k
  {
    hide Adjusted;
    if k < r {
      LeastIsBound(values, order, k + 1, r);
    }
  }

  /** An adjusted value is at most alpha exactly when the value passes the threshold of its rank. */
  lemma AdjustedAtMost(values: seq<Value>, order: seq<nat>, k: nat, alpha: real)
    requires k < |order| && Valid(values, order[k])
    ensures Adjusted(values, order, k) <= alpha
      <==> Mul(values[order[k]].p, |order| as real) <= Mul(alpha, (k + 1) as real)
  {
    QuotAtMost(Mul(values[order[k]].p, |order| as real), (k + 1) as real, alpha);
  }

  lemma PassingRankRejects(values: seq<Value>, order: seq<nat>, k: nat, r: nat, alpha: real)
    requires PValues(values) && IsSortOrder(values, order) && k <= r < |order|
    requires Adjusted(values, order, r) <= alpha
    ensures Rejected(values, order[k], alpha)
  {
    hide Mul, Adjusted;
    AdjustedAtMost(values, order, r, alpha);
    ValidCount(values, order);
    var last := LastOfTie(values, order, r);
    var j, m := order[r], |order| as real;
    MulNatural(values[j].p, m);
    if alpha < 0.0 {
      MulPositive(-alpha, (r + 1) as real);
      MulNegated(alpha, (r + 1) as real);
    }
    MulOrder((r + 1) as real, (last + 1) as real, alpha);
    MulCommutes(alpha, (r + 1) as real);
    MulCommutes(alpha, (last + 1) as real);
    assert Passes(values, j, alpha);
  }

  lemma RejectedHasRank(values: seq<Value>, order: seq<nat>, k: nat, alpha: real) returns (r: nat)
    requires IsSortOrder(values, order) && k < |order| && Rejected(values, order[k], alpha)
    ensures k <= r < |order| && Adjusted(values, order, r) <= alpha
  {
    hide Mul, Adjusted;
    var j: nat :| Valid(values, j) && values[order[k]].p <= values[j].p && Passes(values, j, alpha);
    ValidCount(values, order);
    assert j in order;
    var q :| 0 <= q < |order| && order[q] == j;
    r := LastOfTie(values, order, q);
    AdjustedAtMost(values, order, r, alpha);
    if r < k {
      BeyondTie(values, order, k, r);
    }
  }

  /** A rank beyond all ties of a value has a larger value. */
  lemma BeyondTie(values: seq<Value>, order: seq<nat>, k: nat, r: nat)
    requires IsSortOrder(values, order) && r < k < |order|
    requires |AtMost(values, values[order[r]].p)| == r + 1
    ensures values[order[r]].p < values[order[k]].p
  {
    if values[order[k]].p <= values[order[r]].p {
      ReachedSize(order, k + 1);
      assert Reached(order, k + 1) <= AtMost(values, values[order[r]].p);
      SubsetSize(Reached(order, k + 1), AtMost(values, values[order[r]].p));
    }
  }

  /** The result of an adjustment, whatever the order of ties. */
  ghost predicate IsAdjustment(values: seq<Value>, order: seq<nat>, result: seq<Value>) {
    && IsSortOrder(values, order) && |result| == |values|
    && (forall i :: 0 <= i < |values| ==> (result[i].NaN? <==> values[i].NaN?))
    && (forall k :: 0 <= k < |order| ==> result[order[k]] == Number(Min(Least(values, order, k), 1.0)))
  }

  /** The adjusted values carry out the step-up rule: below one, a value is at most alpha
      exactly when the rule rejects at level alpha. */
  lemma AdjustmentIsStepUp(values: seq<Value>, order: seq<nat>, result: seq<Value>, i: nat, alpha: real)
    requires PValues(values) && IsAdjustment(values, order, result) && Valid(values, i) && alpha < 1.0
    ensures result[i].Number?
    ensures result[i].p <= alpha <==> Rejected(values, i, alpha)
  {
    hide Rejected, Adjusted;
    assert i in order;
    var k :| 0 <= k < |order| && order[k] == i;
    if Least(values, order, k) <= alpha {
      var r := LeastIsAttained(values, order, k);
      PassingRankRejects(values, order, k, r, alpha);
    }
    if Rejected(values, i, alpha) {
      var r := RejectedHasRank(values, order, k, alpha);
      LeastIsBound(values, order, k, r);
    }
  }

  /** Larger values get larger adjusted values; so equal values get equal ones. */
  lemma AdjustmentIsMonotone(values: seq<Value>, order: seq<nat>, result: seq<Value>, i: nat, j: nat)
    requires PValues(values) && IsAdjustment(values, order, result) && Valid(values, i) && Valid(values, j)
    requires values[i].p <= values[j].p
    ensures result[i].Number? && result[j].Number? && result[i].p <= result[j].p
  {
    hide Least, Passes, IsSortOrder;
    AtMostOne(values, order, result, i);
    AtMostOne(values, order, result, j);
    if result[j].p < 1.0 {
      AdjustmentIsStepUp(values, order, result, j, result[j].p);
      AdjustmentIsStepUp(values, order, result, i, result[j].p);
    }
  }

  lemma AtMostOne(values: seq<Value>, order: seq<nat>, result: seq<Value>, i: nat)
    requires IsAdjustment(values, order, result) && Valid(values, i)
    ensures result[i].Number? && result[i].p <= 1.0
  {
    assert i in order;
    var k :| 0 <= k < |order| && order[k] == i;
  }

  /** An adjusted value lies between the value itself and one. */
  lemma AdjustmentIsConservative(values: seq<Value>, order: seq<nat>, result: seq<Value>, i: nat)
    requires PValues(values) && IsAdjustment(values, order, result) && Valid(values, i)
    ensures result[i].Number? && values[i].p <= result[i].p <= 1.0
  {
    hide Least, Mul;
    AtMostOne(values, order, result, i);
    var alpha := result[i].p;
    if alpha < values[i].p {
      AdjustmentIsStepUp(values, order, result, i, alpha);
      var j: nat :| Valid(values, j) && values[i].p <= values[j].p && Passes(values, j, alpha);
      NeverAllBelow(values, j, alpha);
    }
  }

  lemma NeverAllBelow(values: seq<Value>, j: nat, alpha: real)
    requires PValues(values) && Valid(values, j) && Passes(values, j, alpha)
    ensures values[j].p <= alpha
  {
    hide Mul;
    var p, m, c := values[j].p, |ValidOnes(values)|, |AtMost(values, values[j].p)|;
    assert j in AtMost(values, p) && j in ValidOnes(values);
    assert AtMost(values, p) <= ValidOnes(values);
    SubsetSize(AtMost(values, p), ValidOnes(values));
    SubsetSize({j}, AtMost(values, p));
    if alpha < p {
      MulPositive(p - alpha, m as real);
      MulMinus(p, alpha, m as real);
      if 0.0 <= alpha {
        MulOrder(c as real, m as real, alpha);
        MulCommutes(alpha, c as real);
        MulCommutes(alpha, m as real);
      } else {
        MulNatural(p, m as real);
        MulPositive(-alpha, c as real);
        MulNegated(alpha, c as real);
      }
    }
  }

  /** The result does not depend on how the sort orders ties. */
  lemma TiesDoNotMatter(values: seq<Value>, order: seq<nat>, result: seq<Value>, order': seq<nat>, result': seq<Value>)
    requires PValues(values) && IsAdjustment(values, order, result) && IsAdjustment(values, order', result')
    ensures result == result'
  {
    forall i: nat | i < |values|
      ensures result[i] == result'[i]
    {
      if Valid(values, i) {
        SameAt(values, order, result, order', result', i);
        SameAt(values, order', result', order, result, i);
      }
    }
  }

  lemma SameAt(values: seq<Value>, order: seq<nat>, result: seq<Value>, order': seq<nat>, result': seq<Value>, i: nat)
    requires PValues(values) && IsAdjustment(values, order, result) && IsAdjustment(values, order', result') && Valid(values, i)
    ensures result[i].Number? && result'[i].Number? && result[i].p <= result'[i].p
  {
    hide Least, Passes, IsSortOrder;
    AtMostOne(values, order, result, i);
    AtMostOne(values, order', result', i);
    if result'[i].p < 1.0 {
      AdjustmentIsStepUp(values, order', result', i, result'[i].p);
      AdjustmentIsStepUp(values, order, result, i, result'[i].p);
    }
  }
}
