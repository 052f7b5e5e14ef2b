/** The spending features of the preprocessing script (predict.py lines 50-77): the total spend
    of a passenger, the flags derived from it, the cap on extreme totals and the imputation of
    the spending columns. */
module Spending {
  import opened Wrappers
  import opened Frames

  /** The five spending columns, in the script's order. */
  const SpendColumns: seq<string> := ["RoomService", "FoodCourt", "ShoppingMall", "Spa", "VRDeck"]

  /** The cells of columns `cs` in row `r`. */
  function Cells(r: Row, cs: seq<string>): (xs: seq<Cell>)
    ensures |xs| == |cs| && forall j :: 0 <= j < |cs| ==> xs[j] == Get(r, cs[j])
  {
    seq(|cs|, j requires 0 <= j < |cs| => Get(r, cs[j]))
  }

  /** The numeric readings of the non-missing cells, in order (pandas' `skipna`). */
  function Present(cs: seq<Cell>): (xs: seq<real>)
    ensures |xs| <= |cs|
    ensures |xs| == 0 <==> forall j :: 0 <= j < |cs| ==> NumOf(cs[j]).None?
    ensures forall x :: x in xs <==> exists j :: 0 <= j < |cs| && NumOf(cs[j]) == Some(x)
  {
    if |cs| == 0 then []
    else
      var n := |cs| - 1;
      var xs := Present(cs[..n]);
      assert forall j :: 0 <= j < n ==> cs[..n][j] == cs[j];
      if NumOf(cs[n]).Some? then xs + [NumOf(cs[n]).value] else xs
  }

  function Sum(xs: seq<real>): real
  {
    if |xs| == 0 then 0.0 else Sum(xs[..|xs| - 1]) + xs[|xs| - 1]
  }

  /** A sum of non-negative numbers is positive exactly when one of them is. */
  lemma {:induction false} SumPositive(xs: seq<real>)
    requires forall x :: x in xs ==> x >= 0.0
    ensures Sum(xs) >= 0.0
    ensures Sum(xs) > 0.0 <==> exists x :: x in xs && x > 0.0
  {
    if |xs| > 0 {
      var init, last := xs[..|xs| - 1], xs[|xs| - 1];
      assert xs == init + [last];
      assert forall x :: x in init ==> x in xs;
      assert last in xs;
      SumPositive(init);
      assert Sum(xs) == Sum(init) + last;
    }
  }

  /** A non-empty sequence whose every element exceeds `m` sums to more than `|xs| * m`, and one
      whose every element is below `m` to less. */
  lemma {:induction false} SumBeyond(xs: seq<real>, m: real)
    requires |xs| > 0
    ensures (forall i :: 0 <= i < |xs| ==> xs[i] > m) ==> Sum(xs) > |xs| as real * m
    ensures (forall i :: 0 <= i < |xs| ==> xs[i] < m) ==> Sum(xs) < |xs| as real * m
  {
    var n := |xs| - 1;
    if n > 0 {
      SumBeyond(xs[..n], m);
      assert forall i :: 0 <= i < n ==> xs[..n][i] == xs[i];
    }
  }

  /** The mean of a non-empty sequence lies between its least and its greatest element. */
  lemma MeanBetween(xs: seq<real>)
    requires |xs| > 0
    ensures exists i :: 0 <= i < |xs| && xs[i] <= Sum(xs) / |xs| as real
    ensures exists i :: 0 <= i < |xs| && Sum(xs) / |xs| as real <= xs[i]
  {
    var m := Sum(xs) / |xs| as real;
    assert Sum(xs) == |xs| as real * m;
    SumBeyond(xs, m);
  }

  /** `df[features_spending].sum(axis=1)`: missing cells are skipped, so a row with no spending
      value totals 0. */
  function TotalOf(r: Row): real
  {
    Sum(Present(Cells(r, SpendColumns)))
  }

  /** `df[features_spending].mean(axis=1)`: the mean of the row's non-missing spending values,
      missing when there is none. */
  function RowAverage(r: Row): (a: Cell)
    ensures a.None? <==> forall j :: 0 <= j < |SpendColumns| ==> NumOf(Get(r, SpendColumns[j])).None?
    ensures a.Some? ==> a.value.Real?
    ensures a.Some? ==>
      (exists j :: 0 <= j < |SpendColumns| && NumOf(Get(r, SpendColumns[j])).Some? && NumOf(Get(r, SpendColumns[j])).value <= a.value.r) &&
      (exists j :: 0 <= j < |SpendColumns| && NumOf(Get(r, SpendColumns[j])).Some? && a.value.r <= NumOf(Get(r, SpendColumns[j])).value)
  {
    var cs := Cells(r, SpendColumns);
    var xs := Present(cs);
    if |xs| == 0 then None
    else
      MeanBetween(xs);
      var lo :| 0 <= lo < |xs| && xs[lo] <= Sum(xs) / |xs| as real;
      var hi :| 0 <= hi < |xs| && Sum(xs) / |xs| as real <= xs[hi];
      assert xs[lo] in xs && xs[hi] in xs;
      Some(Real(Sum(xs) / |xs| as real))
  }

  /** Spending amounts are never negative. */
  ghost predicate NonNegativeSpend(r: Row)
  {
    forall j :: 0 <= j < |SpendColumns| && NumOf(Get(r, SpendColumns[j])).Some? ==> NumOf(Get(r, SpendColumns[j])).value >= 0.0
  }

  /** With non-negative amounts, the total is positive exactly when some spending value is. */
  lemma TotalPositive(r: Row)
    requires NonNegativeSpend(r)
    ensures TotalOf(r) >= 0.0
    ensures TotalOf(r) > 0.0 <==>
      exists j :: 0 <= j < |SpendColumns| && NumOf(Get(r, SpendColumns[j])).Some? && NumOf(Get(r, SpendColumns[j])).value > 0.0
  {
    var cs := Cells(r, SpendColumns);
    var xs := Present(cs);
    SumPositive(xs);
  }

  /** The largest of the selected elements of `xs`, none when the mask selects nothing
      (`groupby(...).transform('max')` over one group). */
  function MaxWhere(xs: seq<int>, mask: seq<bool>): (m: Option<int>)
    requires |mask| == |xs|
    ensures m.None? <==> forall j :: 0 <= j < |xs| ==> !mask[j]
    ensures m.Some? ==> exists j :: 0 <= j < |xs| && mask[j] && xs[j] == m.value
    ensures m.Some? ==> forall j :: 0 <= j < |xs| && mask[j] ==> xs[j] <= m.value
  {
    if |xs| == 0 then None
    else
      var n := |xs| - 1;
      var m := MaxWhere(xs[..n], mask[..n]);
      assert forall j :: 0 <= j < n ==> xs[..n][j] == xs[j] && mask[..n][j] == mask[j];
      if !mask[n] then m
      else if m.None? || xs[n] > m.value then Some(xs[n]) else m
  }

  /** Rows `i` and `j` share a (non-missing) GroupId. */
  predicate SameGroup(rows: seq<Row>, i: nat, j: nat)
    requires i < |rows| && j < |rows|
  {
    Get(rows[i], "GroupId").Some? && Get(rows[j], "GroupId") == Get(rows[i], "GroupId")
  }

  /** The SpentMoney flag of a row: 1 when its total is positive. */
  function SpentFlag(r: Row): (f: int)
    ensures f == 0 || f == 1
    ensures f == 1 <==> TotalOf(r) > 0.0
  {
    if TotalOf(r) > 0.0 then 1 else 0
  }

  function Flags(rows: seq<Row>): (f: seq<int>)
    ensures |f| == |rows| && forall j :: 0 <= j < |rows| ==> f[j] == SpentFlag(rows[j])
  {
    seq(|rows|, j requires 0 <= j < |rows| => SpentFlag(rows[j]))
  }

  function GroupMask(rows: seq<Row>, i: nat): (m: seq<bool>)
    requires i < |rows|
    ensures |m| == |rows| && forall j :: 0 <= j < |rows| ==> m[j] == SameGroup(rows, i, j)
  {
    seq(|rows|, j requires 0 <= j < |rows| => SameGroup(rows, i, j))
  }

  /** The GroupSpentMoney cell of row `i`: the largest SpentMoney of its group. It is 1 exactly
      when some row of the group spent money, 0 otherwise, and missing when the row's GroupId is
      missing (such a row belongs to no group of `groupby`). */
  function GroupSpent(rows: seq<Row>, i: nat): (g: Cell)
    requires i < |rows|
    ensures g.None? <==> Get(rows[i], "GroupId").None?
    ensures g.Some? ==> g == Some(Int(0)) || g == Some(Int(1))
    ensures g == Some(Int(1)) <==> exists j :: 0 <= j < |rows| && SameGroup(rows, i, j) && TotalOf(rows[j]) > 0.0
  {
    if Get(rows[i], "GroupId").None? then None
    else
      var m := MaxWhere(Flags(rows), GroupMask(rows, i));
      GroupMaxFlag(rows, i);
      Some(Int(m.value))
  }

  lemma GroupMaxFlag(rows: seq<Row>, i: nat)
    requires i < |rows| && Get(rows[i], "GroupId").Some?
    ensures MaxWhere(Flags(rows), GroupMask(rows, i)).Some?
    ensures var v := MaxWhere(Flags(rows), GroupMask(rows, i)).value;
      (v == 0 || v == 1) && (v == 1 <==> exists j :: 0 <= j < |rows| && SameGroup(rows, i, j) && TotalOf(rows[j]) > 0.0)
  {
    var flags, mask := Flags(rows), GroupMask(rows, i);
    assert mask[i];
    var v := MaxWhere(flags, mask).value;
    var w :| 0 <= w < |rows| && mask[w] && flags[w] == v;
    if v == 1 {
      assert SameGroup(rows, i, w) && TotalOf(rows[w]) > 0.0;
    }
  }

  /** Lines 53-55: TotalSpending, SpentMoney and GroupSpentMoney. */
  function AddSpendingFlags(t: Frame): (r: Frame)
    ensures OnlyChanges(t.rows, r.rows, ["TotalSpending", "SpentMoney", "GroupSpentMoney"])
    ensures forall i :: 0 <= i < |t.rows| ==> Get(r.rows[i], "TotalSpending") == Some(Real(TotalOf(t.rows[i])))
    ensures forall i :: 0 <= i < |t.rows| ==> Get(r.rows[i], "SpentMoney") == Some(Int(SpentFlag(t.rows[i])))
    ensures forall i :: 0 <= i < |t.rows| ==> Get(r.rows[i], "GroupSpentMoney") == GroupSpent(t.rows, i)
  {
    var n := |t.rows|;
    var t1 := WithColumn(t, "TotalSpending", seq(n, i requires 0 <= i < n => Some(Real(TotalOf(t.rows[i])))));
    var t2 := WithColumn(t1, "SpentMoney", seq(n, i requires 0 <= i < n => Some(Int(SpentFlag(t.rows[i])))));
    var r := WithColumn(t2, "GroupSpentMoney", seq(n, i requires 0 <= i < n => GroupSpent(t.rows, i)));
    OnlyChangesTrans(t.rows, t1.rows, t2.rows, ["TotalSpending"], ["SpentMoney"]);
    OnlyChangesTrans(t.rows, t2.rows, r.rows, ["TotalSpending", "SpentMoney"], ["GroupSpentMoney"]);
    r
  }

  /** Lines 58-60 with `cap_test` (the 0.95 quantile of the totals) given: a total above the cap
      becomes the cap. */
  function CapTotals(t: Frame, cap: real): (r: Frame)
    ensures OnlyChanges(t.rows, r.rows, ["TotalSpending"])
    // every numeric total is at most the cap afterwards
    ensures forall i :: 0 <= i < |t.rows| && NumOf(Get(r.rows[i], "TotalSpending")).Some? ==>
      NumOf(Get(r.rows[i], "TotalSpending")).value <= cap
    // a total at or below the cap, or a missing one, is unchanged
    ensures forall i :: 0 <= i < |t.rows| && !(NumOf(Get(t.rows[i], "TotalSpending")).Some? && NumOf(Get(t.rows[i], "TotalSpending")).value > cap) ==>
      Get(r.rows[i], "TotalSpending") == Get(t.rows[i], "TotalSpending")
    // a total above it becomes the cap
    ensures forall i :: 0 <= i < |t.rows| && NumOf(Get(t.rows[i], "TotalSpending")).Some? && NumOf(Get(t.rows[i], "TotalSpending")).value > cap ==>
      Get(r.rows[i], "TotalSpending") == Some(Real(cap))
  {
    var n := |t.rows|;
    WithColumn(t, "TotalSpending", seq(n, i requires 0 <= i < n =>
      var c := Get(t.rows[i], "TotalSpending");
      if NumOf(c).Some? && NumOf(c).value > cap then Some(Real(cap)) else c))
  }

  /** Lines 67-68: TravelingAlone is 1 exactly when GroupSize is "01". Comparing a missing
      GroupSize gives a missing truth value, which `astype(int)` refuses. */
  function AddTravelingAlone(t: Frame): (r: Result<Frame>)
    ensures r.Err? <==> exists i :: 0 <= i < |t.rows| && Get(t.rows[i], "GroupSize").None?
    ensures r.Ok? ==> OnlyChanges(t.rows, r.value.rows, ["TravelingAlone"])
    ensures r.Ok? ==> forall i :: 0 <= i < |t.rows| ==>
      (Get(r.value.rows[i], "TravelingAlone") == Some(Int(1)) <==> Get(t.rows[i], "GroupSize") == Some(Str("01"))) &&
      (Get(r.value.rows[i], "TravelingAlone") == Some(Int(1)) || Get(r.value.rows[i], "TravelingAlone") == Some(Int(0)))
  {
    var n := |t.rows|;
    if exists i :: 0 <= i < n && Get(t.rows[i], "GroupSize").None? then Err("cannot convert NA to integer")
    else Ok(WithColumn(t, "TravelingAlone", seq(n, i requires 0 <= i < n =>
      Some(Int(if Get(t.rows[i], "GroupSize") == Some(Str("01")) then 1 else 0)))))
  }

  /** `df["Age"] < 13`: a missing Age is not under 13. */
  predicate IsChild(r: Row)
  {
    NumOf(Get(r, "Age")).Some? && NumOf(Get(r, "Age")).value < 13.0
  }

  /** Lines 71-77: the row averages and the child mask are taken first; then every spending
      column is set to 0 for children and its missing cells are filled with the row average. */
  method ImputeSpending(t: Frame) returns (r: Frame)
    ensures OnlyChanges(t.rows, r.rows, SpendColumns)
    ensures (forall j :: 0 <= j < |SpendColumns| ==> SpendColumns[j] in t.columns) ==> r.columns == t.columns
    // a child's spending is 0, even where it was present
    ensures forall i, j :: 0 <= i < |t.rows| && 0 <= j < |SpendColumns| && IsChild(t.rows[i]) ==>
      Get(r.rows[i], SpendColumns[j]) == Some(Real(0.0))
    // any other row keeps its present spending, missing or not under 13 alike
    ensures forall i, j :: 0 <= i < |t.rows| && 0 <= j < |SpendColumns| && !IsChild(t.rows[i]) && Get(t.rows[i], SpendColumns[j]).Some? ==>
      Get(r.rows[i], SpendColumns[j]) == Get(t.rows[i], SpendColumns[j])
    // and its missing spending takes the average of its spending before the loop
    ensures forall i, j :: 0 <= i < |t.rows| && 0 <= j < |SpendColumns| && !IsChild(t.rows[i]) && Get(t.rows[i], SpendColumns[j]).None? ==>
      Get(r.rows[i], SpendColumns[j]) == RowAverage(t.rows[i])
  {
    var n := |t.rows|;
    var rowAvg := seq(n, i requires 0 <= i < n => RowAverage(t.rows[i]));
    var child := seq(n, i requires 0 <= i < n => IsChild(t.rows[i]));
    assert Distinct(SpendColumns);
    r := t;
    for k := 0 to |SpendColumns|
      invariant OnlyChanges(t.rows, r.rows, SpendColumns[..k])
      invariant (forall j :: 0 <= j < |SpendColumns| ==> SpendColumns[j] in t.columns) ==> r.columns == t.columns
      invariant forall i, j :: 0 <= i < n && 0 <= j < k ==>
        Get(r.rows[i], SpendColumns[j]) == Imputed(t.rows[i], SpendColumns[j])
    {
      var c := SpendColumns[k];
      assert c !in SpendColumns[..k];
      var cur := r;
      r := WithColumn(cur, c, seq(n, i requires 0 <= i < n =>
        if child[i] then Some(Real(0.0)) else if Get(cur.rows[i], c).Some? then Get(cur.rows[i], c) else rowAvg[i]));
      assert SpendColumns[..k + 1] == SpendColumns[..k] + [c];
      OnlyChangesTrans(t.rows, cur.rows, r.rows, SpendColumns[..k], [c]);
    }
    assert SpendColumns[..|SpendColumns|] == SpendColumns;
  }

  /** A spending cell of `r` after the imputation loop. */
  function Imputed(r: Row, c: string): Cell
  {
    if IsChild(r) then Some(Real(0.0)) else if Get(r, c).Some? then Get(r, c) else RowAverage(r)
  }
}
