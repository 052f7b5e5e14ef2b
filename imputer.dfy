/** The group-wise imputer `fill_missing_values_using_method` (functions/helpers.py): a missing
    target cell is filled with the mode or median of the non-missing target cells of the rows that
    share all its key values. */
module Imputer {
  import opened Wrappers
  import opened Frames
  import Stats

  datatype Method = Mode | Median

  /** The key values of a row, or `None` when one of them is missing: such a row belongs to no
      group of `groupby`, so the left merge finds nothing for it. */
  function KeyOf(r: Row, keys: seq<string>): (k: Option<seq<Value>>)
    ensures k.Some? <==> forall j :: 0 <= j < |keys| ==> Get(r, keys[j]).Some?
    ensures k.Some? ==> |k.value| == |keys| && forall j :: 0 <= j < |keys| ==> Get(r, keys[j]) == Some(k.value[j])
  {
    if |keys| == 0 then Some([])
    else
      match Get(r, keys[0])
      case None => None
      case Some(v) =>
        match KeyOf(r, keys[1..])
        case None => None
        case Some(rest) => Some([v] + rest)
  }

  /** Row `r` belongs to the group with key values `k`. */
  predicate InGroup(r: Row, keys: seq<string>, k: seq<Value>)
  {
    KeyOf(r, keys) == Some(k)
  }

  /** The positions of the rows of the group with key values `k` whose target holds `v`. */
  function Hits(rows: seq<Row>, keys: seq<string>, target: string, k: seq<Value>, v: Value): set<int>
  {
    set j | 0 <= j < |rows| && InGroup(rows[j], keys, k) && Get(rows[j], target) == Some(v)
  }

  /** Dropping the last row drops its position from every value's hits, and nothing else. */
  lemma HitsStep(rows: seq<Row>, keys: seq<string>, target: string, k: seq<Value>)
    requires |rows| > 0
    ensures var n := |rows| - 1;
      forall v :: |Hits(rows, keys, target, k, v)| ==
        |Hits(rows[..n], keys, target, k, v)| + if InGroup(rows[n], keys, k) && Get(rows[n], target) == Some(v) then 1 else 0
  {
    var n := |rows| - 1;
    forall v ensures |Hits(rows, keys, target, k, v)| ==
      |Hits(rows[..n], keys, target, k, v)| + if InGroup(rows[n], keys, k) && Get(rows[n], target) == Some(v) then 1 else 0
    {
      var a := Hits(rows[..n], keys, target, k, v);
      assert n !in a;
      if InGroup(rows[n], keys, k) && Get(rows[n], target) == Some(v) {
        assert Hits(rows, keys, target, k, v) == a + {n};
      } else {
        assert Hits(rows, keys, target, k, v) == a;
      }
    }
  }

  /** The non-missing target values of the group with key values `k`, in row order. */
  function GroupValues(rows: seq<Row>, keys: seq<string>, target: string, k: seq<Value>): (vs: seq<Value>)
    ensures forall v :: v in vs <==>
      exists j :: 0 <= j < |rows| && InGroup(rows[j], keys, k) && Get(rows[j], target) == Some(v)
  {
    if |rows| == 0 then []
    else
      var init := rows[..|rows| - 1];
      var last := rows[|rows| - 1];
      var vs := GroupValues(init, keys, target, k);
      assert forall j :: 0 <= j < |init| ==> init[j] == rows[j];
      if InGroup(last, keys, k) && Get(last, target).Some? then vs + [Get(last, target).value] else vs
  }

  /** A group holds each value as many times as the group's rows hold it in the target: the mode
      counts the group's rows, not its distinct values. */
  lemma {:induction false} GroupValuesCount(rows: seq<Row>, keys: seq<string>, target: string, k: seq<Value>, v: Value)
    ensures multiset(GroupValues(rows, keys, target, k))[v] == |Hits(rows, keys, target, k, v)|
  {
    if |rows| > 0 {
      var n := |rows| - 1;
      assert forall j :: 0 <= j < n ==> rows[..n][j] == rows[j];
      GroupValuesCount(rows[..n], keys, target, k, v);
      HitsStep(rows, keys, target, k);
    }
  }

  /** Under `median` every value of a group must be numeric: pandas raises otherwise. */
  predicate NumericGroups(rows: seq<Row>, keys: seq<string>, target: string)
  {
    forall j :: 0 <= j < |rows| && KeyOf(rows[j], keys).Some? ==> !(Get(rows[j], target).Some? && Get(rows[j], target).value.Str?)
  }

  function Numbers(vs: seq<Value>): (xs: seq<real>)
    ensures |xs| == |vs|
  {
    seq(|vs|, i requires 0 <= i < |vs| => match vs[i] case Int(n) => n as real case Real(x) => x case Str(_) => 0.0)
  }

  /** `calculate_value`: the statistic of a group's non-missing values; missing for an empty group. */
  function CalculateValue(vs: seq<Value>, how: Method): (c: Cell)
    ensures c.None? <==> |vs| == 0
    ensures how == Mode && c.Some? ==> c.value in vs && forall v :: v in vs ==> multiset(vs)[v] <= multiset(vs)[c.value]
    ensures how == Median && c.Some? ==> c.value.Real?
  {
    if |vs| == 0 then None
    else
      match how
      case Mode => Some(Stats.Mode(vs))
      case Median => Some(Real(Stats.Median(Numbers(vs))))
  }

  /** The median that fills a group lies between the smallest and the largest of its values. */
  lemma MedianFillBetween(vs: seq<Value>)
    requires |vs| > 0
    ensures exists i :: 0 <= i < |vs| && Numbers(vs)[i] <= CalculateValue(vs, Median).value.r
    ensures exists j :: 0 <= j < |vs| && CalculateValue(vs, Median).value.r <= Numbers(vs)[j]
  {
    Stats.MedianBounds(Numbers(vs));
  }

  /** The row after `fillna`: a missing target whose row has all keys takes its group's value. */
  function FillRow(rows: seq<Row>, keys: seq<string>, target: string, how: Method, r: Row): Row
  {
    if Get(r, target).None? && KeyOf(r, keys).Some? then
      var c := CalculateValue(GroupValues(rows, keys, target, KeyOf(r, keys).value), how);
      if c.Some? then r[target := c] else r
    else r
  }

  function FillRows(rows: seq<Row>, keys: seq<string>, target: string, how: Method): (rows': seq<Row>)
    ensures |rows'| == |rows|
    // only the target column changes, and only where it was missing
    ensures OnlyChanges(rows, rows', [target])
    ensures KeepsPresent(rows, rows', target)
    // a row with a missing key value is never filled
    ensures forall i :: 0 <= i < |rows| && KeyOf(rows[i], keys).None? ==> rows'[i] == rows[i]
    // a missing target of a keyed row takes its group's statistic, and stays missing exactly
    // when the group has no non-missing value
    ensures forall i :: 0 <= i < |rows| && Get(rows[i], target).None? && KeyOf(rows[i], keys).Some? ==>
      Get(rows'[i], target) == CalculateValue(GroupValues(rows, keys, target, KeyOf(rows[i], keys).value), how)
  {
    seq(|rows|, i requires 0 <= i < |rows| => FillRow(rows, keys, target, how, rows[i]))
  }

  /** The first name of `names` that is not a column, if any. */
  function FirstAbsent(names: seq<string>, columns: seq<string>): (a: Option<string>)
    ensures a.None? <==> forall j :: 0 <= j < |names| ==> names[j] in columns
    ensures a.Some? ==> a.value in names && a.value !in columns
  {
    if |names| == 0 then None
    else if names[0] !in columns then Some(names[0])
    else
      var a := FirstAbsent(names[1..], columns);
      assert forall j :: 1 <= j < |names| ==> names[j] == names[1..][j - 1];
      a
  }

  /** `fill_missing_values_using_method(df, group_cols, target_col, method)`. */
  function FillMissingValues(t: Frame, keys: seq<string>, target: string, how: Method): (r: Result<Frame>)
    ensures r.Err? <==>
      || |keys| == 0
      || (exists j :: 0 <= j < |keys| && keys[j] !in t.columns)
      || target !in t.columns
      || (how == Median && !NumericGroups(t.rows, keys, target))
    ensures r.Ok? ==> r.value.columns == t.columns && r.value.rows == FillRows(t.rows, keys, target, how)
  {
    if |keys| == 0 then Err("No group keys passed!")
    else if FirstAbsent(keys, t.columns).Some? then Err("'" + FirstAbsent(keys, t.columns).value + "'")
    else if target !in t.columns then Err("Column not found: " + target)
    else if how == Median && !NumericGroups(t.rows, keys, target) then Err("Could not convert string to numeric")
    else Ok(Frame(t.columns, FillRows(t.rows, keys, target, how)))
  }

  /** A mode fill is one of the most frequent non-missing values of the row's group. */
  lemma {:induction false} ModeFillIsMostFrequent(rows: seq<Row>, keys: seq<string>, target: string, i: nat)
    requires i < |rows| && Get(rows[i], target).None?
    requires Get(FillRows(rows, keys, target, Mode)[i], target).Some?
    ensures KeyOf(rows[i], keys).Some?
    ensures var vs := GroupValues(rows, keys, target, KeyOf(rows[i], keys).value);
            var v := Get(FillRows(rows, keys, target, Mode)[i], target).value;
            v in vs && forall w :: w in vs ==> multiset(vs)[w] <= multiset(vs)[v]
  {
  }

  /** Filling is idempotent: after one pass every target still missing belongs to a group with no
      non-missing value, so a second pass changes nothing. */
  lemma {:induction false} FillIdempotent(rows: seq<Row>, keys: seq<string>, target: string, how: Method)
    ensures FillRows(FillRows(rows, keys, target, how), keys, target, how) == FillRows(rows, keys, target, how)
  {
    var rows' := FillRows(rows, keys, target, how);
    var rows'' := FillRows(rows', keys, target, how);
    forall i | 0 <= i < |rows| ensures rows''[i] == rows'[i] {
      assert rows''[i] == FillRow(rows', keys, target, how, rows'[i]);
      if Get(rows'[i], target).None? && KeyOf(rows'[i], keys).Some? {
        KeyUnchanged(rows, keys, target, how, i);
        var k := KeyOf(rows[i], keys).value;
        assert Get(rows[i], target).None?;
        assert CalculateValue(GroupValues(rows, keys, target, k), how).None?;
        EmptyGroupStaysEmpty(rows, keys, target, how, k);
      }
    }
  }

  /** A group with no non-missing target value before filling has none after it. */
  lemma {:induction false} EmptyGroupStaysEmpty(rows: seq<Row>, keys: seq<string>, target: string, how: Method, k: seq<Value>)
    requires GroupValues(rows, keys, target, k) == []
    ensures GroupValues(FillRows(rows, keys, target, how), keys, target, k) == []
  {
    var rows' := FillRows(rows, keys, target, how);
    var vs := GroupValues(rows', keys, target, k);
    if vs != [] {
      assert vs[0] in vs;
      var j :| 0 <= j < |rows'| && InGroup(rows'[j], keys, k) && Get(rows'[j], target) == Some(vs[0]);
      KeyUnchanged(rows, keys, target, how, j);
      if Get(rows[j], target).Some? {
        GroupValuesHas(rows, keys, target, k, j);
      }
    }
  }

  lemma GroupValuesHas(rows: seq<Row>, keys: seq<string>, target: string, k: seq<Value>, j: nat)
    requires j < |rows| && InGroup(rows[j], keys, k) && Get(rows[j], target).Some?
    ensures Get(rows[j], target).value in GroupValues(rows, keys, target, k)
  {
  }

  /** Filling a target never changes a row's key values: a row that gets filled has all its keys
      present while its target is missing, so the target is not one of the keys. */
  lemma {:induction false} KeyUnchanged(rows: seq<Row>, keys: seq<string>, target: string, how: Method, j: nat)
    requires j < |rows|
    ensures KeyOf(FillRows(rows, keys, target, how)[j], keys) == KeyOf(rows[j], keys)
  {
    var r, r' := rows[j], FillRows(rows, keys, target, how)[j];
    if r' != r {
      assert forall m :: 0 <= m < |keys| ==> keys[m] != target;
      assert forall m :: 0 <= m < |keys| ==> Get(r', keys[m]) == Get(r, keys[m]);
      KeyOfSameCells(r, r', keys);
    }
  }

  lemma {:induction false} KeyOfSameCells(r: Row, r': Row, keys: seq<string>)
    requires forall m :: 0 <= m < |keys| ==> Get(r', keys[m]) == Get(r, keys[m])
    ensures KeyOf(r', keys) == KeyOf(r, keys)
  {
    if |keys| > 0 {
      KeyOfSameCells(r, r', keys[1..]);
    }
  }

  /** A mode fill only writes values the target column already holds: every filled cell equals
      some present cell of the same column. */
  lemma {:induction false} ModeFillFromColumn(rows: seq<Row>, keys: seq<string>, target: string)
    ensures forall i :: 0 <= i < |rows| && Get(FillRows(rows, keys, target, Mode)[i], target).Some? ==>
      exists j :: 0 <= j < |rows| && Get(rows[j], target) == Get(FillRows(rows, keys, target, Mode)[i], target)
  {
    var rows' := FillRows(rows, keys, target, Mode);
    forall i | 0 <= i < |rows| && Get(rows'[i], target).Some?
      ensures exists j :: 0 <= j < |rows| && Get(rows[j], target) == Get(rows'[i], target)
    {
      if Get(rows[i], target).None? {
        var vs := GroupValues(rows, keys, target, KeyOf(rows[i], keys).value);
        var v := Get(rows'[i], target).value;
        assert v in vs;
        var j :| 0 <= j < |rows| && InGroup(rows[j], keys, KeyOf(rows[i], keys).value) && Get(rows[j], target) == Some(v);
      }
    }
  }
}
