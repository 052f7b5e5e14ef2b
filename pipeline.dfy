/** The preprocessing script (predict.py lines 19-231) as one chain of table steps, the first
    exception ending the run. The per-side mean spending tables, the spending cap and the
    cabin-number regression are given. */
module Pipeline {
  import opened Wrappers
  import opened Frames
  import Splitter
  import Rules
  import Spending
  import Imputer
  import Decks
  import Cabins
  import Ages

  /** Column `c` holds the same cells in `a` and `b`, row by row. */
  ghost predicate Same(a: seq<Row>, b: seq<Row>, c: string)
  {
    |b| == |a| && forall i :: 0 <= i < |a| ==> Get(b[i], c) == Get(a[i], c)
  }

  /** Part `j` of column `src` of `a` is carried from `b` to `c` when the step from `b`
      to `c` does not touch column `col`. */
  lemma KeepPart(a: seq<Row>, b: seq<Row>, c: seq<Row>, cs: seq<string>, col: string, src: string, d: char, j: nat)
    requires PartOf(a, b, col, src, d, j) && OnlyChanges(b, c, cs) && col !in cs
    ensures PartOf(a, c, col, src, d, j)
  {
  }

  /** Column `c` of `b` holds part `j` of column `src` of `a`, row by row. */
  ghost predicate PartOf(a: seq<Row>, b: seq<Row>, c: string, src: string, d: char, j: nat)
  {
    |b| == |a| && forall i :: 0 <= i < |a| ==> Get(b[i], c) == Splitter.Part(Get(a[i], src), d, j)
  }

  /** One call of `split_and_insert` with a given delimiter, seen from the rest of the script:
      the new columns hold the parts of the split column and nothing else changes. */
  method Split(t: Frame, splitCol: string, newCols: seq<string>, d: char) returns (r: Result<Frame>)
    requires |newCols| >= 2 && Distinct(newCols)
    ensures r.Err? <==> splitCol !in t.columns || Splitter.Width(Column(t, splitCol), d) != |newCols|
    ensures r.Ok? ==> forall c :: c in r.value.columns <==> c in t.columns || c in newCols
    ensures r.Ok? ==> OnlyChanges(t.rows, r.value.rows, newCols)
    ensures r.Ok? ==> forall j :: 0 <= j < |newCols| ==> PartOf(t.rows, r.value.rows, newCols[j], splitCol, d, j)
  {
    r := Splitter.SplitAndInsert(t, splitCol, newCols, Some(d));
    if r.Ok? {
      var e := Splitter.AssignParts(t, Column(t, splitCol), d, newCols);
      assert multiset(r.value.columns) == multiset(e.columns);
      forall c ensures c in r.value.columns <==> c in t.columns || c in newCols {
        assert c in r.value.columns <==> c in multiset(e.columns);
      }
    }
  }

  /** A column that a step may not change reads the same after it. */
  lemma ColumnKept(t: Frame, t': Frame, c: string, cs: seq<string>)
    requires OnlyChanges(t.rows, t'.rows, cs) && c !in cs
    ensures Column(t', c) == Column(t, c)
  {
  }

  /** The columns the splits write and the drop removes. */
  const IdParts: seq<string> := ["GroupId", "GroupSize"]
  const CabinParts: seq<string> := ["Deck", "CabinNumber", "Side"]
  const NameParts: seq<string> := ["FirstName", "LastName"]
  const Dropped: seq<string> := ["PassengerId", "Cabin", "Name", "FirstName"]
  const SplitColumns: seq<string> := IdParts + CabinParts + NameParts + Dropped

  /** Lines 19-39: the three splits, then the drop of the split sources and of FirstName. */
  method SplitStage(t: Frame) returns (r: Result<Frame>)
    ensures r.Ok? <==>
      && "PassengerId" in t.columns && Splitter.Width(Column(t, "PassengerId"), '_') == 2
      && "Cabin" in t.columns && Splitter.Width(Column(t, "Cabin"), '/') == 3
      && "Name" in t.columns && Splitter.Width(Column(t, "Name"), ' ') == 2
    ensures r.Ok? ==> OnlyChanges(t.rows, r.value.rows, SplitColumns)
    ensures r.Ok? ==> PartOf(t.rows, r.value.rows, "GroupId", "PassengerId", '_', 0)
    ensures r.Ok? ==> PartOf(t.rows, r.value.rows, "GroupSize", "PassengerId", '_', 1)
    ensures r.Ok? ==> PartOf(t.rows, r.value.rows, "Deck", "Cabin", '/', 0)
    ensures r.Ok? ==> PartOf(t.rows, r.value.rows, "CabinNumber", "Cabin", '/', 1)
    ensures r.Ok? ==> PartOf(t.rows, r.value.rows, "Side", "Cabin", '/', 2)
    ensures r.Ok? ==> PartOf(t.rows, r.value.rows, "LastName", "Name", ' ', 1)
    ensures r.Ok? ==> forall c :: c in Dropped ==> c !in r.value.columns
    ensures r.Ok? ==> forall i, c :: 0 <= i < |t.rows| && c in Dropped ==> Get(r.value.rows[i], c).None?
  {
    var ids, cabin, name := IdParts, CabinParts, NameParts;
    var t1 :- Split(t, "PassengerId", ids, '_');
    ColumnKept(t, t1, "Cabin", ids);
    ColumnKept(t, t1, "Name", ids);
    var t2 :- Split(t1, "Cabin", cabin, '/');
    ColumnKept(t1, t2, "Name", cabin);
    var t3 :- Split(t2, "Name", name, ' ');
    assert forall j :: 0 <= j < |Dropped| ==> Dropped[j] in t3.columns by {
      assert "FirstName" == name[0];
    }
    var dropped := Drop(t3, Dropped);
    assert dropped.Ok?;
    var t4 := dropped.value;
    r := Ok(t4);
    assert PartOf(t.rows, t1.rows, ids[0], "PassengerId", '_', 0) && PartOf(t.rows, t1.rows, ids[1], "PassengerId", '_', 1);
    assert PartOf(t1.rows, t2.rows, cabin[0], "Cabin", '/', 0) && PartOf(t1.rows, t2.rows, cabin[1], "Cabin", '/', 1);
    assert PartOf(t1.rows, t2.rows, cabin[2], "Cabin", '/', 2) && PartOf(t2.rows, t3.rows, name[1], "Name", ' ', 1);
    SplitChain(t.rows, t1.rows, t2.rows, t3.rows, t4.rows);
  }

  /** What the three splits and the drop of `SplitStage` leave, from their own postconditions. */
  ghost predicate SplitSteps(t: seq<Row>, t1: seq<Row>, t2: seq<Row>, t3: seq<Row>, t4: seq<Row>)
  {
    && OnlyChanges(t, t1, IdParts)
    && PartOf(t, t1, "GroupId", "PassengerId", '_', 0)
    && PartOf(t, t1, "GroupSize", "PassengerId", '_', 1)
    && OnlyChanges(t1, t2, CabinParts)
    && PartOf(t1, t2, "Deck", "Cabin", '/', 0)
    && PartOf(t1, t2, "CabinNumber", "Cabin", '/', 1)
    && PartOf(t1, t2, "Side", "Cabin", '/', 2)
    && OnlyChanges(t2, t3, NameParts)
    && PartOf(t2, t3, "LastName", "Name", ' ', 1)
    && OnlyChanges(t3, t4, Dropped)
  }

  lemma SplitChain(t: seq<Row>, t1: seq<Row>, t2: seq<Row>, t3: seq<Row>, t4: seq<Row>)
    requires SplitSteps(t, t1, t2, t3, t4)
    ensures OnlyChanges(t, t4, SplitColumns)
    ensures PartOf(t, t4, "GroupId", "PassengerId", '_', 0)
    ensures PartOf(t, t4, "GroupSize", "PassengerId", '_', 1)
    ensures PartOf(t, t4, "Deck", "Cabin", '/', 0)
    ensures PartOf(t, t4, "CabinNumber", "Cabin", '/', 1)
    ensures PartOf(t, t4, "Side", "Cabin", '/', 2)
    ensures PartOf(t, t4, "LastName", "Name", ' ', 1)
  {
    var ids, cabin, name := IdParts, CabinParts, NameParts;
    OnlyChangesTrans(t, t1, t2, ids, cabin);
    OnlyChangesTrans(t, t2, t3, ids + cabin, name);
    OnlyChangesTrans(t, t3, t4, ids + cabin + name, Dropped);
    assert "GroupId" !in cabin && "GroupId" !in name && "GroupId" !in Dropped;
    KeepPart(t, t1, t2, cabin, "GroupId", "PassengerId", '_', 0);
    KeepPart(t, t2, t3, name, "GroupId", "PassengerId", '_', 0);
    KeepPart(t, t3, t4, Dropped, "GroupId", "PassengerId", '_', 0);
    assert "GroupSize" !in cabin && "GroupSize" !in name && "GroupSize" !in Dropped;
    KeepPart(t, t1, t2, cabin, "GroupSize", "PassengerId", '_', 1);
    KeepPart(t, t2, t3, name, "GroupSize", "PassengerId", '_', 1);
    KeepPart(t, t3, t4, Dropped, "GroupSize", "PassengerId", '_', 1);
    assert "Cabin" !in ids;
    CabinChain(t, t1, t2, t3, t4, "Deck", 0);
    CabinChain(t, t1, t2, t3, t4, "CabinNumber", 1);
    CabinChain(t, t1, t2, t3, t4, "Side", 2);
    assert "Name" !in ids + cabin && "LastName" !in Dropped;
    RebasePart(t, t2, t3, ids + cabin, "LastName", "Name", ' ', 1);
    KeepPart(t, t3, t4, Dropped, "LastName", "Name", ' ', 1);
  }

  lemma CabinChain(t: seq<Row>, t1: seq<Row>, t2: seq<Row>, t3: seq<Row>, t4: seq<Row>, col: string, j: nat)
    requires OnlyChanges(t, t1, IdParts) && "Cabin" !in IdParts
    requires PartOf(t1, t2, col, "Cabin", '/', j)
    requires OnlyChanges(t2, t3, NameParts) && col !in NameParts
    requires OnlyChanges(t3, t4, Dropped) && col !in Dropped
    ensures PartOf(t, t4, col, "Cabin", '/', j)
  {
    RebasePart(t, t1, t2, IdParts, col, "Cabin", '/', j);
    KeepPart(t, t2, t3, NameParts, col, "Cabin", '/', j);
    KeepPart(t, t3, t4, Dropped, col, "Cabin", '/', j);
  }

  /** A part read from `b` is a part of `a` when the step from `a` to `b` leaves the source
      column alone. */
  lemma RebasePart(a: seq<Row>, b: seq<Row>, c: seq<Row>, cs: seq<string>, col: string, src: string, d: char, j: nat)
    requires OnlyChanges(a, b, cs) && src !in cs && PartOf(b, c, col, src, d, j)
    ensures PartOf(a, c, col, src, d, j)
  {
  }

  /** The columns the flag mapping and the casts write (lines 42-47). */
  const FlagColumns: seq<string> := ["CryoSleep", "VIP", "CabinNumber", "Age"]

  /** Some cabin number fails the cast to float (line 46). */
  predicate CabinCastFails(t: Frame)
  {
    exists i :: 0 <= i < |t.rows| && Cabins.AsFloat(Get(t.rows[i], "CabinNumber")).Err?
  }

  /** Lines 42-47: CryoSleep and VIP mapped to 1/0, the cabin number cast to float and the age
      rounded. Each column read raises `KeyError` when the column is absent, in script order: the
      two flags before the mappings, Age after the cabin number cast, which raises first on a
      cabin number that is not a number. A text age raises last. */
  method FlagStage(t: Frame) returns (r: Result<Frame>)
    ensures r.Err? <==>
      || "CryoSleep" !in t.columns || "VIP" !in t.columns || CabinCastFails(t) || "Age" !in t.columns
      || (exists i :: 0 <= i < |t.rows| && Ages.RoundAge(Get(t.rows[i], "Age")).Err?)
    ensures "CryoSleep" !in t.columns ==> r == Err(MissingColumnError("CryoSleep"))
    ensures "CryoSleep" in t.columns && "VIP" !in t.columns ==> r == Err(MissingColumnError("VIP"))
    ensures "CryoSleep" in t.columns && "VIP" in t.columns && CabinCastFails(t) ==>
      r.Err? && exists i :: 0 <= i < |t.rows| && Cabins.AsFloat(Get(t.rows[i], "CabinNumber")) == Err(r.error)
    ensures "CryoSleep" in t.columns && "VIP" in t.columns && !CabinCastFails(t) && "Age" !in t.columns ==>
      r == Err(MissingColumnError("Age"))
    ensures r.Ok? ==> OnlyChanges(t.rows, r.value.rows, FlagColumns)
    ensures r.Ok? ==> forall i :: 0 <= i < |t.rows| ==>
      && Get(r.value.rows[i], "CryoSleep") == Rules.MapFlag(Get(t.rows[i], "CryoSleep"))
      && Get(r.value.rows[i], "VIP") == Rules.MapFlag(Get(t.rows[i], "VIP"))
    ensures r.Ok? ==> forall i :: 0 <= i < |t.rows| ==>
      && Get(r.value.rows[i], "CabinNumber") == Cabins.AsFloat(Get(t.rows[i], "CabinNumber")).value
      && Get(r.value.rows[i], "Age") == Ages.RoundAge(Get(t.rows[i], "Age")).value
  {
    if "CryoSleep" !in t.columns {
      return Err(MissingColumnError("CryoSleep"));
    }
    if "VIP" !in t.columns {
      return Err(MissingColumnError("VIP"));
    }
    var t1 := Rules.MapFlags(t, "CryoSleep");
    var t2 := Rules.MapFlags(t1, "VIP");
    FlagsKeep(t.rows, t1.rows, t2.rows);
    var c3 := Cabins.CastColumn(t2, "CabinNumber", Cabins.AsFloat);
    if c3.Err? {
      return Err(c3.error);
    }
    var t3 := c3.value;
    if "Age" !in t3.columns {
      return Err(MissingColumnError("Age"));
    }
    CastKeeps(t.rows, t2.rows, t3.rows);
    var c4 := Ages.RoundAges(t3);
    if c4.Err? {
      return Err(c4.error);
    }
    var t4 := c4.value;
    FlagChain(t.rows, t1.rows, t2.rows, t3.rows, t4.rows);
    r := Ok(t4);
  }

  /** The two mappings leave the cabin number and the age as they were. */
  lemma FlagsKeep(t: seq<Row>, t1: seq<Row>, t2: seq<Row>)
    requires OnlyChanges(t, t1, ["CryoSleep"]) && OnlyChanges(t1, t2, ["VIP"])
    ensures Same(t, t2, "CabinNumber") && Same(t, t2, "Age")
  {
    assert "CabinNumber" !in ["CryoSleep"] && "CabinNumber" !in ["VIP"];
    assert "Age" !in ["CryoSleep"] && "Age" !in ["VIP"];
  }

  lemma CastKeeps(t: seq<Row>, t2: seq<Row>, t3: seq<Row>)
    requires Same(t, t2, "Age") && OnlyChanges(t2, t3, ["CabinNumber"])
    ensures Same(t, t3, "Age")
  {
    assert "Age" !in ["CabinNumber"];
  }

  lemma FlagChain(t: seq<Row>, t1: seq<Row>, t2: seq<Row>, t3: seq<Row>, t4: seq<Row>)
    requires OnlyChanges(t, t1, ["CryoSleep"]) && OnlyChanges(t1, t2, ["VIP"])
    requires OnlyChanges(t2, t3, ["CabinNumber"]) && OnlyChanges(t3, t4, ["Age"])
    ensures OnlyChanges(t, t4, FlagColumns)
    ensures forall i :: 0 <= i < |t1| ==> Get(t4[i], "CryoSleep") == Get(t1[i], "CryoSleep")
    ensures forall i :: 0 <= i < |t2| ==> Get(t4[i], "VIP") == Get(t2[i], "VIP")
    ensures forall i :: 0 <= i < |t3| ==> Get(t4[i], "CabinNumber") == Get(t3[i], "CabinNumber")
  {
    OnlyChangesTrans(t, t1, t2, ["CryoSleep"], ["VIP"]);
    OnlyChangesTrans(t, t2, t3, ["CryoSleep"] + ["VIP"], ["CabinNumber"]);
    OnlyChangesTrans(t, t3, t4, ["CryoSleep"] + ["VIP"] + ["CabinNumber"], ["Age"]);
    assert ["CryoSleep"] + ["VIP"] + ["CabinNumber"] + ["Age"] == FlagColumns;
    assert "CryoSleep" !in ["VIP"] && "CryoSleep" !in ["CabinNumber"] && "CryoSleep" !in ["Age"];
    assert "VIP" !in ["CabinNumber"] && "VIP" !in ["Age"] && "CabinNumber" !in ["Age"];
  }

  /** The columns the spending steps write (lines 53-77). */
  const SpendStageColumns: seq<string> :=
    ["TotalSpending", "SpentMoney", "GroupSpentMoney"] + ["TotalSpending"] + ["TravelingAlone"] + Spending.SpendColumns

  /** A total above the cap becomes the cap (line 60). */
  function Capped(x: real, cap: real): (y: real)
    ensures y <= cap && (x <= cap ==> y == x)
  {
    if x > cap then cap else x
  }

  /** Lines 53-77: the spending flags from the raw amounts, the cap on the total, the
      TravelingAlone flag (a missing GroupSize raises), then the imputation of the amounts. */
  method SpendStage(t: Frame, cap: real) returns (r: Result<Frame>)
    ensures r.Err? <==> exists i :: 0 <= i < |t.rows| && Get(t.rows[i], "GroupSize").None?
    ensures r.Ok? ==> OnlyChanges(t.rows, r.value.rows, SpendStageColumns)
    ensures r.Ok? ==> forall i :: 0 <= i < |t.rows| ==>
      && Get(r.value.rows[i], "TotalSpending") == Some(Real(Capped(Spending.TotalOf(t.rows[i]), cap)))
      && Get(r.value.rows[i], "SpentMoney") == Some(Int(Spending.SpentFlag(t.rows[i])))
      && Get(r.value.rows[i], "GroupSpentMoney") == Spending.GroupSpent(t.rows, i)
    ensures r.Ok? ==> forall i :: 0 <= i < |t.rows| ==>
      (Get(r.value.rows[i], "TravelingAlone") == Some(Int(1)) <==> Get(t.rows[i], "GroupSize") == Some(Str("01"))) &&
      (Get(r.value.rows[i], "TravelingAlone") == Some(Int(1)) || Get(r.value.rows[i], "TravelingAlone") == Some(Int(0)))
    ensures r.Ok? ==> forall i, j :: 0 <= i < |t.rows| && 0 <= j < |Spending.SpendColumns| ==>
      Get(r.value.rows[i], Spending.SpendColumns[j]) == Spending.Imputed(t.rows[i], Spending.SpendColumns[j])
  {
    var t1 := Spending.AddSpendingFlags(t);
    var t2 := Spending.CapTotals(t1, cap);
    GroupSizeKept(t.rows, t1.rows, t2.rows);
    var c3 := Spending.AddTravelingAlone(t2);
    if c3.Err? {
      return Err(c3.error);
    }
    var t3 := c3.value;
    var t4 := Spending.ImputeSpending(t3);
    SpendChain(t.rows, t1.rows, t2.rows, t3.rows, t4.rows, cap);
    r := Ok(t4);
  }

  lemma GroupSizeKept(t: seq<Row>, t1: seq<Row>, t2: seq<Row>)
    requires OnlyChanges(t, t1, ["TotalSpending", "SpentMoney", "GroupSpentMoney"]) && OnlyChanges(t1, t2, ["TotalSpending"])
    ensures Same(t, t2, "GroupSize")
  {
    assert "GroupSize" !in ["TotalSpending", "SpentMoney", "GroupSpentMoney"] && "GroupSize" !in ["TotalSpending"];
  }

  /** The spending steps, as their postconditions state them. */
  ghost predicate SpendSteps(t: seq<Row>, t1: seq<Row>, t2: seq<Row>, t3: seq<Row>, t4: seq<Row>, cap: real)
  {
    && OnlyChanges(t, t1, ["TotalSpending", "SpentMoney", "GroupSpentMoney"])
    && OnlyChanges(t1, t2, ["TotalSpending"])
    && OnlyChanges(t2, t3, ["TravelingAlone"])
    && OnlyChanges(t3, t4, Spending.SpendColumns)
  }

  lemma SpendChain(t: seq<Row>, t1: seq<Row>, t2: seq<Row>, t3: seq<Row>, t4: seq<Row>, cap: real)
    requires SpendSteps(t, t1, t2, t3, t4, cap)
    requires forall i :: 0 <= i < |t| ==> Get(t1[i], "TotalSpending") == Some(Real(Spending.TotalOf(t[i])))
    requires forall i :: 0 <= i < |t| ==> Get(t1[i], "SpentMoney") == Some(Int(Spending.SpentFlag(t[i])))
    requires forall i :: 0 <= i < |t| ==> Get(t1[i], "GroupSpentMoney") == Spending.GroupSpent(t, i)
    requires forall i :: 0 <= i < |t1| && !(NumOf(Get(t1[i], "TotalSpending")).Some? && NumOf(Get(t1[i], "TotalSpending")).value > cap) ==>
      Get(t2[i], "TotalSpending") == Get(t1[i], "TotalSpending")
    requires forall i :: 0 <= i < |t1| && NumOf(Get(t1[i], "TotalSpending")).Some? && NumOf(Get(t1[i], "TotalSpending")).value > cap ==>
      Get(t2[i], "TotalSpending") == Some(Real(cap))
    requires Same(t, t2, "GroupSize")
    requires forall i :: 0 <= i < |t2| ==>
      (Get(t3[i], "TravelingAlone") == Some(Int(1)) <==> Get(t2[i], "GroupSize") == Some(Str("01"))) &&
      (Get(t3[i], "TravelingAlone") == Some(Int(1)) || Get(t3[i], "TravelingAlone") == Some(Int(0)))
    requires forall i, j :: 0 <= i < |t3| && 0 <= j < |Spending.SpendColumns| ==>
      Get(t4[i], Spending.SpendColumns[j]) == Spending.Imputed(t3[i], Spending.SpendColumns[j])
    ensures OnlyChanges(t, t4, SpendStageColumns)
    ensures forall i :: 0 <= i < |t| ==>
      && Get(t4[i], "TotalSpending") == Some(Real(Capped(Spending.TotalOf(t[i]), cap)))
      && Get(t4[i], "SpentMoney") == Some(Int(Spending.SpentFlag(t[i])))
      && Get(t4[i], "GroupSpentMoney") == Spending.GroupSpent(t, i)
    ensures forall i :: 0 <= i < |t| ==>
      (Get(t4[i], "TravelingAlone") == Some(Int(1)) <==> Get(t[i], "GroupSize") == Some(Str("01"))) &&
      (Get(t4[i], "TravelingAlone") == Some(Int(1)) || Get(t4[i], "TravelingAlone") == Some(Int(0)))
    ensures forall i, j :: 0 <= i < |t| && 0 <= j < |Spending.SpendColumns| ==>
      Get(t4[i], Spending.SpendColumns[j]) == Spending.Imputed(t[i], Spending.SpendColumns[j])
  {
    var spend := Spending.SpendColumns;
    var flags := ["TotalSpending", "SpentMoney", "GroupSpentMoney"];
    OnlyChangesTrans(t, t1, t2, flags, ["TotalSpending"]);
    OnlyChangesTrans(t, t2, t3, flags + ["TotalSpending"], ["TravelingAlone"]);
    OnlyChangesTrans(t, t3, t4, flags + ["TotalSpending"] + ["TravelingAlone"], spend);
    assert flags + ["TotalSpending"] + ["TravelingAlone"] + spend == SpendStageColumns;
    FlagsUntouched(t1, t2, t3, t4);
    forall i | 0 <= i < |t|
      ensures Get(t4[i], "TotalSpending") == Some(Real(Capped(Spending.TotalOf(t[i]), cap)))
    {
      assert NumOf(Get(t1[i], "TotalSpending")) == Some(Spending.TotalOf(t[i]));
    }
    RowInputsKept(t, t3, flags + ["TotalSpending"] + ["TravelingAlone"]);
    forall i, j | 0 <= i < |t| && 0 <= j < |spend|
      ensures Get(t4[i], spend[j]) == Spending.Imputed(t[i], spend[j])
    {
      assert Get(t3[i], spend[j]) == Get(t[i], spend[j]);
    }
  }

  /** The flags written first are not touched by the later steps. */
  lemma FlagsUntouched(t1: seq<Row>, t2: seq<Row>, t3: seq<Row>, t4: seq<Row>)
    requires OnlyChanges(t1, t2, ["TotalSpending"]) && OnlyChanges(t2, t3, ["TravelingAlone"]) && OnlyChanges(t3, t4, Spending.SpendColumns)
    ensures Same(t1, t4, "SpentMoney") && Same(t1, t4, "GroupSpentMoney") && Same(t2, t4, "TotalSpending") && Same(t3, t4, "TravelingAlone")
  {
    var spend := Spending.SpendColumns;
    assert "SpentMoney" !in spend && "GroupSpentMoney" !in spend && "TotalSpending" !in spend && "TravelingAlone" !in spend;
    assert "SpentMoney" !in ["TotalSpending"] && "GroupSpentMoney" !in ["TotalSpending"];
    assert "SpentMoney" !in ["TravelingAlone"] && "GroupSpentMoney" !in ["TravelingAlone"] && "TotalSpending" !in ["TravelingAlone"];
  }

  /** The flag steps leave the age and the amounts alone, so the child mask and the row
      averages the imputation takes are those of the stage's input. */
  lemma RowInputsKept(t: seq<Row>, t3: seq<Row>, cs: seq<string>)
    requires OnlyChanges(t, t3, cs)
    requires cs == ["TotalSpending", "SpentMoney", "GroupSpentMoney"] + ["TotalSpending"] + ["TravelingAlone"]
    ensures forall i :: 0 <= i < |t| ==>
      Spending.IsChild(t3[i]) == Spending.IsChild(t[i]) && Spending.RowAverage(t3[i]) == Spending.RowAverage(t[i])
    ensures forall i, j :: 0 <= i < |t| && 0 <= j < |Spending.SpendColumns| ==>
      Get(t3[i], Spending.SpendColumns[j]) == Get(t[i], Spending.SpendColumns[j])
  {
    var spend := Spending.SpendColumns;
    assert "Age" !in cs;
    assert forall j :: 0 <= j < |spend| ==> spend[j] !in cs;
    forall i | 0 <= i < |t|
      ensures Spending.RowAverage(t3[i]) == Spending.RowAverage(t[i])
    {
      assert Spending.Cells(t3[i], spend) == Spending.Cells(t[i], spend);
    }
  }

  /** A CryoSleep cell as the flag mapping leaves it: 1, 0 or missing. */
  predicate FlagCell(c: Cell)
  {
    c.None? || c == Some(Int(0)) || c == Some(Int(1))
  }

  ghost predicate FlagColumn(rows: seq<Row>, c: string)
  {
    forall i :: 0 <= i < |rows| ==> FlagCell(Get(rows[i], c))
  }

  /** One `fill_missing_values_using_method(..., method="mode")` of the script, on the rows. */
  function Fill(rows: seq<Row>, keys: seq<string>, target: string): seq<Row>
  {
    Imputer.FillRows(rows, keys, target, Imputer.Mode)
  }

  /** Lines 99-113 in script order: by group, the deck rules, by family name, by deck and side. */
  function HomePlanetFills(t: Frame): seq<Row>
  {
    var byGroup := Fill(t.rows, ["GroupId"], "HomePlanet");
    var byDeck := Rules.HomePlanetRules(Frame(t.columns, byGroup)).rows;
    Fill(Fill(byDeck, ["LastName"], "HomePlanet"), ["Deck", "Side"], "HomePlanet")
  }

  /** Lines 114-123 in script order, from the finest grouping to the coarsest. */
  function DestinationFills(rows: seq<Row>): seq<Row>
  {
    var d := "Destination";
    var byCabin := Fill(rows, ["Deck", "CabinNumber", "Side"], d);
    var byFamily := Fill(Fill(byCabin, ["Deck", "Side"], d), ["GroupId", "LastName"], d);
    Fill(Fill(byFamily, ["GroupId"], d), ["LastName"], d)
  }

  /** Lines 124-129 in script order: by group, by family name, by home planet and destination. */
  function SideFills(rows: seq<Row>): seq<Row>
  {
    Fill(Fill(Fill(rows, ["GroupId"], "Side"), ["LastName"], "Side"), ["HomePlanet", "Destination"], "Side")
  }

  /** Lines 80-97: the three CryoSleep rules, then the mode of the passenger's group. A present
      CryoSleep is never overwritten, a missing one that a rule decides takes that rule's value,
      and a column of flags stays a column of flags. */
  method CryoStage(t: Frame) returns (r: Result<Frame>)
    ensures "CryoSleep" in t.columns ==> (r.Err? <==> "GroupId" !in t.columns)
    ensures r.Ok? ==> r.value.columns == t.columns || "CryoSleep" !in t.columns
    ensures r.Ok? ==> OnlyChanges(t.rows, r.value.rows, ["CryoSleep"]) && KeepsPresent(t.rows, r.value.rows, "CryoSleep")
    ensures r.Ok? ==> forall i :: 0 <= i < |t.rows| && Get(t.rows[i], "CryoSleep").None? && Rules.CryoRule(t.rows[i]).Some? ==>
      Get(r.value.rows[i], "CryoSleep") == Rules.CryoRule(t.rows[i])
    ensures r.Ok? && FlagColumn(t.rows, "CryoSleep") ==> FlagColumn(r.value.rows, "CryoSleep")
    ensures r.Ok? ==> r.value.rows == Fill(Rules.CryoSleepRules(t).rows, ["GroupId"], "CryoSleep")
  {
    var t1 := Rules.CryoSleepRules(t);
    var t2 :- Imputer.FillMissingValues(t1, ["GroupId"], "CryoSleep", Imputer.Mode);
    Imputer.ModeFillFromColumn(t1.rows, ["GroupId"], "CryoSleep");
    CryoChain(t.rows, t1.rows, t2.rows);
    r := Ok(t2);
  }

  lemma CryoChain(t: seq<Row>, t1: seq<Row>, t2: seq<Row>)
    requires OnlyChanges(t, t1, ["CryoSleep"]) && KeepsPresent(t, t1, "CryoSleep")
    requires forall i :: 0 <= i < |t| && Get(t[i], "CryoSleep").None? ==> Get(t1[i], "CryoSleep") == Rules.CryoRule(t[i])
    requires OnlyChanges(t1, t2, ["CryoSleep"]) && KeepsPresent(t1, t2, "CryoSleep")
    requires forall i :: 0 <= i < |t1| && Get(t2[i], "CryoSleep").Some? ==>
      exists j :: 0 <= j < |t1| && Get(t1[j], "CryoSleep") == Get(t2[i], "CryoSleep")
    ensures OnlyChanges(t, t2, ["CryoSleep"]) && KeepsPresent(t, t2, "CryoSleep")
    ensures forall i :: 0 <= i < |t| && Get(t[i], "CryoSleep").None? && Rules.CryoRule(t[i]).Some? ==>
      Get(t2[i], "CryoSleep") == Rules.CryoRule(t[i])
    ensures FlagColumn(t, "CryoSleep") ==> FlagColumn(t2, "CryoSleep")
  {
    OnlyChangesTrans(t, t1, t2, ["CryoSleep"], ["CryoSleep"]);
    if FlagColumn(t, "CryoSleep") {
      assert FlagColumn(t1, "CryoSleep");
      forall i | 0 <= i < |t2| ensures FlagCell(Get(t2[i], "CryoSleep")) {
        if Get(t2[i], "CryoSleep").Some? {
          var j :| 0 <= j < |t1| && Get(t1[j], "CryoSleep") == Get(t2[i], "CryoSleep");
        }
      }
    }
  }

  /** One step of a chain of fills of column `c`: nothing else changes and no present cell of
      `c` is overwritten. */
  ghost predicate FillStep(a: seq<Row>, b: seq<Row>, c: string)
  {
    OnlyChanges(a, b, [c]) && KeepsPresent(a, b, c)
  }

  /** Every present cell of column `c` in `b` is a value column `c` already held in `a`: the
      fills invent no values. */
  ghost predicate ValuesFrom(a: seq<Row>, b: seq<Row>, c: string)
  {
    forall i :: 0 <= i < |b| && Get(b[i], c).Some? ==> exists j :: 0 <= j < |a| && Get(a[j], c) == Get(b[i], c)
  }

  lemma FillStepTrans(a: seq<Row>, b: seq<Row>, c: seq<Row>, col: string)
    requires FillStep(a, b, col) && FillStep(b, c, col)
    ensures FillStep(a, c, col)
  {
    OnlyChangesTrans(a, b, c, [col], [col]);
  }

  lemma {:induction false} ValuesFromTrans(a: seq<Row>, b: seq<Row>, c: seq<Row>, col: string)
    requires ValuesFrom(a, b, col) && ValuesFrom(b, c, col)
    ensures ValuesFrom(a, c, col)
  {
    forall i | 0 <= i < |c| && Get(c[i], col).Some? ensures exists j :: 0 <= j < |a| && Get(a[j], col) == Get(c[i], col) {
      var k :| 0 <= k < |b| && Get(b[k], col) == Get(c[i], col);
      var j :| 0 <= j < |a| && Get(a[j], col) == Get(b[k], col);
    }
  }

  /** One `fill_missing_values_using_method(..., method="mode")` of the script, seen from the
      rest of it: it raises exactly when a key or the target is not a column, and otherwise
      fills missing cells of the target with values the target column already holds. */
  method ModeFill(t: Frame, keys: seq<string>, target: string) returns (r: Result<Frame>)
    requires |keys| > 0
    ensures r.Err? <==> target !in t.columns || exists j :: 0 <= j < |keys| && keys[j] !in t.columns
    ensures r.Ok? ==> r.value.columns == t.columns && r.value.rows == Imputer.FillRows(t.rows, keys, target, Imputer.Mode)
    ensures r.Ok? ==> FillStep(t.rows, r.value.rows, target) && ValuesFrom(t.rows, r.value.rows, target)
  {
    r := Imputer.FillMissingValues(t, keys, target, Imputer.Mode);
    Imputer.ModeFillFromColumn(t.rows, keys, target);
  }

  /** Lines 99-111: the HomePlanet fills, by group, by the deck rules, by family name and by
      deck and side. A passenger whose group gave it no home planet is put on Europa on decks
      A, B and C and on Earth on deck G. */
  method HomePlanetStage(t: Frame) returns (r: Result<Frame>)
    ensures r.Err? <==> !("GroupId" in t.columns && "HomePlanet" in t.columns && "LastName" in t.columns && "Deck" in t.columns && "Side" in t.columns)
    ensures r.Ok? ==> r.value.columns == t.columns && FillStep(t.rows, r.value.rows, "HomePlanet")
    ensures r.Ok? ==> forall i :: 0 <= i < |t.rows| && Get(Imputer.FillRows(t.rows, ["GroupId"], "HomePlanet", Imputer.Mode)[i], "HomePlanet").None? ==>
      && (Rules.EuropaDeck(Get(t.rows[i], "Deck")) ==> Get(r.value.rows[i], "HomePlanet") == Some(Str("Europa")))
      && (Get(t.rows[i], "Deck") == Some(Str("G")) ==> Get(r.value.rows[i], "HomePlanet") == Some(Str("Earth")))
    ensures r.Ok? ==> r.value.rows == HomePlanetFills(t)
  {
    var t1 :- ModeFill(t, ["GroupId"], "HomePlanet");
    var t2 := Rules.HomePlanetRules(t1);
    var t3 :- ModeFill(t2, ["LastName"], "HomePlanet");
    var t4 :- ModeFill(t3, ["Deck", "Side"], "HomePlanet");
    assert ["GroupId"][0] in t.columns && ["LastName"][0] in t.columns;
    assert ["Deck", "Side"][0] in t.columns && ["Deck", "Side"][1] in t.columns;
    FillStepTrans(t2.rows, t3.rows, t4.rows, "HomePlanet");
    HomeChain(t.rows, t1.rows, t2.rows, t4.rows);
    r := Ok(t4);
  }

  lemma HomeChain(t: seq<Row>, t1: seq<Row>, t2: seq<Row>, t4: seq<Row>)
    requires FillStep(t, t1, "HomePlanet") && FillStep(t1, t2, "HomePlanet") && FillStep(t2, t4, "HomePlanet")
    requires forall i :: 0 <= i < |t1| && Get(t1[i], "HomePlanet").None? && Rules.EuropaDeck(Get(t1[i], "Deck")) ==>
      Get(t2[i], "HomePlanet") == Some(Str("Europa"))
    requires forall i :: 0 <= i < |t1| && Get(t1[i], "HomePlanet").None? && Get(t1[i], "Deck") == Some(Str("G")) ==>
      Get(t2[i], "HomePlanet") == Some(Str("Earth"))
    ensures FillStep(t, t4, "HomePlanet")
    ensures forall i :: 0 <= i < |t| && Get(t1[i], "HomePlanet").None? ==>
      && (Rules.EuropaDeck(Get(t[i], "Deck")) ==> Get(t4[i], "HomePlanet") == Some(Str("Europa")))
      && (Get(t[i], "Deck") == Some(Str("G")) ==> Get(t4[i], "HomePlanet") == Some(Str("Earth")))
  {
    FillStepTrans(t, t1, t2, "HomePlanet");
    FillStepTrans(t, t2, t4, "HomePlanet");
    assert "Deck" !in ["HomePlanet"];
  }

  /** Lines 112-123: the five Destination fills, from the finest grouping to the coarsest. */
  method DestinationStage(t: Frame) returns (r: Result<Frame>)
    ensures r.Err? <==> !("Deck" in t.columns && "CabinNumber" in t.columns && "Side" in t.columns && "GroupId" in t.columns && "LastName" in t.columns && "Destination" in t.columns)
    ensures r.Ok? ==> r.value.columns == t.columns
    ensures r.Ok? ==> FillStep(t.rows, r.value.rows, "Destination") && ValuesFrom(t.rows, r.value.rows, "Destination")
    ensures r.Ok? ==> r.value.rows == DestinationFills(t.rows)
  {
    var t1 :- ModeFill(t, ["Deck", "CabinNumber", "Side"], "Destination");
    var t2 :- ModeFill(t1, ["Deck", "Side"], "Destination");
    var t3 :- ModeFill(t2, ["GroupId", "LastName"], "Destination");
    var t4 :- ModeFill(t3, ["GroupId"], "Destination");
    var t5 :- ModeFill(t4, ["LastName"], "Destination");
    assert ["Deck", "CabinNumber", "Side"][0] in t.columns && ["Deck", "CabinNumber", "Side"][1] in t.columns;
    assert ["Deck", "CabinNumber", "Side"][2] in t.columns && ["GroupId", "LastName"][0] in t.columns;
    assert ["GroupId", "LastName"][1] in t.columns;
    FillChain(t.rows, t1.rows, t2.rows, "Destination");
    FillChain(t.rows, t2.rows, t3.rows, "Destination");
    FillChain(t.rows, t3.rows, t4.rows, "Destination");
    FillChain(t.rows, t4.rows, t5.rows, "Destination");
    r := Ok(t5);
  }

  /** Lines 124-129: the three Side fills. */
  method SideStage(t: Frame) returns (r: Result<Frame>)
    ensures r.Err? <==> !("GroupId" in t.columns && "LastName" in t.columns && "HomePlanet" in t.columns && "Destination" in t.columns && "Side" in t.columns)
    ensures r.Ok? ==> r.value.columns == t.columns
    ensures r.Ok? ==> FillStep(t.rows, r.value.rows, "Side") && ValuesFrom(t.rows, r.value.rows, "Side")
    ensures r.Ok? ==> r.value.rows == SideFills(t.rows)
  {
    var t1 :- ModeFill(t, ["GroupId"], "Side");
    var t2 :- ModeFill(t1, ["LastName"], "Side");
    var t3 :- ModeFill(t2, ["HomePlanet", "Destination"], "Side");
    assert ["GroupId"][0] in t.columns && ["LastName"][0] in t.columns;
    assert ["HomePlanet", "Destination"][0] in t.columns && ["HomePlanet", "Destination"][1] in t.columns;
    FillChain(t.rows, t1.rows, t2.rows, "Side");
    FillChain(t.rows, t2.rows, t3.rows, "Side");
    r := Ok(t3);
  }

  lemma FillChain(a: seq<Row>, b: seq<Row>, c: seq<Row>, col: string)
    requires FillStep(a, b, col) && ValuesFrom(a, b, col) && FillStep(b, c, col) && ValuesFrom(b, c, col)
    ensures FillStep(a, c, col) && ValuesFrom(a, c, col)
  {
    FillStepTrans(a, b, c, col);
    ValuesFromTrans(a, b, c, col);
  }

  /** No row's deck fill raises. */
  ghost predicate DecksFill(t: Frame, sMeans: Decks.MeanTable, pMeans: Decks.MeanTable)
  {
    forall i :: 0 <= i < |t.rows| ==> Decks.FillDeck(t.rows[i], sMeans, pMeans).Ok?
  }

  /** Every GroupId converts to an integer. */
  ghost predicate GroupIdsCast(t: Frame)
  {
    forall i :: 0 <= i < |t.rows| ==> Cabins.AsInt(Get(t.rows[i], "GroupId")).Ok?
  }

  /** After the deck fill, some passenger of deck `deck` has a known cabin number. */
  ghost predicate KnownAfterFill(t: Frame, sMeans: Decks.MeanTable, pMeans: Decks.MeanTable, deck: string)
  {
    exists i :: 0 <= i < |t.rows| && Decks.FillDeck(t.rows[i], sMeans, pMeans) == Ok(Some(Str(deck))) && Get(t.rows[i], "CabinNumber").Some?
  }

  /** Every deck of the cabin loop has a passenger with a known cabin number after the fill, so
      that each regression has data to fit. */
  ghost predicate EveryDeckFits(t: Frame, sMeans: Decks.MeanTable, pMeans: Decks.MeanTable)
  {
    forall k :: 0 <= k < |Decks.AllDecks| ==> KnownAfterFill(t, sMeans, pMeans, Decks.AllDecks[k])
  }

  /** The cabin number a row ends with, given its filled deck `d` and converted GroupId `g`: a
      known number is kept, a missing one on a deck of the loop gets that deck's prediction
      floored at 1, and any other stays missing. */
  function FinalCabin(c: Cell, d: Cell, g: Cell, predict: (string, Cell) -> int): (n: Cell)
    ensures c.Some? ==> n == c
    ensures c.None? && d.Some? && d.value.Str? && d.value.s in Decks.AllDecks ==> n.Some? && NumOf(n).Some? && NumOf(n).value >= 1.0
    ensures n.None? <==> c.None? && !(d.Some? && d.value.Str? && d.value.s in Decks.AllDecks)
  {
    if c.None? && d.Some? && d.value.Str? && d.value.s in Decks.AllDecks then
      Some(Real(Cabins.AtLeastOne(predict(d.value.s, g)) as real))
    else c
  }

  /** Lines 180-209: the deck fill, the integer GroupId and the cabin-number regression per deck. */
  method DeckStage(t: Frame, sMeans: Decks.MeanTable, pMeans: Decks.MeanTable, predict: (string, Cell) -> int) returns (r: Result<Frame>)
    ensures r.Ok? <==> DecksFill(t, sMeans, pMeans) && GroupIdsCast(t) && EveryDeckFits(t, sMeans, pMeans)
    ensures r.Ok? ==> OnlyChanges(t.rows, r.value.rows, ["Deck", "GroupId", "CabinNumber"])
    ensures r.Ok? ==> forall i :: 0 <= i < |t.rows| ==>
      var d := Decks.FillDeck(t.rows[i], sMeans, pMeans).value;
      var g := Cabins.AsInt(Get(t.rows[i], "GroupId")).value;
      && Get(r.value.rows[i], "Deck") == d
      && Get(r.value.rows[i], "GroupId") == g
      && Get(r.value.rows[i], "CabinNumber") == FinalCabin(Get(t.rows[i], "CabinNumber"), d, g, predict)
  {
    var t1 :- Decks.FillDecks(t, sMeans, pMeans);
    var c2 := Cabins.CastColumn(t1, "GroupId", Cabins.AsInt);
    if c2.Err? {
      CastFails(t, t1);
      return Err(c2.error);
    }
    var t2 := c2.value;
    DeckCastChain(t, t1, t2, sMeans, pMeans);
    DeckFits(t, t2, sMeans, pMeans);
    var t3 :- Cabins.WriteBackCabins(t2, predict);
    DeckFinal(t, t2, t3, sMeans, pMeans, predict);
    r := Ok(t3);
  }

  lemma CastFails(t: Frame, t1: Frame)
    requires OnlyChanges(t.rows, t1.rows, ["Deck"])
    requires exists i :: 0 <= i < |t1.rows| && Cabins.AsInt(Get(t1.rows[i], "GroupId")).Err?
    ensures !GroupIdsCast(t)
  {
    assert "GroupId" !in ["Deck"];
  }

  lemma DeckCastChain(t: Frame, t1: Frame, t2: Frame, sMeans: Decks.MeanTable, pMeans: Decks.MeanTable)
    requires DecksFill(t, sMeans, pMeans)
    requires forall i :: 0 <= i < |t1.rows| ==> Cabins.AsInt(Get(t1.rows[i], "GroupId")).Ok?
    requires OnlyChanges(t.rows, t1.rows, ["Deck"])
    requires forall i :: 0 <= i < |t.rows| ==> Get(t1.rows[i], "Deck") == Decks.FillDeck(t.rows[i], sMeans, pMeans).value
    requires OnlyChanges(t1.rows, t2.rows, ["GroupId"])
    requires forall i :: 0 <= i < |t1.rows| ==> Get(t2.rows[i], "GroupId") == Cabins.AsInt(Get(t1.rows[i], "GroupId")).value
    ensures GroupIdsCast(t)
    ensures OnlyChanges(t.rows, t2.rows, ["Deck", "GroupId"])
    ensures forall i :: 0 <= i < |t.rows| ==> Get(t2.rows[i], "Deck") == Decks.FillDeck(t.rows[i], sMeans, pMeans).value
    ensures forall i :: 0 <= i < |t.rows| ==> Get(t2.rows[i], "GroupId") == Cabins.AsInt(Get(t.rows[i], "GroupId")).value
    ensures forall i :: 0 <= i < |t.rows| ==> Get(t2.rows[i], "CabinNumber") == Get(t.rows[i], "CabinNumber")
  {
    OnlyChangesTrans(t.rows, t1.rows, t2.rows, ["Deck"], ["GroupId"]);
    assert ["Deck"] + ["GroupId"] == ["Deck", "GroupId"];
    assert "GroupId" !in ["Deck"] && "Deck" !in ["GroupId"] && "CabinNumber" !in ["Deck", "GroupId"];
  }

  /** The regressions of the deck-filled table all have data exactly when every deck of the loop
      has a known cabin number after the fill. */
  lemma DeckFits(t: Frame, t2: Frame, sMeans: Decks.MeanTable, pMeans: Decks.MeanTable)
    requires DecksFill(t, sMeans, pMeans) && |t2.rows| == |t.rows|
    requires forall i :: 0 <= i < |t.rows| ==> Get(t2.rows[i], "Deck") == Decks.FillDeck(t.rows[i], sMeans, pMeans).value
    requires forall i :: 0 <= i < |t.rows| ==> Get(t2.rows[i], "CabinNumber") == Get(t.rows[i], "CabinNumber")
    ensures Cabins.FittableUpTo(t2.rows, |Decks.AllDecks|) <==> EveryDeckFits(t, sMeans, pMeans)
  {
    forall deck ensures Cabins.HasKnownCabin(t2.rows, deck) <==> KnownAfterFill(t, sMeans, pMeans, deck) {
      if Cabins.HasKnownCabin(t2.rows, deck) {
        var i :| 0 <= i < |t2.rows| && Get(t2.rows[i], "Deck") == Some(Str(deck)) && Get(t2.rows[i], "CabinNumber").Some?;
        assert Decks.FillDeck(t.rows[i], sMeans, pMeans) == Ok(Some(Str(deck)));
      }
      if KnownAfterFill(t, sMeans, pMeans, deck) {
        var i :| 0 <= i < |t.rows| && Decks.FillDeck(t.rows[i], sMeans, pMeans) == Ok(Some(Str(deck))) && Get(t.rows[i], "CabinNumber").Some?;
        assert Get(t2.rows[i], "Deck") == Some(Str(deck)) && Get(t2.rows[i], "CabinNumber").Some?;
      }
    }
  }

  lemma DeckFinal(t: Frame, t2: Frame, t3: Frame, sMeans: Decks.MeanTable, pMeans: Decks.MeanTable, predict: (string, Cell) -> int)
    requires DecksFill(t, sMeans, pMeans) && GroupIdsCast(t)
    requires OnlyChanges(t.rows, t2.rows, ["Deck", "GroupId"])
    requires forall i :: 0 <= i < |t.rows| ==> Get(t2.rows[i], "Deck") == Decks.FillDeck(t.rows[i], sMeans, pMeans).value
    requires forall i :: 0 <= i < |t.rows| ==> Get(t2.rows[i], "GroupId") == Cabins.AsInt(Get(t.rows[i], "GroupId")).value
    requires forall i :: 0 <= i < |t.rows| ==> Get(t2.rows[i], "CabinNumber") == Get(t.rows[i], "CabinNumber")
    requires OnlyChanges(t2.rows, t3.rows, ["CabinNumber"])
    requires forall i :: 0 <= i < |t2.rows| ==> Get(t3.rows[i], "CabinNumber") == Cabins.CabinAfter(t2.rows[i], predict, Decks.AllDecks)
    ensures OnlyChanges(t.rows, t3.rows, ["Deck", "GroupId", "CabinNumber"])
    ensures forall i :: 0 <= i < |t.rows| ==>
      var d := Decks.FillDeck(t.rows[i], sMeans, pMeans).value;
      var g := Cabins.AsInt(Get(t.rows[i], "GroupId")).value;
      && Get(t3.rows[i], "Deck") == d
      && Get(t3.rows[i], "GroupId") == g
      && Get(t3.rows[i], "CabinNumber") == FinalCabin(Get(t.rows[i], "CabinNumber"), d, g, predict)
  {
    OnlyChangesTrans(t.rows, t2.rows, t3.rows, ["Deck", "GroupId"], ["CabinNumber"]);
    assert ["Deck", "GroupId"] + ["CabinNumber"] == ["Deck", "GroupId", "CabinNumber"];
    assert "Deck" !in ["CabinNumber"] && "GroupId" !in ["CabinNumber"];
  }

  /** `df.drop(columns=[c])` of a single column, seen from the rest of the script. */
  method DropColumn(t: Frame, c: string) returns (r: Result<Frame>)
    ensures r.Err? <==> c !in t.columns
    ensures r.Ok? ==> forall x :: x in r.value.columns <==> x in t.columns && x != c
    ensures r.Ok? ==> OnlyChanges(t.rows, r.value.rows, [c]) && forall i :: 0 <= i < |t.rows| ==> Get(r.value.rows[i], c).None?
  {
    r := Drop(t, [c]);
    assert [c][0] == c;
  }

  /** The grouping of the Age fill. */
  const AgeKeys: seq<string> := ["HomePlanet", "CryoSleep", "SpentMoney", "TravelingAlone"]

  /** Lines 216-231: the Age fill by the median of the passenger's group, the age groups cut from
      the filled age, and the drops of VIP and LastName. */
  method AgeStage(t: Frame) returns (r: Result<Frame>)
    ensures r.Err? <==>
      || !("HomePlanet" in t.columns && "CryoSleep" in t.columns && "SpentMoney" in t.columns && "TravelingAlone" in t.columns)
      || "Age" !in t.columns
      || !Imputer.NumericGroups(t.rows, AgeKeys, "Age")
      || "VIP" !in t.columns || "LastName" !in t.columns
    ensures r.Ok? ==> OnlyChanges(t.rows, r.value.rows, ["Age", "AgeGroup", "VIP", "LastName"])
    ensures r.Ok? ==> KeepsPresent(t.rows, r.value.rows, "Age")
    ensures r.Ok? ==> forall i :: 0 <= i < |t.rows| ==>
      Get(r.value.rows[i], "Age") == Get(Imputer.FillRows(t.rows, AgeKeys, "Age", Imputer.Median)[i], "Age")
    ensures r.Ok? ==> forall i :: 0 <= i < |t.rows| ==> Get(r.value.rows[i], "AgeGroup") == Ages.AgeBin(Get(r.value.rows[i], "Age"))
    ensures r.Ok? ==> "AgeGroup" in r.value.columns && "VIP" !in r.value.columns && "LastName" !in r.value.columns
    ensures r.Ok? ==> forall i :: 0 <= i < |t.rows| ==> Get(r.value.rows[i], "VIP").None? && Get(r.value.rows[i], "LastName").None?
  {
    var keys := AgeKeys;
    assert keys[0] == "HomePlanet" && keys[1] == "CryoSleep" && keys[2] == "SpentMoney" && keys[3] == "TravelingAlone";
    var t1 :- Imputer.FillMissingValues(t, keys, "Age", Imputer.Median);
    var t2 := Ages.WithAgeGroups(t1);
    var t3 :- DropColumn(t2, "VIP");
    var t4 :- DropColumn(t3, "LastName");
    AgeChain(t.rows, t1.rows, t2.rows, t3.rows, t4.rows);
    r := Ok(t4);
  }

  lemma AgeChain(t: seq<Row>, t1: seq<Row>, t2: seq<Row>, t3: seq<Row>, t4: seq<Row>)
    requires FillStep(t, t1, "Age")
    requires OnlyChanges(t1, t2, ["AgeGroup"]) && forall i :: 0 <= i < |t1| ==> Get(t2[i], "AgeGroup") == Ages.AgeBin(Get(t1[i], "Age"))
    requires OnlyChanges(t2, t3, ["VIP"]) && forall i :: 0 <= i < |t2| ==> Get(t3[i], "VIP").None?
    requires OnlyChanges(t3, t4, ["LastName"]) && forall i :: 0 <= i < |t3| ==> Get(t4[i], "LastName").None?
    ensures OnlyChanges(t, t4, ["Age", "AgeGroup", "VIP", "LastName"]) && KeepsPresent(t, t4, "Age")
    ensures forall i :: 0 <= i < |t| ==> Get(t4[i], "Age") == Get(t1[i], "Age")
    ensures forall i :: 0 <= i < |t| ==> Get(t4[i], "AgeGroup") == Ages.AgeBin(Get(t4[i], "Age"))
    ensures forall i :: 0 <= i < |t| ==> Get(t4[i], "VIP").None? && Get(t4[i], "LastName").None?
  {
    OnlyChangesTrans(t1, t2, t3, ["AgeGroup"], ["VIP"]);
    OnlyChangesTrans(t1, t3, t4, ["AgeGroup"] + ["VIP"], ["LastName"]);
    assert ["AgeGroup"] + ["VIP"] + ["LastName"] == ["AgeGroup", "VIP", "LastName"];
    OnlyChangesTrans(t, t1, t4, ["Age"], ["AgeGroup", "VIP", "LastName"]);
    assert ["Age"] + ["AgeGroup", "VIP", "LastName"] == ["Age", "AgeGroup", "VIP", "LastName"];
    assert "Age" !in ["AgeGroup", "VIP", "LastName"];
    assert "AgeGroup" !in ["VIP"] && "AgeGroup" !in ["LastName"] && "VIP" !in ["LastName"];
  }

  const DeckColumns: seq<string> := ["Deck", "GroupId", "CabinNumber"]

  const AgeColumns: seq<string> := ["Age", "AgeGroup", "VIP", "LastName"]

  /** pandas' `KeyError` for a column the table lacks. */
  function MissingColumnError(c: string): string
  {
    "'" + c + "'"
  }

  /** A failed cabin number cast is not a `KeyError`: when both problems occur, `FlagStage`
      reports the cast, as the script does at line 46 before its first read of Age at line 47. */
  lemma CastErrorNotMissing(c: Cell, name: string)
    requires Cabins.AsFloat(c).Err?
    ensures Cabins.AsFloat(c).error != MissingColumnError(name)
  {
    assert Cabins.AsFloat(c).error[0] == 'c';
  }

  /** The whole script from the loaded table to the rows it turns into records, with the
      spending cap, the per-side deck means and the cabin regression given. */
  method Preprocess(t: Frame, cap: real, sMeans: Decks.MeanTable, pMeans: Decks.MeanTable, predict: (string, Cell) -> int)
    returns (r: Result<Frame>)
    ensures "PassengerId" !in t.columns ==> r.Err?
    ensures r.Ok? ==> |r.value.rows| == |t.rows|
    ensures r.Ok? ==> forall i :: 0 <= i < |t.rows| ==> Ends(t.rows[i], r.value.rows[i], cap)
    ensures r.Ok? ==> "AgeGroup" in r.value.columns && "VIP" !in r.value.columns && "LastName" !in r.value.columns
  {
    var t1 :- SplitStage(t);
    var t2 :- FlagStage(t1);
    var absent := Imputer.FirstAbsent(Spending.SpendColumns, t2.columns);
    if absent.Some? {
      return Err(MissingColumnError(absent.value));
    }
    var t3 :- SpendStage(t2, cap);
    var t4 :- CryoStage(t3);
    var t5 :- HomePlanetStage(t4);
    var t6 :- DestinationStage(t5);
    // every column the Side fills read was checked by the HomePlanet and Destination fills
    var s7 := SideStage(t6);
    assert s7.Ok?;
    var t7 := s7.value;
    var t8 :- DeckStage(t7, sMeans, pMeans, predict);
    var t9 :- AgeStage(t8);
    PreprocessRows(t.rows, t1.rows, t2.rows, t3.rows, t4.rows, t5.rows, t6.rows, t7.rows, t8.rows, t9.rows, cap);
    r := Ok(t9);
  }

  /** What the script promises about one passenger: `r` is what becomes of input row `t`. The
      group id and group size are the two halves of the PassengerId, the group id as an
      integer; the passenger travels alone exactly when the size half is "01"; the total
      spending is the raw total, capped; a CryoSleep given as "True" or "False" ends as 1 or 0;
      a known home planet or destination is kept; the age group is the bin of the final age;
      and the split sources and FirstName are gone. */
  ghost predicate Ends(t: Row, r: Row, cap: real)
  {
    var id := Get(t, "PassengerId");
    && Get(r, "GroupSize") == Splitter.Part(id, '_', 1)
    && Cabins.AsInt(Splitter.Part(id, '_', 0)) == Ok(Get(r, "GroupId"))
    && (Get(r, "TravelingAlone") == Some(Int(1)) <==> Splitter.Part(id, '_', 1) == Some(Str("01")))
    && Get(r, "TotalSpending") == Some(Real(Capped(Spending.TotalOf(t), cap)))
    && (Get(t, "CryoSleep") == Some(Str("True")) ==> Get(r, "CryoSleep") == Some(Int(1)))
    && (Get(t, "CryoSleep") == Some(Str("False")) ==> Get(r, "CryoSleep") == Some(Int(0)))
    && (Get(t, "HomePlanet").Some? ==> Get(r, "HomePlanet") == Get(t, "HomePlanet"))
    && (Get(t, "Destination").Some? ==> Get(r, "Destination") == Get(t, "Destination"))
    && Get(r, "AgeGroup") == Ages.AgeBin(Get(r, "Age"))
    && (forall c :: c in Dropped ==> Get(r, c).None?)
  }

  /** The columns stage `n` of `Preprocess` may change. */
  function StageColumns(n: nat): seq<string>
  {
    if n == 0 then SplitColumns
    else if n == 1 then FlagColumns
    else if n == 2 then SpendStageColumns
    else if n == 3 then ["CryoSleep"]
    else if n == 4 then ["HomePlanet"]
    else if n == 5 then ["Destination"]
    else if n == 6 then ["Side"]
    else if n == 7 then DeckColumns
    else AgeColumns
  }

  /** The stages of `Preprocess`, each changing only the columns it names. */
  ghost predicate Steps(a: seq<seq<Row>>)
  {
    && |a| == 10
    && |a[1]| == |a[0]| && |a[2]| == |a[0]| && |a[3]| == |a[0]| && |a[4]| == |a[0]| && |a[5]| == |a[0]|
    && |a[6]| == |a[0]| && |a[7]| == |a[0]| && |a[8]| == |a[0]| && |a[9]| == |a[0]|
    && (forall n :: 0 <= n < 9 ==> OnlyChanges(a[n], a[n + 1], StageColumns(n)))
    && KeepsPresent(a[3], a[4], "CryoSleep")
    && KeepsPresent(a[4], a[5], "HomePlanet")
    && KeepsPresent(a[5], a[6], "Destination")
  }

  /** A column no stage from `k` to `m` names holds the same cells before and after them. */
  lemma {:induction false} KeepRange(a: seq<seq<Row>>, k: nat, m: nat, c: string)
    requires Steps(a) && k <= m <= 9
    requires forall n :: k <= n < m ==> c !in StageColumns(n)
    ensures Same(a[k], a[m], c)
    decreases m
  {
    if k < m {
      KeepRange(a, k, m - 1, c);
      assert OnlyChanges(a[m - 1], a[m], StageColumns(m - 1));
    }
  }

  /** The stage results of `Preprocess`, as their postconditions leave them, end as `Ends` says. */
  lemma PreprocessRows(t0: seq<Row>, t1: seq<Row>, t2: seq<Row>, t3: seq<Row>, t4: seq<Row>, t5: seq<Row>, t6: seq<Row>,
                       t7: seq<Row>, t8: seq<Row>, t9: seq<Row>, cap: real)
    requires OnlyChanges(t0, t1, SplitColumns)
    requires PartOf(t0, t1, "GroupId", "PassengerId", '_', 0) && PartOf(t0, t1, "GroupSize", "PassengerId", '_', 1)
    requires forall i, c :: 0 <= i < |t0| && c in Dropped ==> Get(t1[i], c).None?
    requires OnlyChanges(t1, t2, FlagColumns)
    requires forall i :: 0 <= i < |t1| ==> Get(t2[i], "CryoSleep") == Rules.MapFlag(Get(t1[i], "CryoSleep"))
    requires OnlyChanges(t2, t3, SpendStageColumns)
    requires forall i :: 0 <= i < |t2| ==>
      && Get(t3[i], "TotalSpending") == Some(Real(Capped(Spending.TotalOf(t2[i]), cap)))
    requires forall i :: 0 <= i < |t2| ==>
      (Get(t3[i], "TravelingAlone") == Some(Int(1)) <==> Get(t2[i], "GroupSize") == Some(Str("01"))) &&
      (Get(t3[i], "TravelingAlone") == Some(Int(1)) || Get(t3[i], "TravelingAlone") == Some(Int(0)))
    requires OnlyChanges(t3, t4, ["CryoSleep"]) && KeepsPresent(t3, t4, "CryoSleep")
    requires FillStep(t4, t5, "HomePlanet") && FillStep(t5, t6, "Destination") && FillStep(t6, t7, "Side")
    requires OnlyChanges(t7, t8, DeckColumns) && GroupIdsCast(Frame([], t7))
    requires forall i :: 0 <= i < |t7| ==> Get(t8[i], "GroupId") == Cabins.AsInt(Get(t7[i], "GroupId")).value
    requires OnlyChanges(t8, t9, AgeColumns)
    requires forall i :: 0 <= i < |t8| ==> Get(t9[i], "AgeGroup") == Ages.AgeBin(Get(t9[i], "Age"))
    ensures |t9| == |t0|
    ensures forall i :: 0 <= i < |t0| ==> Ends(t0[i], t9[i], cap)
  {
    var a := [t0, t1, t2, t3, t4, t5, t6, t7, t8, t9];
    forall n | 0 <= n < 9 ensures OnlyChanges(a[n], a[n + 1], StageColumns(n)) {
      if n == 0 {} else if n == 1 {} else if n == 2 {} else if n == 3 {} else if n == 4 {}
      else if n == 5 {} else if n == 6 {} else if n == 7 {} else {}
    }
    assert Steps(a);
    IdsEnd(a);
    SpendEnd(a, cap);
    CryoEnd(a);
    PlacesEnd(a);
    DroppedEnd(a);
  }

  /** The GroupSize, GroupId and TravelingAlone the splits and the spending stage set. */
  lemma IdsEnd(a: seq<seq<Row>>)
    requires Steps(a)
    requires PartOf(a[0], a[1], "GroupId", "PassengerId", '_', 0) && PartOf(a[0], a[1], "GroupSize", "PassengerId", '_', 1)
    requires forall i :: 0 <= i < |a[2]| ==>
      (Get(a[3][i], "TravelingAlone") == Some(Int(1)) <==> Get(a[2][i], "GroupSize") == Some(Str("01")))
    requires GroupIdsCast(Frame([], a[7]))
    requires forall i :: 0 <= i < |a[7]| ==> Get(a[8][i], "GroupId") == Cabins.AsInt(Get(a[7][i], "GroupId")).value
    ensures forall i :: 0 <= i < |a[0]| ==>
      var id := Get(a[0][i], "PassengerId");
      && Get(a[9][i], "GroupSize") == Splitter.Part(id, '_', 1)
      && Cabins.AsInt(Splitter.Part(id, '_', 0)) == Ok(Get(a[9][i], "GroupId"))
      && (Get(a[9][i], "TravelingAlone") == Some(Int(1)) <==> Splitter.Part(id, '_', 1) == Some(Str("01")))
  {
    KeepRange(a, 1, 9, "GroupSize");
    KeepRange(a, 1, 2, "GroupSize");
    KeepRange(a, 1, 7, "GroupId");
    KeepRange(a, 8, 9, "GroupId");
    KeepRange(a, 3, 9, "TravelingAlone");
  }

  lemma SpendEnd(a: seq<seq<Row>>, cap: real)
    requires Steps(a)
    requires forall i :: 0 <= i < |a[2]| ==> Get(a[3][i], "TotalSpending") == Some(Real(Capped(Spending.TotalOf(a[2][i]), cap)))
    ensures forall i :: 0 <= i < |a[0]| ==> Get(a[9][i], "TotalSpending") == Some(Real(Capped(Spending.TotalOf(a[0][i]), cap)))
  {
    KeepRange(a, 3, 9, "TotalSpending");
    SpendingKept(a);
    forall i | 0 <= i < |a[0]| ensures Spending.TotalOf(a[2][i]) == Spending.TotalOf(a[0][i]) {
      assert Spending.Cells(a[2][i], Spending.SpendColumns) == Spending.Cells(a[0][i], Spending.SpendColumns);
    }
  }

  /** The spending amounts are untouched by the splits and the flag steps. */
  lemma SpendingKept(a: seq<seq<Row>>)
    requires Steps(a)
    ensures forall j :: 0 <= j < |Spending.SpendColumns| ==> Same(a[0], a[2], Spending.SpendColumns[j])
  {
    forall j | 0 <= j < |Spending.SpendColumns| ensures Same(a[0], a[2], Spending.SpendColumns[j]) {
      KeepRange(a, 0, 2, Spending.SpendColumns[j]);
    }
  }

  lemma CryoEnd(a: seq<seq<Row>>)
    requires Steps(a)
    requires forall i :: 0 <= i < |a[1]| ==> Get(a[2][i], "CryoSleep") == Rules.MapFlag(Get(a[1][i], "CryoSleep"))
    ensures forall i :: 0 <= i < |a[0]| ==>
      && (Get(a[0][i], "CryoSleep") == Some(Str("True")) ==> Get(a[9][i], "CryoSleep") == Some(Int(1)))
      && (Get(a[0][i], "CryoSleep") == Some(Str("False")) ==> Get(a[9][i], "CryoSleep") == Some(Int(0)))
  {
    KeepRange(a, 0, 1, "CryoSleep");
    KeepRange(a, 2, 3, "CryoSleep");
    KeepRange(a, 4, 9, "CryoSleep");
  }

  lemma PlacesEnd(a: seq<seq<Row>>)
    requires Steps(a)
    ensures forall i :: 0 <= i < |a[0]| ==>
      && (Get(a[0][i], "HomePlanet").Some? ==> Get(a[9][i], "HomePlanet") == Get(a[0][i], "HomePlanet"))
      && (Get(a[0][i], "Destination").Some? ==> Get(a[9][i], "Destination") == Get(a[0][i], "Destination"))
  {
    KeepRange(a, 0, 4, "HomePlanet");
    KeepRange(a, 5, 9, "HomePlanet");
    KeepRange(a, 0, 5, "Destination");
    KeepRange(a, 6, 9, "Destination");
  }

  lemma DroppedEnd(a: seq<seq<Row>>)
    requires Steps(a)
    requires forall i, c :: 0 <= i < |a[0]| && c in Dropped ==> Get(a[1][i], c).None?
    ensures forall i, c :: 0 <= i < |a[0]| && c in Dropped ==> Get(a[9][i], c).None?
  {
    forall c | c in Dropped ensures Same(a[1], a[9], c) {
      KeepRange(a, 1, 9, c);
    }
  }
}
