/** The prediction handler of the web service (app.py lines 21-64): it checks the preprocessed
    records for missing values and for the columns the classifier needs, pads GroupId and
    GroupSize back into a PassengerId, and pairs each one with the thresholded score. Any
    exception becomes an error payload. */
module Service {
  import opened Wrappers
  import opened Frames
  import Text
  import Splitter
  import Cabins
  import Pipeline

  /** The columns the classifier reads (app.py lines 33-37), in the order the message lists them. */
  const RequiredColumns: seq<string> := [
    "GroupSize", "Age", "RoomService", "FoodCourt", "ShoppingMall", "Spa", "VRDeck",
    "TotalSpending", "HomePlanet", "CryoSleep", "CabinNumber", "Side", "Destination",
    "TravelingAlone", "SpentMoney", "GroupSpentMoney", "Deck", "AgeGroup"]

  /** One output record. */
  datatype Submission = Submission(passengerId: string, transported: bool)

  /** The JSON body of the reply: the records, or `{"error": message}`. */
  datatype Response = Records(records: seq<Submission>) | Error(message: string)

  /** `data_test.isnull().values.any()`: some cell of some column is missing. */
  predicate HasNull(t: Frame)
  {
    exists i, j :: 0 <= i < |t.rows| && 0 <= j < |t.columns| && Get(t.rows[i], t.columns[j]).None?
  }

  /** `data_test.isnull().sum()`: the number of missing cells of each column. */
  function NullCount(rows: seq<Row>, c: string): (n: nat)
    ensures n <= |rows|
    ensures n == 0 <==> forall i :: 0 <= i < |rows| ==> Get(rows[i], c).Some?
  {
    if |rows| == 0 then 0
    else
      var rest := NullCount(rows[1..], c);
      assert forall i :: 1 <= i < |rows| ==> rows[i] == rows[1..][i - 1];
      (if Get(rows[0], c).None? then 1 else 0) + rest
  }

  /** The printed null counts, one "column count" line per column. */
  function NullSummary(t: Frame, k: nat): string
    requires k <= |t.columns|
    decreases |t.columns| - k
  {
    if k == |t.columns| then "dtype: int64"
    else t.columns[k] + " " + Text.NatText(NullCount(t.rows, t.columns[k])) + "\n" + NullSummary(t, k + 1)
  }

  function NullMessage(t: Frame): string
  {
    "Null values: " + NullSummary(t, 0)
  }

  /** `[col for col in names if col not in columns]`: the absent names. */
  function Missing(names: seq<string>, columns: seq<string>): (m: seq<string>)
    ensures |m| <= |names|
    ensures forall c :: c in m <==> c in names && c !in columns
  {
    if |names| == 0 then []
    else
      var rest := Missing(names[1..], columns);
      assert forall c :: c in names <==> c == names[0] || c in names[1..];
      if names[0] in columns then rest else [names[0]] + rest
  }

  /** `x` occurs in `names` before some occurrence of `y`. */
  ghost predicate Precedes(names: seq<string>, x: string, y: string)
  {
    exists p, q :: 0 <= p < q < |names| && names[p] == x && names[q] == y
  }

  /** Every two entries of `m` occur in `names` in the same order. */
  ghost predicate InOrder(m: seq<string>, names: seq<string>)
  {
    forall i, j :: 0 <= i < j < |m| ==> Precedes(names, m[i], m[j])
  }

  /** The absent names are listed in the order of the required list. */
  lemma {:induction false} MissingInOrder(names: seq<string>, columns: seq<string>)
    ensures InOrder(Missing(names, columns), names)
  {
    if |names| > 0 {
      var tail := names[1..];
      var rest := Missing(tail, columns);
      MissingInOrder(tail, columns);
      var m := Missing(names, columns);
      assert m == if names[0] in columns then rest else [names[0]] + rest;
      forall i, j | 0 <= i < j < |m|
        ensures Precedes(names, m[i], m[j])
      {
        if names[0] in columns {
          PrecedesTail(names, m[i], m[j]);
        } else if i == 0 {
          assert m[j] == rest[j - 1] && rest[j - 1] in tail;
          PrecedesHead(names, m[j]);
        } else {
          assert m[i] == rest[i - 1] && m[j] == rest[j - 1];
          PrecedesTail(names, m[i], m[j]);
        }
      }
    }
  }

  lemma PrecedesTail(names: seq<string>, x: string, y: string)
    requires |names| > 0 && Precedes(names[1..], x, y)
    ensures Precedes(names, x, y)
  {
    var p, q :| 0 <= p < q < |names[1..]| && names[1..][p] == x && names[1..][q] == y;
    assert names[p + 1] == x && names[q + 1] == y;
  }

  lemma PrecedesHead(names: seq<string>, y: string)
    requires |names| > 0 && y in names[1..]
    ensures Precedes(names, names[0], y)
  {
    var q :| 0 <= q < |names[1..]| && names[1..][q] == y;
    assert names[q + 1] == y;
  }

  function MissingMessage(m: seq<string>): string
    requires |m| >= 1
  {
    "Missing columns: " + Text.Join(m, ", ")
  }

  /** `astype(str)` of a cell: a string is itself, an integer its decimal digits, a float its
      repr (given), a missing value "nan". */
  function CellText(c: Cell, floatText: real -> string): string
  {
    match c
    case None => "nan"
    case Some(Str(s)) => s
    case Some(Int(i)) => Text.IntText(i)
    case Some(Real(x)) => floatText(x)
  }

  /** Lines 48-52: the PassengerId rebuilt from a GroupId and a GroupSize cell. */
  function IdText(groupId: Cell, groupSize: Cell, floatText: real -> string): (id: string)
    ensures |id| >= 4 + 1 + 2
  {
    Text.ZFill(CellText(groupId, floatText), 4) + "_" + Text.ZFill(CellText(groupSize, floatText), 2)
  }

  /** The pandas error for a score array whose length is not the number of rows. */
  const LengthError: string := "array length does not match index length"

  /** `predict()` with `model.predict(data_test)` given as `scores` (an error when the model
      raises) and Python's float repr as `floatText`. The failures come in the order the handler
      meets them: missing values, missing columns, the model, the GroupId lookup, the length of
      the scores. */
  method Predict(t: Frame, scores: Result<seq<real>>, floatText: real -> string) returns (resp: Response)
    ensures HasNull(t) ==> resp == Error(NullMessage(t))
    ensures !HasNull(t) && Missing(RequiredColumns, t.columns) != [] ==>
      resp == Error(MissingMessage(Missing(RequiredColumns, t.columns)))
    ensures !HasNull(t) && Missing(RequiredColumns, t.columns) == [] && scores.Err? ==> resp == Error(scores.error)
    ensures !HasNull(t) && Missing(RequiredColumns, t.columns) == [] && scores.Ok? && "GroupId" !in t.columns ==>
      resp == Error(Pipeline.MissingColumnError("GroupId"))
    ensures resp.Records? <==>
      !HasNull(t) && Missing(RequiredColumns, t.columns) == [] && scores.Ok? && "GroupId" in t.columns && |scores.value| == |t.rows|
    ensures resp.Records? ==> |resp.records| == |t.rows| && forall i :: 0 <= i < |t.rows| ==>
      resp.records[i] == Submission(IdText(Get(t.rows[i], "GroupId"), Get(t.rows[i], "GroupSize"), floatText), scores.value[i] > 0.5)
  {
    if HasNull(t) {
      return Error(NullMessage(t));
    }
    var missing := Missing(RequiredColumns, t.columns);
    if missing != [] {
      return Error(MissingMessage(missing));
    }
    if scores.Err? {
      return Error(scores.error);
    }
    var predictions := scores.value;
    if "GroupId" !in t.columns {
      return Error(Pipeline.MissingColumnError("GroupId"));
    }
    var n := |t.rows|;
    var t1 := WithColumn(t, "GroupId", seq(n, i requires 0 <= i < n => Some(Str(Text.ZFill(CellText(Get(t.rows[i], "GroupId"), floatText), 4)))));
    var t2 := WithColumn(t1, "GroupSize", seq(n, i requires 0 <= i < n => Some(Str(Text.ZFill(CellText(Get(t1.rows[i], "GroupSize"), floatText), 2)))));
    var ids := seq(n, i requires 0 <= i < n => Get(t2.rows[i], "GroupId").value.s + "_" + Get(t2.rows[i], "GroupSize").value.s);
    if |predictions| != n {
      return Error(LengthError);
    }
    OnlyChangesTrans(t.rows, t1.rows, t2.rows, ["GroupId"], ["GroupSize"]);
    resp := Records(seq(n, i requires 0 <= i < n => Submission(ids[i], predictions[i] > 0.5)));
  }

  /** A PassengerId as the input file writes it: four digits, '_', two digits. */
  predicate WellFormedId(id: string)
  {
    |id| == 7 && id[4] == '_' && Text.IsDigits(id[..4]) && Text.IsDigits(id[5..])
  }

  /** The id round trip: splitting a well-formed PassengerId at '_' (predict.py lines 19-23),
      casting the group half to an integer (line 183) and padding both halves back (app.py
      lines 48-52) gives the id back. */
  lemma IdRoundTrip(id: string, floatText: real -> string)
    requires WellFormedId(id)
    ensures Cabins.AsInt(Splitter.Part(Some(Str(id)), '_', 0)).Ok?
    ensures IdText(Cabins.AsInt(Splitter.Part(Some(Str(id)), '_', 0)).value, Splitter.Part(Some(Str(id)), '_', 1), floatText) == id
  {
    var g, s := id[..4], id[5..];
    assert id == g + "_" + s;
    assert '_' !in g && '_' !in s by {
      assert forall k :: 0 <= k < |g| ==> Text.IsDigit(g[k]);
      assert forall k :: 0 <= k < |s| ==> Text.IsDigit(s[k]);
    }
    Text.SplitJoin([g, s], '_');
    assert Text.Join([g, s], ['_']) == id;
    assert Splitter.Parts(Some(Str(id)), '_') == [Some(Str(g)), Some(Str(s))];
    Text.ZFillParse(g);
  }

  /** End to end: the record the service writes for a preprocessed passenger carries the
      passenger's own well-formed PassengerId. */
  lemma ServiceRestoresId(t: Row, r: Row, cap: real, floatText: real -> string)
    requires Pipeline.Ends(t, r, cap)
    requires Get(t, "PassengerId").Some? && Get(t, "PassengerId").value.Str? && WellFormedId(Get(t, "PassengerId").value.s)
    ensures IdText(Get(r, "GroupId"), Get(r, "GroupSize"), floatText) == Get(t, "PassengerId").value.s
  {
    IdRoundTrip(Get(t, "PassengerId").value.s, floatText);
  }
}
