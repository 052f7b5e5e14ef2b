/** The numeric columns of the cabin: the cast of the cabin number to float (predict.py line 46),
    the cast of the group id to int (line 183) and the write-back of predicted cabin numbers for
    every deck (lines 186-209). */
module Cabins {
  import opened Wrappers
  import opened Frames
  import opened Text
  import Decks

  /** Python's `float(s)` on a cell, for unsigned decimal digit strings only: digits give their
      number, a missing cell stays missing, and any other text raises (including the signed,
      fractional and exponent forms that Python itself would accept). */
  function AsFloat(c: Cell): (r: Result<Cell>)
    ensures r.Err? <==> c.Some? && c.value.Str? && !IsDigits(c.value.s)
    ensures r.Ok? ==> (r.value.None? <==> c.None?)
    ensures r.Ok? && c.Some? ==> r.value.value.Real? && NumOf(r.value) == if c.value.Str? then Some(ParseDigits(c.value.s) as real) else NumOf(c)
  {
    match c
    case None => Ok(None)
    case Some(Str(s)) => if IsDigits(s) then Ok(Some(Real(ParseDigits(s) as real))) else Err("could not convert string to float: '" + s + "'")
    case Some(Int(n)) => Ok(Some(Real(n as real)))
    case Some(Real(x)) => Ok(Some(Real(x)))
  }

  /** Truncation toward zero, as `int(x)` and `astype(int)` do on a float. */
  function Trunc(x: real): (n: int)
    ensures (n as real) <= x < (n as real) + 1.0 || (x < 0.0 && (n as real) - 1.0 < x <= n as real)
  {
    if x >= 0.0 then x.Floor else -((-x).Floor)
  }

  /** `int(...)` of a cell as `astype(int)` applies it, for unsigned decimal digit strings
      only: a digit string gives its number, an integer stays, a float is truncated; a missing
      cell or any other text raises (including the signed forms that Python would accept). */
  function AsInt(c: Cell): (r: Result<Cell>)
    ensures r.Err? <==> c.None? || (c.value.Str? && !IsDigits(c.value.s))
    ensures r.Ok? ==> r.value.Some? && r.value.value.Int?
    ensures r.Ok? && c.value.Str? ==> r.value == Some(Int(ParseDigits(c.value.s)))
    ensures r.Ok? && c.value.Int? ==> r.value == c
  {
    match c
    case None => Err("cannot convert NA to integer")
    case Some(Str(s)) => if IsDigits(s) then Ok(Some(Int(ParseDigits(s)))) else Err("invalid literal for int() with base 10: '" + s + "'")
    case Some(Int(n)) => Ok(c)
    case Some(Real(x)) => Ok(Some(Int(Trunc(x))))
  }

  /** `df[c] = df[c].astype(...)` with the cell conversion `conv`: the first failing cell raises. */
  function CastColumn(t: Frame, c: string, conv: Cell -> Result<Cell>): (r: Result<Frame>)
    ensures r.Err? <==> exists i :: 0 <= i < |t.rows| && conv(Get(t.rows[i], c)).Err?
    ensures r.Err? ==> exists i :: 0 <= i < |t.rows| && conv(Get(t.rows[i], c)) == Err(r.error)
    ensures r.Ok? ==> forall x :: x in r.value.columns <==> x in t.columns || x == c
    ensures r.Ok? ==> OnlyChanges(t.rows, r.value.rows, [c])
    ensures r.Ok? ==> forall i :: 0 <= i < |t.rows| ==> Get(r.value.rows[i], c) == conv(Get(t.rows[i], c)).value
  {
    var cs := seq(|t.rows|, i requires 0 <= i < |t.rows| => Get(t.rows[i], c));
    assert forall i :: 0 <= i < |t.rows| ==> cs[i] == Get(t.rows[i], c);
    var vals :- Converted(cs, conv);
    Ok(WithColumn(t, c, vals))
  }

  /** The converted cells, or the error of the first cell that fails. */
  function Converted(cs: seq<Cell>, conv: Cell -> Result<Cell>): (r: Result<seq<Cell>>)
    ensures r.Err? <==> exists i :: 0 <= i < |cs| && conv(cs[i]).Err?
    ensures r.Err? ==> exists i :: 0 <= i < |cs| && conv(cs[i]) == Err(r.error)
    ensures r.Ok? ==> |r.value| == |cs| && forall i :: 0 <= i < |cs| ==> r.value[i] == conv(cs[i]).value
  {
    if |cs| == 0 then Ok([])
    else
      var rest := Converted(cs[1..], conv);
      assert forall i :: 1 <= i < |cs| ==> cs[i] == cs[1..][i - 1];
      assert rest.Err? ==> exists i :: 1 <= i < |cs| && conv(cs[i]) == Err(rest.error);
      if conv(cs[0]).Err? then Err(conv(cs[0]).error)
      else if rest.Err? then Err(rest.error)
      else Ok([conv(cs[0]).value] + rest.value)
  }

  /** The deck of a row, when it is one of the decks the cabin loop visits. */
  function DeckOf(r: Row): (d: Option<string>)
    ensures d.Some? <==> exists k :: 0 <= k < |Decks.AllDecks| && Get(r, "Deck") == Some(Str(Decks.AllDecks[k]))
    ensures d.Some? ==> Get(r, "Deck") == Some(Str(d.value))
  {
    if Get(r, "Deck").Some? && Get(r, "Deck").value.Str? && Get(r, "Deck").value.s in Decks.AllDecks then Some(Get(r, "Deck").value.s)
    else None
  }

  /** Some passenger of deck `deck` has a known cabin number: the regression of that deck has
      data to fit. */
  predicate HasKnownCabin(rows: seq<Row>, deck: string)
  {
    exists i :: 0 <= i < |rows| && Get(rows[i], "Deck") == Some(Str(deck)) && Get(rows[i], "CabinNumber").Some?
  }

  const FitError: string := "Found array with 0 sample(s) (shape=(0, 1)) while a minimum of 1 is required by LinearRegression."

  /** Every one of the first `k` decks of the loop has a known cabin number. */
  ghost predicate FittableUpTo(rows: seq<Row>, k: nat)
    requires k <= |Decks.AllDecks|
  {
    forall j :: 0 <= j < k ==> HasKnownCabin(rows, Decks.AllDecks[j])
  }

  /** `np.maximum(p, 1)`. */
  function AtLeastOne(p: int): (n: int)
    ensures n >= 1 && (p >= 1 ==> n == p)
  {
    if p < 1 then 1 else p
  }

  /** The cabin number of a row once the decks `done` have been visited: a missing number on a
      visited deck holds the deck's prediction for the row's GroupId, floored at 1. */
  function CabinAfter(r: Row, predict: (string, Cell) -> int, done: seq<string>): Cell
  {
    if Get(r, "CabinNumber").None? && DeckOf(r).Some? && DeckOf(r).value in done then
      Some(Real(AtLeastOne(predict(DeckOf(r).value, Get(r, "GroupId"))) as real))
    else Get(r, "CabinNumber")
  }

  /** Lines 186-209, with `predict(deck, groupId)` the rounded prediction of the regression fitted
      on the deck's known cabin numbers. The fit of a deck without any known cabin number raises,
      whether or not the deck has missing ones. A missing number on a visited deck gets the
      deck's prediction, floored at 1; nothing else changes. */
  method WriteBackCabins(t: Frame, predict: (string, Cell) -> int) returns (r: Result<Frame>)
    ensures r.Err? <==> !FittableUpTo(t.rows, |Decks.AllDecks|)
    ensures r.Ok? ==> OnlyChanges(t.rows, r.value.rows, ["CabinNumber"])
    ensures r.Ok? ==> forall i :: 0 <= i < |t.rows| ==>
      Get(r.value.rows[i], "CabinNumber") == CabinAfter(t.rows[i], predict, Decks.AllDecks)
  {
    var decks := Decks.AllDecks;
    var n := |t.rows|;
    var cur := t;
    for k := 0 to |decks|
      invariant OnlyChanges(t.rows, cur.rows, ["CabinNumber"])
      invariant FittableUpTo(t.rows, k)
      invariant forall i :: 0 <= i < n ==> Get(cur.rows[i], "CabinNumber") == CabinAfter(t.rows[i], predict, decks[..k])
    {
      var deck := decks[k];
      KnownCabinsKept(t, cur, predict, decks, k);
      if !HasKnownCabin(cur.rows, deck) {
        assert !HasKnownCabin(t.rows, decks[k]);
        assert !FittableUpTo(t.rows, |decks|);
        return Err(FitError);
      }
      var prev := cur;
      cur := VisitDeck(prev, deck, predict);
      VisitKeeps(t, prev, cur, predict, k);
    }
    assert decks[..|decks|] == decks;
    r := Ok(cur);
  }

  /** One turn of the cabin loop: the rows of deck `deck` with a missing cabin number, taken
      before the assignment, receive the deck's predictions floored at 1; with no such row
      nothing is assigned. */
  function VisitDeck(t: Frame, deck: string, predict: (string, Cell) -> int): (r: Frame)
    ensures OnlyChanges(t.rows, r.rows, ["CabinNumber"])
    ensures forall i :: 0 <= i < |t.rows| ==>
      Get(r.rows[i], "CabinNumber") ==
        if Get(t.rows[i], "Deck") == Some(Str(deck)) && Get(t.rows[i], "CabinNumber").None? then
          Some(Real(AtLeastOne(predict(deck, Get(t.rows[i], "GroupId"))) as real))
        else Get(t.rows[i], "CabinNumber")
  {
    var n := |t.rows|;
    var withNan := And(StrMask(t, "Deck", deck), MissingMask(t, "CabinNumber"));
    if exists i :: 0 <= i < n && withNan[i] then
      WithColumn(t, "CabinNumber", seq(n, i requires 0 <= i < n =>
        if withNan[i] then Some(Real(AtLeastOne(predict(deck, Get(t.rows[i], "GroupId"))) as real))
        else Get(t.rows[i], "CabinNumber")))
    else t
  }

  /** A row once every deck has been visited: a known cabin number is kept, a missing one on a
      deck of the loop is assigned a number of at least 1, and any other stays missing. */
  lemma AllVisited(r: Row, predict: (string, Cell) -> int)
    ensures Get(r, "CabinNumber").Some? ==> CabinAfter(r, predict, Decks.AllDecks) == Get(r, "CabinNumber")
    ensures Get(r, "CabinNumber").None? && DeckOf(r).None? ==> CabinAfter(r, predict, Decks.AllDecks).None?
    ensures Get(r, "CabinNumber").None? && DeckOf(r).Some? ==>
      var n := AtLeastOne(predict(DeckOf(r).value, Get(r, "GroupId")));
      CabinAfter(r, predict, Decks.AllDecks) == Some(Real(n as real)) && n >= 1
  {
  }

  /** Before deck `k` is visited, its passengers' cabin numbers are those of the input: an
      earlier visit only wrote rows of earlier, different decks. */
  lemma KnownCabinsKept(t: Frame, cur: Frame, predict: (string, Cell) -> int, decks: seq<string>, k: nat)
    requires decks == Decks.AllDecks && k < |decks|
    requires OnlyChanges(t.rows, cur.rows, ["CabinNumber"])
    requires forall i :: 0 <= i < |t.rows| ==> Get(cur.rows[i], "CabinNumber") == CabinAfter(t.rows[i], predict, decks[..k])
    ensures HasKnownCabin(cur.rows, decks[k]) <==> HasKnownCabin(t.rows, decks[k])
  {
    var deck := decks[k];
    Decks.AllDecksDistinct();
    assert "Deck" !in ["CabinNumber"];
    forall i | 0 <= i < |t.rows| && Get(t.rows[i], "Deck") == Some(Str(deck))
      ensures Get(cur.rows[i], "CabinNumber") == Get(t.rows[i], "CabinNumber")
    {
      assert DeckOf(t.rows[i]) == Some(deck);
      assert deck !in decks[..k];
    }
    if HasKnownCabin(cur.rows, deck) {
      var i :| 0 <= i < |cur.rows| && Get(cur.rows[i], "Deck") == Some(Str(deck)) && Get(cur.rows[i], "CabinNumber").Some?;
      assert Get(t.rows[i], "Deck") == Some(Str(deck));
    }
    if HasKnownCabin(t.rows, deck) {
      var i :| 0 <= i < |t.rows| && Get(t.rows[i], "Deck") == Some(Str(deck)) && Get(t.rows[i], "CabinNumber").Some?;
      assert Get(cur.rows[i], "Deck") == Some(Str(deck));
    }
  }

  lemma OtherCellsKept(rows: seq<Row>, rows': seq<Row>, i: nat)
    requires OnlyChanges(rows, rows', ["CabinNumber"]) && i < |rows|
    ensures Get(rows'[i], "Deck") == Get(rows[i], "Deck") && Get(rows'[i], "GroupId") == Get(rows[i], "GroupId")
  {
    assert "Deck" !in ["CabinNumber"] && "GroupId" !in ["CabinNumber"];
  }

  /** The loop invariant is kept by the visit of deck `k`. */
  lemma VisitKeeps(t: Frame, prev: Frame, cur: Frame, predict: (string, Cell) -> int, k: nat)
    requires k < |Decks.AllDecks|
    requires OnlyChanges(t.rows, prev.rows, ["CabinNumber"])
    requires forall i :: 0 <= i < |t.rows| ==> Get(prev.rows[i], "CabinNumber") == CabinAfter(t.rows[i], predict, Decks.AllDecks[..k])
    requires cur == VisitDeck(prev, Decks.AllDecks[k], predict)
    ensures OnlyChanges(t.rows, cur.rows, ["CabinNumber"])
    ensures forall i :: 0 <= i < |t.rows| ==> Get(cur.rows[i], "CabinNumber") == CabinAfter(t.rows[i], predict, Decks.AllDecks[..k + 1])
  {
    var decks := Decks.AllDecks;
    OnlyChangesTrans(t.rows, prev.rows, cur.rows, ["CabinNumber"], ["CabinNumber"]);
    forall i | 0 <= i < |t.rows| ensures Get(cur.rows[i], "CabinNumber") == CabinAfter(t.rows[i], predict, decks[..k + 1]) {
      OtherCellsKept(t.rows, prev.rows, i);
      VisitRow(t.rows[i], prev.rows[i], cur.rows[i], predict, decks, k);
    }
  }

  /** One row through the visit of deck `k`. */
  lemma VisitRow(r: Row, prev: Row, cur: Row, predict: (string, Cell) -> int, decks: seq<string>, k: nat)
    requires decks == Decks.AllDecks && k < |decks|
    requires Get(prev, "Deck") == Get(r, "Deck") && Get(prev, "GroupId") == Get(r, "GroupId")
    requires Get(prev, "CabinNumber") == CabinAfter(r, predict, decks[..k])
    requires Get(cur, "CabinNumber") ==
      if Get(prev, "Deck") == Some(Str(decks[k])) && Get(prev, "CabinNumber").None? then Some(Real(AtLeastOne(predict(decks[k], Get(prev, "GroupId"))) as real)) else Get(prev, "CabinNumber")
    ensures Get(cur, "CabinNumber") == CabinAfter(r, predict, decks[..k + 1])
  {
    assert decks[..k + 1] == decks[..k] + [decks[k]];
    Decks.AllDecksDistinct();
    if Get(r, "Deck") == Some(Str(decks[k])) {
      assert DeckOf(r) == Some(decks[k]);
      assert decks[k] !in decks[..k];
    }
  }
}
