/** The deck fill of the preprocessing script (predict.py lines 132-180): a passenger with a
    missing deck gets the deck, among those of its home planet, whose mean spending on its side
    of the ship is closest to its own total spending. */
module Decks {
  import opened Wrappers
  import opened Frames

  /** All decks of the ship, in the order the cabin loop visits them (predict.py line 186). */
  const AllDecks: seq<string> := ["A", "B", "C", "D", "E", "F", "G"]

  lemma AllDecksDistinct()
    ensures Distinct(AllDecks)
  {
  }

  /** `decks_by_hp.get(h, [])`: the decks a home planet's passengers live on; none for a planet
      outside the table or a missing one. */
  function DecksByHomePlanet(h: Cell): (ds: seq<string>)
    ensures |ds| == 0 <==> h !in {Some(Str("Earth")), Some(Str("Mars")), Some(Str("Europa"))}
    ensures forall j :: 0 <= j < |ds| ==> ds[j] in AllDecks
  {
    if h == Some(Str("Earth")) then ["E", "F", "G"]
    else if h == Some(Str("Mars")) then ["D", "E", "F"]
    else if h == Some(Str("Europa")) then ["A", "B", "C", "D", "E"]
    else []
  }

  /** A per-deck mean spending table of one side, `spending_per_deck_test.T[side].to_dict()`: a
      deck without any passenger of that side maps to `None` (NaN). */
  type MeanTable = map<string, Option<real>>

  function Abs(x: real): real
  {
    if x < 0.0 then -x else x
  }

  /** The key of `min`: `abs(spend_mean[deck] - total_spending)`, NaN (`None`) when either is NaN. */
  function Distance(means: MeanTable, total: Option<real>, deck: string): (d: Option<real>)
    requires deck in means
    ensures d.Some? <==> means[deck].Some? && total.Some?
    ensures d.Some? ==> d.value >= 0.0 && (d.value == means[deck].value - total.value || d.value == total.value - means[deck].value)
  {
    if means[deck].Some? && total.Some? then Some(Abs(means[deck].value - total.value)) else None
  }

  /** `a < b` on floats: false as soon as one of them is NaN. */
  predicate Below(a: Option<real>, b: Option<real>)
  {
    a.Some? && b.Some? && a.value < b.value
  }

  /** `best` is where CPython's `min` stands after looking at the first `i` keys: it moved only
      to a strictly smaller key, so it holds the least number seen and the first one of that
      size; a NaN first key is never replaced. */
  ghost predicate Least(ks: seq<Option<real>>, i: nat, best: nat)
  {
    && best < i <= |ks|
    && (ks[0].None? ==> best == 0)
    && (ks[0].Some? ==> ks[best].Some?)
    && (ks[best].Some? ==> forall j :: 0 <= j < i && ks[j].Some? ==> ks[best].value <= ks[j].value)
    && (ks[best].Some? ==> forall j :: 0 <= j < best && ks[j].Some? ==> ks[best].value < ks[j].value)
  }

  function MinFrom(ks: seq<Option<real>>, i: nat, best: nat): (k: nat)
    requires Least(ks, i, best)
    ensures Least(ks, |ks|, k)
    decreases |ks| - i
  {
    if i == |ks| then best
    else MinFrom(ks, i + 1, if Below(ks[i], ks[best]) then i else best)
  }

  /** The position CPython's `min(items, key=...)` returns, given the keys of the items. With a
      number first, it is the first position of the least number (NaN keys never win); with a
      NaN first it is the first position. */
  function ArgMin(ks: seq<Option<real>>): (k: nat)
    requires |ks| > 0
    ensures k < |ks|
    ensures ks[0].None? ==> k == 0
    ensures ks[0].Some? ==> ks[k].Some?
    ensures ks[k].Some? ==> forall j :: 0 <= j < |ks| && ks[j].Some? ==> ks[k].value <= ks[j].value
    ensures ks[k].Some? ==> forall j :: 0 <= j < k && ks[j].Some? ==> ks[k].value < ks[j].value
  {
    MinFrom(ks, 1, 0)
  }

  /** The keys `min` evaluates, deck by deck in order: `spend_mean[deck]` raises `KeyError` at the
      first deck the table does not know. */
  function Keys(decks: seq<string>, means: MeanTable, total: Option<real>): (r: Result<seq<Option<real>>>)
    ensures r.Err? <==> exists j :: 0 <= j < |decks| && decks[j] !in means
    ensures r.Ok? ==> |r.value| == |decks| && forall j :: 0 <= j < |decks| ==> r.value[j] == Distance(means, total, decks[j])
  {
    if |decks| == 0 then Ok([])
    else if decks[0] !in means then Err("'" + decks[0] + "'")
    else
      var rest := Keys(decks[1..], means, total);
      assert forall j :: 1 <= j < |decks| ==> decks[j] == decks[1..][j - 1];
      if rest.Err? then rest else Ok([Distance(means, total, decks[0])] + rest.value)
  }

  /** `min(possible_decks, key=lambda deck: abs(spend_mean[deck] - total_spending))`: an empty
      list raises, and so does a deck the table does not know (every key is evaluated). */
  function Closest(decks: seq<string>, means: MeanTable, total: Option<real>): (r: Result<string>)
    ensures r.Err? <==> |decks| == 0 || exists j :: 0 <= j < |decks| && decks[j] !in means
    ensures r.Ok? ==> exists k :: 0 <= k < |decks| && r.value == decks[k] && ClosestAt(decks, means, total, k)
  {
    if |decks| == 0 then Err("min() arg is an empty sequence")
    else
      var ks :- Keys(decks, means, total);
      Ok(decks[ArgMin(ks)])
  }

  /** Deck `k` is the one `min` picks: with a number as the first key, its distance is the least
      and no earlier deck is as close; with NaN as the first key, it is the first deck. */
  ghost predicate ClosestAt(decks: seq<string>, means: MeanTable, total: Option<real>, k: nat)
    requires k < |decks| && forall j :: 0 <= j < |decks| ==> decks[j] in means
  {
    var d := j requires 0 <= j < |decks| => Distance(means, total, decks[j]);
    && (d(0).None? ==> k == 0)
    && (d(0).Some? ==> d(k).Some?)
    && (d(k).Some? ==> forall j :: 0 <= j < |decks| && d(j).Some? ==> d(k).value <= d(j).value)
    && (d(k).Some? ==> forall j :: 0 <= j < k && d(j).Some? ==> d(k).value < d(j).value)
  }

  /** `fill_deck(row)` with the two side tables given. A present Deck is kept; a passenger on
      neither side S nor P gets a missing deck; otherwise the closest deck of its home planet
      on its side. */
  function FillDeck(r: Row, sMeans: MeanTable, pMeans: MeanTable): (d: Result<Cell>)
    ensures Get(r, "Deck").Some? ==> d == Ok(Get(r, "Deck"))
    ensures Get(r, "Deck").None? && Get(r, "Side") != Some(Str("S")) && Get(r, "Side") != Some(Str("P")) ==> d == Ok(None)
    ensures Get(r, "Deck").None? && Get(r, "Side") == Some(Str("S")) ==> d == SomeDeck(Closest(DecksByHomePlanet(Get(r, "HomePlanet")), sMeans, NumOf(Get(r, "TotalSpending"))))
    ensures Get(r, "Deck").None? && Get(r, "Side") == Some(Str("P")) ==> d == SomeDeck(Closest(DecksByHomePlanet(Get(r, "HomePlanet")), pMeans, NumOf(Get(r, "TotalSpending"))))
  {
    var possible := DecksByHomePlanet(Get(r, "HomePlanet"));
    var total := NumOf(Get(r, "TotalSpending"));
    if Get(r, "Deck").None? then
      if Get(r, "Side") == Some(Str("S")) then SomeDeck(Closest(possible, sMeans, total))
      else if Get(r, "Side") == Some(Str("P")) then SomeDeck(Closest(possible, pMeans, total))
      else Ok(None)
    else Ok(Get(r, "Deck"))
  }

  function SomeDeck(r: Result<string>): Result<Cell>
  {
    match r
    case Ok(d) => Ok(Some(Str(d)))
    case Err(e) => Err(e)
  }

  /** The worked case of the deck rule: an Earth passenger on side S with total 60, against
      side-S means E: 100, F: 50, G: 10, is put on deck F (distances 40, 10 and 50). */
  lemma FillDeckExample()
    ensures FillDeck(map["HomePlanet" := Some(Str("Earth")), "Side" := Some(Str("S")), "TotalSpending" := Some(Real(60.0))],
                     map["E" := Some(100.0), "F" := Some(50.0), "G" := Some(10.0)], map[]) == Ok(Some(Str("F")))
  {
    var means: MeanTable := map["E" := Some(100.0), "F" := Some(50.0), "G" := Some(10.0)];
    var ks := Keys(["E", "F", "G"], means, Some(60.0)).value;
    assert ks == [Some(40.0), Some(10.0), Some(50.0)];
    assert ArgMin(ks) == 1;
  }

  /** `df.apply(fill_deck, axis=1)`: the rows in order, the first exception propagating. */
  function FillDeckColumn(rows: seq<Row>, sMeans: MeanTable, pMeans: MeanTable): (r: Result<seq<Cell>>)
    ensures r.Err? <==> exists i :: 0 <= i < |rows| && FillDeck(rows[i], sMeans, pMeans).Err?
    ensures r.Ok? ==> |r.value| == |rows| && forall i :: 0 <= i < |rows| ==> r.value[i] == FillDeck(rows[i], sMeans, pMeans).value
  {
    if |rows| == 0 then Ok([])
    else
      var first := FillDeck(rows[0], sMeans, pMeans);
      var rest := FillDeckColumn(rows[1..], sMeans, pMeans);
      assert forall i :: 1 <= i < |rows| ==> rows[i] == rows[1..][i - 1];
      if first.Err? then Err(first.error)
      else if rest.Err? then Err(rest.error)
      else Ok([first.value] + rest.value)
  }

  /** Line 180: the Deck column replaced by `fill_deck` of every row. Only missing decks change. */
  function FillDecks(t: Frame, sMeans: MeanTable, pMeans: MeanTable): (r: Result<Frame>)
    ensures r.Err? <==> exists i :: 0 <= i < |t.rows| && FillDeck(t.rows[i], sMeans, pMeans).Err?
    ensures r.Ok? ==> OnlyChanges(t.rows, r.value.rows, ["Deck"]) && KeepsPresent(t.rows, r.value.rows, "Deck")
    ensures r.Ok? ==> forall i :: 0 <= i < |t.rows| ==> Get(r.value.rows[i], "Deck") == FillDeck(t.rows[i], sMeans, pMeans).value
  {
    var vals :- FillDeckColumn(t.rows, sMeans, pMeans);
    Ok(WithColumn(t, "Deck", vals))
  }
}
