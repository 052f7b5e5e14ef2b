/** The rule-based fills of the preprocessing script: the True/False mapping of the flag columns
    (predict.py lines 42-43), the CryoSleep rules (lines 80-95) and the HomePlanet rules by deck
    (lines 103-108). Each rule writes only cells that are still missing. */
module Rules {
  import opened Wrappers
  import opened Frames

  /** `.map({"True": 1, "False": 0})`: any other value, and a missing one, maps to missing. */
  function MapFlag(c: Cell): (r: Cell)
    ensures r == Some(Int(1)) <==> c == Some(Str("True"))
    ensures r == Some(Int(0)) <==> c == Some(Str("False"))
    ensures r.None? <==> c != Some(Str("True")) && c != Some(Str("False"))
  {
    if c == Some(Str("True")) then Some(Int(1))
    else if c == Some(Str("False")) then Some(Int(0))
    else None
  }

  /** Lines 42-43: `df[c] = df[c].map(...)`. */
  function MapFlags(t: Frame, c: string): (r: Frame)
    ensures forall x :: x in r.columns <==> x in t.columns || x == c
    ensures OnlyChanges(t.rows, r.rows, [c])
    ensures forall i :: 0 <= i < |t.rows| ==> Get(r.rows[i], c) == MapFlag(Get(t.rows[i], c))
  {
    WithColumn(t, c, seq(|t.rows|, i requires 0 <= i < |t.rows| => MapFlag(Get(t.rows[i], c))))
  }

  /** `df[c] != s` on a string column: a missing cell compares as missing, which a `.loc` mask
      reads as false. */
  function NotStrMask(t: Frame, c: string, s: string): (m: seq<bool>)
    ensures |m| == |t.rows|
    ensures forall i :: 0 <= i < |m| ==> (m[i] <==> Get(t.rows[i], c).Some? && Get(t.rows[i], c) != Some(Str(s)))
  {
    seq(|t.rows|, i requires 0 <= i < |t.rows| => Get(t.rows[i], c).Some? && Get(t.rows[i], c) != Some(Str(s)))
  }

  /** `df[c].isin(ss)`: a missing cell is in no list. */
  function InMask(t: Frame, c: string, ss: seq<string>): (m: seq<bool>)
    ensures |m| == |t.rows|
    ensures forall i :: 0 <= i < |m| ==> (m[i] <==> exists k :: 0 <= k < |ss| && Get(t.rows[i], c) == Some(Str(ss[k])))
  {
    seq(|t.rows|, i requires 0 <= i < |t.rows| => exists k :: 0 <= k < |ss| && Get(t.rows[i], c) == Some(Str(ss[k])))
  }

  /** The CryoSleep value the three rules give a row whose CryoSleep is missing, in the order
      they run: asleep when it spent nothing and travels alone; awake when it spent money; then,
      still missing, asleep when its group spent nothing and it is not alone. */
  function CryoRule(r: Row): Cell
  {
    if IsNum(Get(r, "SpentMoney"), 0.0) && IsNum(Get(r, "TravelingAlone"), 1.0) then Some(Int(1))
    else if IsNum(Get(r, "SpentMoney"), 1.0) then Some(Int(0))
    else if IsNum(Get(r, "GroupSpentMoney"), 0.0) && Get(r, "GroupSize").Some? && Get(r, "GroupSize") != Some(Str("01")) then Some(Int(1))
    else None
  }

  /** Lines 80-95. The first two masks are taken together before either assignment; the third
      is taken afresh afterwards. A CryoSleep present beforehand is never overwritten, and a
      missing one takes the first rule that applies. */
  function CryoSleepRules(t: Frame): (r: Frame)
    ensures "CryoSleep" in t.columns ==> r.columns == t.columns
    ensures OnlyChanges(t.rows, r.rows, ["CryoSleep"])
    ensures KeepsPresent(t.rows, r.rows, "CryoSleep")
    ensures forall i :: 0 <= i < |t.rows| && Get(t.rows[i], "CryoSleep").None? ==>
      Get(r.rows[i], "CryoSleep") == CryoRule(t.rows[i])
  {
    var missing := MissingMask(t, "CryoSleep");
    var spendZero := NumMask(t, "SpentMoney", 0.0);
    var spendNotZero := NumMask(t, "SpentMoney", 1.0);
    var groupSizeOne := NumMask(t, "TravelingAlone", 1.0);
    var t1 := AssignWhere(t, And(And(missing, spendZero), groupSizeOne), "CryoSleep", Some(Int(1)));
    var t2 := AssignWhere(t1, And(missing, spendNotZero), "CryoSleep", Some(Int(0)));
    var missing2 := MissingMask(t2, "CryoSleep");
    var groupSpendZero := NumMask(t2, "GroupSpentMoney", 0.0);
    var groupSizeNotOne := NotStrMask(t2, "GroupSize", "01");
    var r := AssignWhere(t2, And(And(missing2, groupSpendZero), groupSizeNotOne), "CryoSleep", Some(Int(1)));
    OnlyChangesTrans(t.rows, t1.rows, t2.rows, ["CryoSleep"], ["CryoSleep"]);
    OnlyChangesTrans(t.rows, t2.rows, r.rows, ["CryoSleep", "CryoSleep"], ["CryoSleep"]);
    r
  }

  /** Decks A, B and C. */
  predicate EuropaDeck(c: Cell)
  {
    c == Some(Str("A")) || c == Some(Str("B")) || c == Some(Str("C"))
  }

  lemma InEuropaDecks(c: Cell)
    ensures (exists k :: 0 <= k < 3 && c == Some(Str(["A", "B", "C"][k]))) <==> EuropaDeck(c)
  {
    if EuropaDeck(c) {
      var k := if c == Some(Str("A")) then 0 else if c == Some(Str("B")) then 1 else 2;
      assert c == Some(Str(["A", "B", "C"][k]));
    }
  }

  /** Lines 103-108: a HomePlanet still missing becomes "Europa" on decks A, B and C and "Earth"
      on deck G; on any other deck, or with the deck missing, it stays missing. */
  function HomePlanetRules(t: Frame): (r: Frame)
    ensures "HomePlanet" in t.columns ==> r.columns == t.columns
    ensures OnlyChanges(t.rows, r.rows, ["HomePlanet"])
    ensures KeepsPresent(t.rows, r.rows, "HomePlanet")
    ensures forall i :: 0 <= i < |t.rows| && Get(t.rows[i], "HomePlanet").None? && EuropaDeck(Get(t.rows[i], "Deck")) ==>
      Get(r.rows[i], "HomePlanet") == Some(Str("Europa"))
    ensures forall i :: 0 <= i < |t.rows| && Get(t.rows[i], "HomePlanet").None? && Get(t.rows[i], "Deck") == Some(Str("G")) ==>
      Get(r.rows[i], "HomePlanet") == Some(Str("Earth"))
    ensures forall i :: (0 <= i < |t.rows| && Get(t.rows[i], "HomePlanet").None? &&
                           !EuropaDeck(Get(t.rows[i], "Deck")) && Get(t.rows[i], "Deck") != Some(Str("G"))) ==>
      Get(r.rows[i], "HomePlanet").None?
  {
    var missing := MissingMask(t, "HomePlanet");
    var decks := InMask(t, "Deck", ["A", "B", "C"]);
    forall i | 0 <= i < |t.rows| ensures decks[i] <==> EuropaDeck(Get(t.rows[i], "Deck")) {
      InEuropaDecks(Get(t.rows[i], "Deck"));
    }
    var maskEurope := And(missing, decks);
    var maskEarth := And(missing, StrMask(t, "Deck", "G"));
    var t1 := AssignWhere(t, maskEurope, "HomePlanet", Some(Str("Europa")));
    var r := AssignWhere(t1, maskEarth, "HomePlanet", Some(Str("Earth")));
    OnlyChangesTrans(t.rows, t1.rows, r.rows, ["HomePlanet"], ["HomePlanet"]);
    r
  }
}
