/** The age steps of the preprocessing script: the rounding of the age (predict.py line 47) and
    the age groups cut from it (lines 211-213 and 223-227). */
module Ages {
  import opened Wrappers
  import opened Frames

  /** `np.round` of a float to an integral value: to the nearest integer, a tie going to the
      even neighbour. */
  function RoundHalfEven(x: real): (n: int)
    ensures (n as real) - 0.5 <= x <= (n as real) + 0.5
    ensures x == (n as real) - 0.5 || x == (n as real) + 0.5 ==> n % 2 == 0
  {
    var f := x.Floor;
    var frac := x - f as real;
    if frac < 0.5 then f
    else if frac > 0.5 then f + 1
    else if f % 2 == 0 then f
    else f + 1
  }

  /** The rounding is the only integer within half of `x` that takes the even side of a tie. */
  lemma RoundUnique(x: real, m: int)
    requires (m as real) - 0.5 <= x <= (m as real) + 0.5
    requires x == (m as real) - 0.5 || x == (m as real) + 0.5 ==> m % 2 == 0
    ensures m == RoundHalfEven(x)
  {
    var n := RoundHalfEven(x);
    if m < n {
      assert false;
    } else if m > n {
      assert false;
    }
  }

  /** Rounding an integral value changes nothing. */
  lemma {:induction false} RoundIntegral(n: int)
    ensures RoundHalfEven(n as real) == n
  {
    RoundUnique(n as real, n);
  }

  /** `round().astype(float)` of an age cell: a number becomes its rounded float, a missing cell
      stays missing, and text raises. */
  function RoundAge(c: Cell): (r: Result<Cell>)
    ensures r.Err? <==> c.Some? && c.value.Str?
    ensures r.Ok? ==> (r.value.None? <==> c.None?)
    ensures r.Ok? && c.Some? ==> r.value == Some(Real(RoundHalfEven(NumOf(c).value) as real))
  {
    match c
    case None => Ok(None)
    case Some(Str(_)) => Err(RoundError)
    case Some(Int(n)) => Ok(Some(Real(RoundHalfEven(n as real) as real)))
    case Some(Real(x)) => Ok(Some(Real(RoundHalfEven(x) as real)))
  }

  const RoundError: string := "loop of ufunc does not support argument 0 of type str which has no callable rint method"

  /** Rounding an age twice is rounding it once. */
  lemma RoundAgeIdempotent(c: Cell)
    requires RoundAge(c).Ok?
    ensures RoundAge(RoundAge(c).value) == RoundAge(c)
  {
    if c.Some? {
      RoundIntegral(RoundHalfEven(NumOf(c).value));
    }
  }

  /** Line 47 on the whole Age column: the first text cell raises. */
  function RoundAges(t: Frame): (r: Result<Frame>)
    ensures r.Err? <==> exists i :: 0 <= i < |t.rows| && RoundAge(Get(t.rows[i], "Age")).Err?
    ensures r.Ok? ==> OnlyChanges(t.rows, r.value.rows, ["Age"])
    ensures r.Ok? ==> forall i :: 0 <= i < |t.rows| ==> Get(r.value.rows[i], "Age") == RoundAge(Get(t.rows[i], "Age")).value
  {
    var cs := Column(t, "Age");
    assert forall i :: 0 <= i < |t.rows| ==> cs[i] == Get(t.rows[i], "Age");
    var vals :- RoundedCells(cs);
    Ok(WithColumn(t, "Age", vals))
  }

  function RoundedCells(cs: seq<Cell>): (r: Result<seq<Cell>>)
    ensures r.Err? <==> exists i :: 0 <= i < |cs| && RoundAge(cs[i]).Err?
    ensures r.Ok? ==> |r.value| == |cs| && forall i :: 0 <= i < |cs| ==> r.value[i] == RoundAge(cs[i]).value
  {
    if |cs| == 0 then Ok([])
    else
      var rest := RoundedCells(cs[1..]);
      assert forall i :: 1 <= i < |cs| ==> cs[i] == cs[1..][i - 1];
      if RoundAge(cs[0]).Err? then Err(RoundAge(cs[0]).error)
      else if rest.Err? then Err(rest.error)
      else Ok([RoundAge(cs[0]).value] + rest.value)
  }

  /** The finite lower edges of `bins`; the last bin is unbounded above. */
  const AgeBins: seq<real> := [0.0, 13.0, 18.0, 25.0, 30.0, 40.0, 50.0]

  const AgeLabels: seq<string> := ["0 - 13", "14 - 18", "19 - 25", "26 - 30", "31 - 40", "41 - 50", "51+"]

  /** With `right=False` bin `k` is the half-open interval from its edge up to the next one. */
  predicate InBin(x: real, k: nat)
  {
    && k < |AgeBins|
    && AgeBins[k] <= x
    && (k + 1 < |AgeBins| ==> x < AgeBins[k + 1])
  }

  function BinFrom(x: real, k: nat): (b: nat)
    requires k < |AgeBins| && AgeBins[k] <= x
    ensures k <= b && InBin(x, b)
    decreases |AgeBins| - k
  {
    if k + 1 == |AgeBins| || x < AgeBins[k + 1] then k else BinFrom(x, k + 1)
  }

  /** `pd.cut(age, bins, labels, right=False)` of one cell: the label of the bin holding the age;
      missing for a missing age and for one below the first edge. */
  function AgeBin(c: Cell): (g: Cell)
    ensures g.Some? <==> NumOf(c).Some? && NumOf(c).value >= 0.0
    ensures g.Some? ==> exists k: nat :: InBin(NumOf(c).value, k) && g == Some(Str(AgeLabels[k]))
  {
    match NumOf(c)
    case None => None
    case Some(x) => if x < 0.0 then None else Some(Str(AgeLabels[BinFrom(x, 0)]))
  }

  /** The bins do not overlap: an age lies in at most one of them, so its label is determined. */
  lemma {:induction false} BinUnique(x: real, j: nat, k: nat)
    requires InBin(x, j) && InBin(x, k)
    ensures j == k
  {
    if j < k {
      EdgesIncrease(j + 1, k);
    } else if k < j {
      EdgesIncrease(k + 1, j);
    }
  }

  lemma EdgesIncrease(i: nat, k: nat)
    requires i <= k < |AgeBins|
    ensures AgeBins[i] <= AgeBins[k]
  {
  }

  /** Lines 223-227: the AgeGroup column cut from the Age column. */
  function WithAgeGroups(t: Frame): (r: Frame)
    ensures "AgeGroup" in r.columns
    ensures OnlyChanges(t.rows, r.rows, ["AgeGroup"])
    ensures forall i :: 0 <= i < |t.rows| ==> Get(r.rows[i], "AgeGroup") == AgeBin(Get(t.rows[i], "Age"))
  {
    WithColumn(t, "AgeGroup", seq(|t.rows|, i requires 0 <= i < |t.rows| => AgeBin(Get(t.rows[i], "Age"))))
  }
}
