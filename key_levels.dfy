/**
 * The key-level identifier: Call Wall, Put Wall, Gamma Flip, total
 * exposure and market regime of a grouped exposure profile.
 */
module KeyLevels {
  import opened Wrappers
  import opened OptionsTable
  import opened GammaExposure

  datatype Side = CallSide | PutSide

  /** A row belongs to the call partition when its type is "call", to the put partition when it is "put". */
  predicate OnSide(r: ExposureRow, side: Side) {
    r.kind == Text(if side == CallSide then "call" else "put")
  }

  function Abs(x: real): real {
    if x < 0.0 then -x else x
  }

  /** What a wall maximises: the exposure itself for calls, its magnitude for puts. */
  function Score(r: ExposureRow, side: Side): real {
    if side == CallSide then r.gex else Abs(r.gex)
  }

  /** `a` is preferred to `b`: a higher score, or the same score at a lower strike. */
  predicate Beats(a: ExposureRow, b: ExposureRow, side: Side) {
    Score(a, side) > Score(b, side) || (Score(a, side) == Score(b, side) && a.strike < b.strike)
  }

  /**
   * The index of the wall row of one partition: absent exactly when the
   * partition is empty; otherwise a row of the partition whose score is at
   * least every other partition row's, and the lowest strike among those
   * with the top score.
   */
  function WallIndex(rows: seq<ExposureRow>, side: Side): (r: Option<nat>)
    ensures r.None? <==> forall i :: 0 <= i < |rows| ==> !OnSide(rows[i], side)
    ensures r.Some? ==> r.value < |rows| && OnSide(rows[r.value], side)
    ensures r.Some? ==> forall i :: 0 <= i < |rows| && OnSide(rows[i], side) ==>
              && Score(rows[i], side) <= Score(rows[r.value], side)
              && (Score(rows[i], side) == Score(rows[r.value], side) ==> rows[r.value].strike <= rows[i].strike)
  {
    if rows == [] then None
    else
      var best := WallIndex(rows[..|rows| - 1], side);
      var last := |rows| - 1;
      if !OnSide(rows[last], side) then best
      else if best.None? || Beats(rows[last], rows[best.value], side) then Some(last)
      else best
  }

  /** A wall: the strike and the exposure of the chosen row. */
  datatype Wall = Wall(strike: real, gex: real)

  function WallOf(rows: seq<ExposureRow>, side: Side): Option<Wall> {
    match WallIndex(rows, side)
    case None => None
    case Some(i) => Some(Wall(rows[i].strike, rows[i].gex))
  }

  // ---------------------------------------------------------------------
  // Exposure collapsed per strike
  // ---------------------------------------------------------------------

  /** The net exposure at one strike, calls and puts together. */
  datatype StrikeGex = StrikeGex(strike: real, gex: real)

  predicate Ascending(ls: seq<StrikeGex>) {
    forall i, j :: 0 <= i < j < |ls| ==> ls[i].strike < ls[j].strike
  }

  function StrikesOf(ls: seq<StrikeGex>): set<real> {
    set l | l in ls :: l.strike
  }

  function RowStrikes(rows: seq<ExposureRow>): set<real> {
    set r | r in rows :: r.strike
  }

  /** The exposure recorded for strike `s` (summed, should it appear more than once). */
  function GexAt(ls: seq<StrikeGex>, s: real): real {
    if ls == [] then 0.0 else (if ls[0].strike == s then ls[0].gex else 0.0) + GexAt(ls[1..], s)
  }

  function SumLevels(ls: seq<StrikeGex>): real {
    if ls == [] then 0.0 else ls[0].gex + SumLevels(ls[1..])
  }

  /** The exposure of all rows at strike `s`. */
  function StrikeTotal(rows: seq<ExposureRow>, s: real): real {
    if rows == [] then 0.0
    else StrikeTotal(rows[..|rows| - 1], s) + (if rows[|rows| - 1].strike == s then rows[|rows| - 1].gex else 0.0)
  }

  /** Adds exposure `g` at strike `s` to an ascending list, keeping it ascending. */
  function InsertStrike(ls: seq<StrikeGex>, s: real, g: real): seq<StrikeGex> {
    if ls == [] then [StrikeGex(s, g)]
    else if s == ls[0].strike then [StrikeGex(s, ls[0].gex + g)] + ls[1..]
    else if s < ls[0].strike then [StrikeGex(s, g)] + ls
    else [ls[0]] + InsertStrike(ls[1..], s, g)
  }

  lemma StrikesOfCons(l: StrikeGex, ls: seq<StrikeGex>)
    ensures StrikesOf([l] + ls) == {l.strike} + StrikesOf(ls)
  {
    assert forall m :: m in [l] + ls <==> m == l || m in ls;
  }

  /** Inserting adds the strike to the strikes. */
  lemma {:induction false} InsertStrikeStrikes(ls: seq<StrikeGex>, s: real, g: real)
    ensures StrikesOf(InsertStrike(ls, s, g)) == StrikesOf(ls) + {s}
  {
    if ls != [] {
      assert ls == [ls[0]] + ls[1..];
      StrikesOfCons(ls[0], ls[1..]);
      if s == ls[0].strike {
        StrikesOfCons(StrikeGex(s, ls[0].gex + g), ls[1..]);
      } else if s < ls[0].strike {
        StrikesOfCons(StrikeGex(s, g), ls);
      } else {
        InsertStrikeStrikes(ls[1..], s, g);
        StrikesOfCons(ls[0], InsertStrike(ls[1..], s, g));
      }
    }
  }

  /** Every strike of `ls` is above `x`. */
  predicate Above(ls: seq<StrikeGex>, x: real) {
    forall i :: 0 <= i < |ls| ==> x < ls[i].strike
  }

  lemma {:induction false} InsertStrikeAbove(ls: seq<StrikeGex>, s: real, g: real, x: real)
    requires Above(ls, x) && x < s
    ensures Above(InsertStrike(ls, s, g), x)
  {
    if ls != [] && s > ls[0].strike {
      InsertStrikeAbove(ls[1..], s, g, x);
    }
  }

  /** Inserting keeps an ascending list ascending. */
  lemma {:induction false} InsertStrikeAscending(ls: seq<StrikeGex>, s: real, g: real)
    requires Ascending(ls)
    ensures Ascending(InsertStrike(ls, s, g))
  {
    if ls != [] && s > ls[0].strike {
      InsertStrikeAscending(ls[1..], s, g);
      InsertStrikeAbove(ls[1..], s, g, ls[0].strike);
    }
  }

  /** Inserting adds `g` at strike `s`, and nowhere else, and to the sum. */
  lemma {:induction false} InsertStrikeGex(ls: seq<StrikeGex>, s: real, g: real)
    ensures forall x :: GexAt(InsertStrike(ls, s, g), x) == GexAt(ls, x) + (if x == s then g else 0.0)
    ensures SumLevels(InsertStrike(ls, s, g)) == SumLevels(ls) + g
  {
    var r := InsertStrike(ls, s, g);
    if ls != [] {
      if s == ls[0].strike {
        assert r[1..] == ls[1..];
      } else if s < ls[0].strike {
        assert r[1..] == ls;
      } else {
        InsertStrikeGex(ls[1..], s, g);
        assert r[1..] == InsertStrike(ls[1..], s, g);
      }
    }
  }

  /**
   * The per-strike collapse, ascending by strike: one entry per strike that
   * occurs in the rows, holding the net exposure of the rows at that strike;
   * the entries add up to the same total as the rows.
   */
  function Collapse(rows: seq<ExposureRow>): (ls: seq<StrikeGex>)
    ensures Ascending(ls)
    ensures StrikesOf(ls) == RowStrikes(rows)
    ensures forall x :: GexAt(ls, x) == StrikeTotal(rows, x)
    ensures SumLevels(ls) == SumGex(rows)
  {
    if rows == [] then []
    else
      var init := rows[..|rows| - 1];
      var last := rows[|rows| - 1];
      assert RowStrikes(rows) == RowStrikes(init) + {last.strike} by {
        assert forall r :: r in rows <==> r in init || r == last;
      }
      InsertStrikeStrikes(Collapse(init), last.strike, last.gex);
      InsertStrikeAscending(Collapse(init), last.strike, last.gex);
      InsertStrikeGex(Collapse(init), last.strike, last.gex);
      InsertStrike(Collapse(init), last.strike, last.gex)
  }

  /** Each entry of the collapse holds the net exposure of all rows at its strike. */
  lemma CollapseEntry(rows: seq<ExposureRow>, i: nat)
    requires i < |Collapse(rows)|
    ensures Collapse(rows)[i].gex == StrikeTotal(rows, Collapse(rows)[i].strike)
  {
    GexAtEntry(Collapse(rows), i);
  }

  /** In an ascending list, each entry's strike reads back its own exposure. */
  lemma {:induction false} GexAtEntry(ls: seq<StrikeGex>, i: nat)
    requires Ascending(ls) && i < |ls|
    ensures GexAt(ls, ls[i].strike) == ls[i].gex
  {
    if i == 0 {
      GexAtAbsent(ls[1..], ls[0].strike);
    } else {
      GexAtEntry(ls[1..], i - 1);
    }
  }

  lemma {:induction false} GexAtAbsent(ls: seq<StrikeGex>, s: real)
    requires forall l :: l in ls ==> s < l.strike
    ensures GexAt(ls, s) == 0.0
  {
    if ls != [] {
      GexAtAbsent(ls[1..], s);
    }
  }

  // ---------------------------------------------------------------------
  // The Gamma Flip
  // ---------------------------------------------------------------------

  /** Entries i and i + 1 have strictly opposite signs; a zero on either side is no change. */
  predicate SignChange(ls: seq<StrikeGex>, i: nat)
    requires i + 1 < |ls|
  {
    (ls[i].gex > 0.0 && ls[i + 1].gex < 0.0) || (ls[i].gex < 0.0 && ls[i + 1].gex > 0.0)
  }

  /** The flip strike of a change: the lower strike going from + to -, the higher going from - to +. */
  function FlipStrike(ls: seq<StrikeGex>, i: nat): real
    requires i + 1 < |ls|
  {
    if ls[i].gex > 0.0 then ls[i].strike else ls[i + 1].strike
  }

  /** The first adjacent pair at or after `from` whose signs strictly differ. */
  function FirstSignChange(ls: seq<StrikeGex>, from: nat): (r: Option<nat>)
    ensures r.None? <==> forall i :: from <= i && i + 1 < |ls| ==> !SignChange(ls, i)
    ensures r.Some? ==> from <= r.value && r.value + 1 < |ls| && SignChange(ls, r.value)
    ensures r.Some? ==> forall i :: from <= i < r.value ==> !SignChange(ls, i)
    decreases |ls| - from
  {
    if from + 1 >= |ls| then None
    else if SignChange(ls, from) then Some(from)
    else FirstSignChange(ls, from + 1)
  }

  function GammaFlip(ls: seq<StrikeGex>): Option<real> {
    match FirstSignChange(ls, 0)
    case None => None
    case Some(i) => Some(FlipStrike(ls, i))
  }

  /** The flip scan of identify_key_levels: the first strict sign change, leaving the loop at once. */
  method ScanGammaFlip(ls: seq<StrikeGex>) returns (flip: Option<real>)
    ensures flip == GammaFlip(ls)
  {
    flip := None;
    var i := 0;
    while i < |ls| - 1
      invariant 0 <= i <= |ls|
      invariant forall j :: 0 <= j < i && j + 1 < |ls| ==> !SignChange(ls, j)
      invariant flip.None?
      decreases |ls| - i
    {
      var current := ls[i].gex;
      var next := ls[i + 1].gex;
      if current > 0.0 && next < 0.0 {
        flip := Some(ls[i].strike);
        break;
      } else if current < 0.0 && next > 0.0 {
        flip := Some(ls[i + 1].strike);
        break;
      }
      i := i + 1;
    }
    if flip.Some? {
      assert SignChange(ls, i);
      assert FirstSignChange(ls, 0) == Some(i);
    }
  }

  /** A flip, when there is one, is the strike of an entry whose net exposure is not zero. */
  lemma FlipIsNonzeroStrike(ls: seq<StrikeGex>)
    requires GammaFlip(ls).Some?
    ensures exists i :: 0 <= i < |ls| && ls[i].strike == GammaFlip(ls).value && ls[i].gex != 0.0
  {
    var i := FirstSignChange(ls, 0).value;
    if ls[i].gex > 0.0 {
      assert ls[i].strike == GammaFlip(ls).value;
    } else {
      assert ls[i + 1].strike == GammaFlip(ls).value;
    }
  }

  /** With no adjacent change of sign and no zero entry, every entry has the first entry's sign. */
  lemma {:induction false} SignPersists(ls: seq<StrikeGex>, k: nat)
    requires k < |ls|
    requires forall i :: 0 <= i < |ls| ==> ls[i].gex != 0.0
    requires forall i :: 0 <= i && i + 1 < |ls| ==> !SignChange(ls, i)
    ensures (ls[k].gex > 0.0) == (ls[0].gex > 0.0)
  {
    if k > 0 {
      SignPersists(ls, k - 1);
      assert !SignChange(ls, k - 1);
    }
  }

  /**
   * The scan cannot miss a change of sign that no zero entry hides: when no
   * strike nets to zero and the lowest and highest strikes have opposite
   * signs, there is a flip.
   */
  lemma OppositeEndsHaveFlip(ls: seq<StrikeGex>)
    requires |ls| >= 2
    requires forall i :: 0 <= i < |ls| ==> ls[i].gex != 0.0
    requires (ls[0].gex > 0.0) != (ls[|ls| - 1].gex > 0.0)
    ensures GammaFlip(ls).Some?
  {
    if FirstSignChange(ls, 0).None? {
      SignPersists(ls, |ls| - 1);
    }
  }

  // ---------------------------------------------------------------------
  // The key levels
  // ---------------------------------------------------------------------

  datatype Regime = PositiveGamma | NegativeGamma

  datatype KeyLevels = KeyLevels(
    callWall: Option<Wall>,
    putWall: Option<Wall>,
    gammaFlip: Option<real>,
    totalGex: real,
    regime: Regime)

  /**
   * identify_key_levels: nothing for a missing or empty profile; otherwise
   * the two walls, the flip of the ascending per-strike collapse, the total
   * exposure of all rows, and "Positive Gamma" exactly when that total is
   * strictly positive.
   */
  method IdentifyKeyLevels(profile: Option<seq<ExposureRow>>) returns (levels: Option<KeyLevels>)
    ensures levels.None? <==> profile.None? || profile.value == []
    ensures levels.Some? ==> profile.Some? && levels.value.callWall == WallOf(profile.value, CallSide)
    ensures levels.Some? ==> profile.Some? && levels.value.putWall == WallOf(profile.value, PutSide)
    ensures levels.Some? ==> profile.Some? && levels.value.gammaFlip == GammaFlip(Collapse(profile.value))
    ensures levels.Some? ==> profile.Some? && levels.value.totalGex == SumGex(profile.value)
    ensures levels.Some? ==> (levels.value.regime == PositiveGamma <==> levels.value.totalGex > 0.0)
  {
    if profile.None? || profile.value == [] {
      return None;
    }
    var rows := profile.value;
    var callWall := WallOf(rows, CallSide);
    var putWall := WallOf(rows, PutSide);
    var byStrike := Collapse(rows);
    var flip := ScanGammaFlip(byStrike);
    var total := SumGex(rows);
    var regime := if total > 0.0 then PositiveGamma else NegativeGamma;
    return Some(KeyLevels(callWall, putWall, flip, total, regime));
  }
}
