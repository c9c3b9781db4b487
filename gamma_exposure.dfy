/**
 * The GEX calculator: keeps the contracts that carry both gamma and open
 * interest, prices each one's signed exposure and sums the exposures per
 * (strike, type) pair.
 */
module GammaExposure {
  import opened Wrappers
  import opened OptionsTable

  /** One option contract covers 100 shares of the underlying. */
  const ContractSize: real := 100.0

  /** The columns the calculation reads; a table without one of them is refused with a key error. */
  const RequiredColumns: set<string> := {"gamma", "open_interest", "type", "strike", "volume"}

  /** The fields of one normalised row that the calculation uses; `kind` is the raw `type` value. */
  datatype Contract = Contract(
    strike: Option<real>,
    kind: Cell,
    openInterest: Option<real>,
    gamma: Option<real>,
    volume: Option<real>)

  /** The cell in column `c`, row `i`; outside the table it reads as null. */
  function CellAt(t: Table, c: string, i: nat): Cell {
    if c in t.columns && i < |t.columns[c]| then t.columns[c][i] else Null
  }

  /** A numeric cell as a number, anything else as absent. */
  function NumberAt(t: Table, c: string, i: nat): Option<real> {
    match CellAt(t, c, i)
    case Num(x) => Some(x)
    case _ => None
  }

  function ContractAt(t: Table, i: nat): Contract {
    Contract(NumberAt(t, "strike", i), CellAt(t, "type", i), NumberAt(t, "open_interest", i),
             NumberAt(t, "gamma", i), NumberAt(t, "volume", i))
  }

  function Contracts(t: Table): (cs: seq<Contract>)
    ensures |cs| == t.height
    ensures forall i :: 0 <= i < t.height ==> cs[i] == ContractAt(t, i)
  {
    seq(t.height, i requires 0 <= i => ContractAt(t, i))
  }

  predicate IsCall(kind: Cell) {
    kind == Text("call")
  }

  /** +1 for a call, -1 for every other type, including a put, an unknown string and null. */
  function Sign(kind: Cell): real {
    if IsCall(kind) then 1.0 else -1.0
  }

  predicate HasGreeks(c: Contract) {
    c.gamma.Some? && c.openInterest.Some?
  }

  /** A contract that survived the filter, with its signed exposure in `gex`. */
  datatype Priced = Priced(
    strike: Option<real>,
    kind: Cell,
    openInterest: real,
    gamma: real,
    volume: Option<real>,
    gex: real)

  /**
   * The per-contract exposure open interest x gamma x 100, taken as is
   * for a call and negated for every other type (including an unknown or
   * absent one): with non-negative open interest and gamma a call never
   * has negative exposure and any other type never has positive exposure.
   */
  function Price(c: Contract): (p: Priced)
    requires HasGreeks(c)
    ensures p.strike == c.strike && p.kind == c.kind && p.volume == c.volume
    ensures p.openInterest == c.openInterest.value && p.gamma == c.gamma.value
    ensures IsCall(c.kind) ==> p.gex == c.openInterest.value * c.gamma.value * ContractSize
    ensures !IsCall(c.kind) ==> p.gex == -(c.openInterest.value * c.gamma.value * ContractSize)
    ensures p.openInterest >= 0.0 && p.gamma >= 0.0 ==> (IsCall(c.kind) ==> p.gex >= 0.0) && (!IsCall(c.kind) ==> p.gex <= 0.0)
  {
    var oi := c.openInterest.value;
    var g := c.gamma.value;
    Priced(c.strike, c.kind, oi, g, c.volume, oi * g * ContractSize * Sign(c.kind))
  }

  /**
   * The filter step: a contract is kept, and priced, exactly when it has
   * both gamma and open interest, whatever else it lacks (how many times
   * it is kept is `CleanCounts`).
   */
  function Clean(cs: seq<Contract>): (ps: seq<Priced>)
    ensures |ps| <= |cs|
    ensures forall i :: 0 <= i < |cs| && HasGreeks(cs[i]) ==> Price(cs[i]) in ps
    ensures forall j :: 0 <= j < |ps| ==> exists i :: 0 <= i < |cs| && HasGreeks(cs[i]) && ps[j] == Price(cs[i])
  {
    if cs == [] then []
    else
      var init := cs[..|cs| - 1];
      var rest := Clean(init);
      var c := cs[|cs| - 1];
      assert forall i :: 0 <= i < |init| ==> init[i] == cs[i];
      if HasGreeks(c) then rest + [Price(c)] else rest
  }

  /**
   * The filter keeps duplicates: a contract with both greeks is priced
   * exactly as many times as it occurs, so no group loses a contract.
   */
  lemma {:induction false} CleanCounts(cs: seq<Contract>, c: Contract)
    requires HasGreeks(c)
    ensures multiset(Clean(cs))[Price(c)] == multiset(cs)[c]
  {
    if cs != [] {
      var init, x := cs[..|cs| - 1], cs[|cs| - 1];
      assert cs == init + [x];
      CleanCounts(init, c);
      if HasGreeks(x) {
        assert Clean(cs) == Clean(init) + [Price(x)];
        assert Price(x) == Price(c) <==> x == c;
      } else {
        assert Clean(cs) == Clean(init);
        assert x != c;
      }
    }
  }

  /** A grouping key: the exact (strike, type) pair. */
  datatype Key = Key(strike: real, kind: Cell)

  /** Grouping leaves out a row whose strike or type is absent. */
  predicate Groupable(p: Priced) {
    p.strike.Some? && !p.kind.Null?
  }

  function KeyOf(p: Priced): Key
    requires Groupable(p)
  {
    Key(p.strike.value, p.kind)
  }

  predicate InGroup(p: Priced, k: Key) {
    Groupable(p) && KeyOf(p) == k
  }

  /** The four aggregated columns; an absent volume adds nothing to the volume sum. */
  datatype Measure = Exposure | OpenInterest | Gamma | Volume

  function Measured(p: Priced, m: Measure): real {
    match m
    case Exposure => p.gex
    case OpenInterest => p.openInterest
    case Gamma => p.gamma
    case Volume => (match p.volume case Some(v) => v case None => 0.0)
  }

  function Total(ps: seq<Priced>, m: Measure): real {
    if ps == [] then 0.0 else Total(ps[..|ps| - 1], m) + Measured(ps[|ps| - 1], m)
  }

  /** The contracts of group `k`, in input order. */
  function Members(ps: seq<Priced>, k: Key): seq<Priced> {
    if ps == [] then []
    else Members(ps[..|ps| - 1], k) + (if InGroup(ps[|ps| - 1], k) then [ps[|ps| - 1]] else [])
  }

  /** The contracts that take part in grouping, in input order. */
  function Grouped(ps: seq<Priced>): seq<Priced> {
    if ps == [] then []
    else Grouped(ps[..|ps| - 1]) + (if Groupable(ps[|ps| - 1]) then [ps[|ps| - 1]] else [])
  }

  /** One row of the aggregated profile. */
  datatype ExposureRow = ExposureRow(
    strike: real,
    kind: Cell,
    gex: real,
    openInterest: real,
    gamma: real,
    volume: real)

  function RowKey(r: ExposureRow): Key {
    Key(r.strike, r.kind)
  }

  /** `row` aggregates `group`: sums of exposure, open interest and volume, plain mean of gamma. */
  ghost predicate Aggregates(row: ExposureRow, group: seq<Priced>) {
    && |group| > 0
    && row.gex == Total(group, Exposure)
    && row.openInterest == Total(group, OpenInterest)
    && row.volume == Total(group, Volume)
    && row.gamma == Total(group, Gamma) / (|group| as real)
  }

  /**
   * `rows` is the grouped profile of `ps`: one row per distinct (strike, type)
   * pair among the groupable contracts, and each row aggregates its group.
   */
  ghost predicate ProfileOf(rows: seq<ExposureRow>, ps: seq<Priced>) {
    && (forall i, j :: 0 <= i < j < |rows| ==> RowKey(rows[i]) != RowKey(rows[j]))
    && (forall p :: p in ps && Groupable(p) ==> exists i :: 0 <= i < |rows| && RowKey(rows[i]) == KeyOf(p))
    && (forall i :: 0 <= i < |rows| ==> Aggregates(rows[i], Members(ps, RowKey(rows[i]))))
  }

  /** Running sums of one group while the fold is under way. */
  datatype Bucket = Bucket(key: Key, gex: real, openInterest: real, gammaSum: real, count: nat, volume: real)

  function Absorb(b: Bucket, p: Priced): Bucket {
    b.(gex := b.gex + p.gex,
       openInterest := b.openInterest + p.openInterest,
       gammaSum := b.gammaSum + p.gamma,
       count := b.count + 1,
       volume := b.volume + Measured(p, Volume))
  }

  function EmptyBucket(k: Key): Bucket {
    Bucket(k, 0.0, 0.0, 0.0, 0, 0.0)
  }

  /** Adds `p` to the bucket of its key, opening one at the end when there is none. */
  function Insert(bs: seq<Bucket>, p: Priced): seq<Bucket>
    requires Groupable(p)
  {
    if bs == [] then [Absorb(EmptyBucket(KeyOf(p)), p)]
    else if bs[0].key == KeyOf(p) then [Absorb(bs[0], p)] + bs[1..]
    else [bs[0]] + Insert(bs[1..], p)
  }

  /** The one-pass fold that groups the contracts. */
  function Aggregate(ps: seq<Priced>): seq<Bucket> {
    if ps == [] then []
    else
      var bs := Aggregate(ps[..|ps| - 1]);
      var p := ps[|ps| - 1];
      if Groupable(p) then Insert(bs, p) else bs
  }

  function KeysOf(bs: seq<Bucket>): set<Key> {
    set b | b in bs :: b.key
  }

  predicate DistinctKeys(bs: seq<Bucket>) {
    forall i, j :: 0 <= i < j < |bs| ==> bs[i].key != bs[j].key
  }

  /** The first bucket with key `k`. */
  function Find(bs: seq<Bucket>, k: Key): Option<Bucket> {
    if bs == [] then None
    else if bs[0].key == k then Some(bs[0])
    else Find(bs[1..], k)
  }

  /** The sums a bucket for `k` must hold after all of `ps` has been seen. */
  ghost function Summary(ps: seq<Priced>, k: Key): Bucket {
    var g := Members(ps, k);
    Bucket(k, Total(g, Exposure), Total(g, OpenInterest), Total(g, Gamma), |g|, Total(g, Volume))
  }

  /** `bs` holds, for each key with members in `ps` and no other, exactly that key's sums. */
  ghost predicate Summarises(bs: seq<Bucket>, ps: seq<Priced>) {
    && DistinctKeys(bs)
    && forall k :: Find(bs, k) == if |Members(ps, k)| > 0 then Some(Summary(ps, k)) else None
  }

  function Finalize(b: Bucket): ExposureRow
    requires b.count > 0
  {
    ExposureRow(b.key.strike, b.key.kind, b.gex, b.openInterest, b.gammaSum / (b.count as real), b.volume)
  }

  function Rows(bs: seq<Bucket>): (rows: seq<ExposureRow>)
    requires forall i :: 0 <= i < |bs| ==> bs[i].count > 0
    ensures |rows| == |bs|
    ensures forall i :: 0 <= i < |bs| ==> rows[i] == Finalize(bs[i])
  {
    if bs == [] then [] else [Finalize(bs[0])] + Rows(bs[1..])
  }

  /** Sum of `gex` over profile rows. */
  function SumGex(rows: seq<ExposureRow>): real {
    if rows == [] then 0.0 else SumGex(rows[..|rows| - 1]) + rows[|rows| - 1].gex
  }

  datatype GexOutcome =
    | NoTable                           // no table, or an empty one: nothing to compute
    | MissingColumn                     // a required column is missing: the lookup raises a key error
    | Profile(rows: seq<ExposureRow>)   // the grouped profile (possibly empty)

  /**
   * calculate_gex: no result for a missing or empty table, a key error when a
   * column it reads is missing, and otherwise the grouped profile of the
   * contracts that have gamma and open interest.
   */
  function CalculateGex(df: Option<Table>): (r: GexOutcome)
    requires df.Some? ==> Coerced(df.value)
    ensures r.NoTable? <==> df.None? || df.value.height == 0 || df.value.columns == map[]
    ensures r.MissingColumn? <==>
              df.Some? && df.value.height > 0 && df.value.columns != map[] && !(RequiredColumns <= df.value.columns.Keys)
    ensures r.Profile? ==> df.Some? && ProfileOf(r.rows, Clean(Contracts(df.value)))
    ensures r.Profile? ==> SumGex(r.rows) == Total(Grouped(Clean(Contracts(df.value))), Exposure)
  {
    if df.None? || df.value.height == 0 || df.value.columns == map[] then NoTable
    else if !(RequiredColumns <= df.value.columns.Keys) then MissingColumn
    else
      var ps := Clean(Contracts(df.value));
      AggregateProfile(ps);
      Profile(Rows(Aggregate(ps)))
  }

  // ---------------------------------------------------------------------
  // Proofs about the fold
  // ---------------------------------------------------------------------

  lemma {:induction false} TotalAppend(g: seq<Priced>, p: Priced, m: Measure)
    ensures Total(g + [p], m) == Total(g, m) + Measured(p, m)
  {
    assert (g + [p])[..|g|] == g;
  }

  /** Seeing one more contract changes only the sums of its own group. */
  lemma {:induction false} SummaryStep(ps: seq<Priced>, p: Priced, k: Key)
    ensures Summary(ps + [p], k) == if InGroup(p, k) then Absorb(Summary(ps, k), p) else Summary(ps, k)
    ensures |Members(ps + [p], k)| == |Members(ps, k)| + (if InGroup(p, k) then 1 else 0)
  {
    assert (ps + [p])[..|ps|] == ps;
    var g := Members(ps, k);
    if InGroup(p, k) {
      assert Members(ps + [p], k) == g + [p];
      TotalAppend(g, p, Exposure);
      TotalAppend(g, p, OpenInterest);
      TotalAppend(g, p, Gamma);
      TotalAppend(g, p, Volume);
    } else {
      assert Members(ps + [p], k) == g;
    }
  }

  /** A key with no members has the empty sums. */
  lemma NoMembersSummary(ps: seq<Priced>, k: Key)
    requires |Members(ps, k)| == 0
    ensures Summary(ps, k) == EmptyBucket(k)
  {
    assert Members(ps, k) == [];
  }

  /** Inserting adds the contract's key to the keys and keeps the keys distinct. */
  lemma {:induction false} InsertKeys(bs: seq<Bucket>, p: Priced)
    requires Groupable(p)
    ensures KeysOf(Insert(bs, p)) == KeysOf(bs) + {KeyOf(p)}
    ensures DistinctKeys(bs) ==> DistinctKeys(Insert(bs, p))
  {
    if bs != [] && bs[0].key != KeyOf(p) {
      var rest := Insert(bs[1..], p);
      InsertKeys(bs[1..], p);
      assert Insert(bs, p) == [bs[0]] + rest;
      assert KeysOf(bs) == {bs[0].key} + KeysOf(bs[1..]) by {
        assert forall b :: b in bs <==> b == bs[0] || b in bs[1..];
      }
      assert KeysOf([bs[0]] + rest) == {bs[0].key} + KeysOf(rest) by {
        assert forall b :: b in [bs[0]] + rest <==> b == bs[0] || b in rest;
      }
      if DistinctKeys(bs) {
        assert bs[0].key !in KeysOf(bs[1..]) by {
          forall b | b in bs[1..] ensures b.key != bs[0].key {
            var j :| 0 <= j < |bs[1..]| && bs[1..][j] == b;
            assert bs[j + 1] == b;
          }
        }
        assert DistinctKeys(bs[1..]);
        forall j | 0 < j < |Insert(bs, p)| ensures Insert(bs, p)[j].key != bs[0].key {
          assert Insert(bs, p)[j] == rest[j - 1];
          assert rest[j - 1] in rest;
        }
      }
    } else if bs != [] {
      assert KeysOf(Insert(bs, p)) == KeysOf(bs) by {
        assert forall b :: b in bs <==> b == bs[0] || b in bs[1..];
        assert forall b :: b in Insert(bs, p) <==> b == Insert(bs, p)[0] || b in bs[1..];
      }
    }
  }

  /** Inserting changes the lookup of the contract's own key only. */
  lemma {:induction false} InsertFind(bs: seq<Bucket>, p: Priced, k: Key)
    requires Groupable(p)
    ensures Find(Insert(bs, p), k) ==
              if k == KeyOf(p) then Some(Absorb(match Find(bs, k) case Some(b) => b case None => EmptyBucket(k), p))
              else Find(bs, k)
  {
    if bs != [] && bs[0].key != KeyOf(p) {
      InsertFind(bs[1..], p, k);
      assert Insert(bs, p)[1..] == Insert(bs[1..], p);
    } else if bs != [] {
      assert Insert(bs, p)[1..] == bs[1..];
    }
  }

  /** The fold computes, for every key, the sums over that key's members. */
  lemma {:induction false} AggregateCorrect(ps: seq<Priced>)
    ensures Summarises(Aggregate(ps), ps)
  {
    if ps != [] {
      var init := ps[..|ps| - 1];
      var p := ps[|ps| - 1];
      assert ps == init + [p];
      AggregateCorrect(init);
      var bs := Aggregate(init);
      if Groupable(p) {
        InsertKeys(bs, p);
      }
      forall k
        ensures Find(Aggregate(ps), k) == if |Members(ps, k)| > 0 then Some(Summary(ps, k)) else None
      {
        SummaryStep(init, p, k);
        if Groupable(p) {
          InsertFind(bs, p, k);
        }
        if |Members(init, k)| == 0 {
          NoMembersSummary(init, k);
        }
      }
    }
  }

  /** With distinct keys, looking up a bucket's own key finds that bucket. */
  lemma {:induction false} FindAt(bs: seq<Bucket>, i: nat)
    requires DistinctKeys(bs) && i < |bs|
    ensures Find(bs, bs[i].key) == Some(bs[i])
  {
    if i > 0 {
      assert bs[0].key != bs[i].key;
      assert DistinctKeys(bs[1..]);
      FindAt(bs[1..], i - 1);
    }
  }

  /** Whatever Find returns is one of the buckets. */
  lemma {:induction false} FindIn(bs: seq<Bucket>, k: Key)
    requires Find(bs, k).Some?
    ensures exists i :: 0 <= i < |bs| && bs[i] == Find(bs, k).value && bs[i].key == k
  {
    if bs[0].key != k {
      FindIn(bs[1..], k);
      var i :| 0 <= i < |bs[1..]| && bs[1..][i] == Find(bs[1..], k).value && bs[1..][i].key == k;
      assert bs[i + 1] == bs[1..][i];
    }
  }

  /** A groupable contract belongs to its own group. */
  lemma {:induction false} MemberOfOwnGroup(ps: seq<Priced>, p: Priced)
    requires p in ps && Groupable(p)
    ensures |Members(ps, KeyOf(p))| > 0
  {
    var init := ps[..|ps| - 1];
    if p != ps[|ps| - 1] {
      assert p in init;
      MemberOfOwnGroup(init, p);
    }
  }

  /** Each fold step adds the contract's exposure to the sum over buckets. */
  function BucketGex(bs: seq<Bucket>): real {
    if bs == [] then 0.0 else bs[0].gex + BucketGex(bs[1..])
  }

  lemma {:induction false} InsertGex(bs: seq<Bucket>, p: Priced)
    requires Groupable(p)
    ensures BucketGex(Insert(bs, p)) == BucketGex(bs) + p.gex
  {
    if bs != [] && bs[0].key != KeyOf(p) {
      InsertGex(bs[1..], p);
      assert Insert(bs, p)[1..] == Insert(bs[1..], p);
    } else if bs != [] {
      assert Insert(bs, p)[1..] == bs[1..];
    }
  }

  lemma {:induction false} AggregateGex(ps: seq<Priced>)
    ensures BucketGex(Aggregate(ps)) == Total(Grouped(ps), Exposure)
  {
    if ps != [] {
      var init := ps[..|ps| - 1];
      var p := ps[|ps| - 1];
      AggregateGex(init);
      if Groupable(p) {
        assert Grouped(ps) == Grouped(init) + [p];
        InsertGex(Aggregate(init), p);
        TotalAppend(Grouped(init), p, Exposure);
      } else {
        assert Grouped(ps) == Grouped(init);
      }
    }
  }

  lemma {:induction false} RowsGex(bs: seq<Bucket>)
    requires forall i :: 0 <= i < |bs| ==> bs[i].count > 0
    ensures SumGex(Rows(bs)) == BucketGex(bs)
  {
    if bs != [] {
      var rows := Rows(bs);
      RowsGex(bs[1..]);
      SumGexFront(rows);
      assert rows[1..] == Rows(bs[1..]);
    }
  }

  /** SumGex taken from the front. */
  lemma {:induction false} SumGexFront(rows: seq<ExposureRow>)
    requires rows != []
    ensures SumGex(rows) == rows[0].gex + SumGex(rows[1..])
  {
    if |rows| > 1 {
      var init := rows[..|rows| - 1];
      SumGexFront(init);
      assert init[1..] == rows[1..][..|rows| - 2];
    }
  }

  /** The fold, finalised, is the grouped profile, and it keeps the total exposure. */
  lemma AggregateProfile(ps: seq<Priced>)
    ensures forall i :: 0 <= i < |Aggregate(ps)| ==> Aggregate(ps)[i].count > 0
    ensures ProfileOf(Rows(Aggregate(ps)), ps)
    ensures SumGex(Rows(Aggregate(ps))) == Total(Grouped(ps), Exposure)
  {
    var bs := Aggregate(ps);
    AggregateCorrect(ps);
    forall i | 0 <= i < |bs|
      ensures bs[i].count > 0 && bs[i] == Summary(ps, bs[i].key)
    {
      FindAt(bs, i);
    }
    var rows := Rows(bs);
    forall p | p in ps && Groupable(p)
      ensures exists i :: 0 <= i < |rows| && RowKey(rows[i]) == KeyOf(p)
    {
      MemberOfOwnGroup(ps, p);
      FindIn(bs, KeyOf(p));
    }
    forall i | 0 <= i < |rows|
      ensures Aggregates(rows[i], Members(ps, RowKey(rows[i])))
    {
      assert RowKey(rows[i]) == bs[i].key;
    }
    AggregateGex(ps);
    RowsGex(bs);
  }

  lemma ProductNonnegative(a: real, b: real)
    requires a >= 0.0 && b >= 0.0
    ensures a * b >= 0.0
  {
  }

  /** Exposure summed over one group has the group type's sign when open interest and gamma are non-negative. */
  lemma {:induction false} GroupExposureSign(ps: seq<Priced>, k: Key)
    requires forall p :: p in ps ==> WellPriced(p)
    ensures IsCall(k.kind) ==> Total(Members(ps, k), Exposure) >= 0.0
    ensures !IsCall(k.kind) ==> Total(Members(ps, k), Exposure) <= 0.0
  {
    if ps != [] {
      var init := ps[..|ps| - 1];
      var p := ps[|ps| - 1];
      assert forall q :: q in init ==> q in ps;
      GroupExposureSign(init, k);
      if InGroup(p, k) {
        assert Members(ps, k) == Members(init, k) + [p];
        TotalAppend(Members(init, k), p, Exposure);
        assert p in ps;
        assert WellPriced(p);
        ProductNonnegative(p.openInterest, p.gamma);
        assert p.kind == k.kind;
      } else {
        assert Members(ps, k) == Members(init, k);
      }
    }
  }

  /**
   * Every row of a grouped profile has the sign of its type when no
   * contract has negative open interest or gamma: a call row is never
   * negative, any other row is never positive.
   */
  lemma ProfileSigns(rows: seq<ExposureRow>, ps: seq<Priced>, i: nat)
    requires ProfileOf(rows, ps) && i < |rows|
    requires forall p :: p in ps ==> WellPriced(p)
    ensures IsCall(rows[i].kind) ==> rows[i].gex >= 0.0
    ensures !IsCall(rows[i].kind) ==> rows[i].gex <= 0.0
  {
    GroupExposureSign(ps, RowKey(rows[i]));
  }

  /** Open interest and gamma, where present, are not negative. */
  predicate NonNegativeGreeks(c: Contract) {
    && (c.openInterest.Some? ==> c.openInterest.value >= 0.0)
    && (c.gamma.Some? ==> c.gamma.value >= 0.0)
  }

  /** A kept contract with the exposure formula and non-negative open interest and gamma. */
  predicate WellPriced(p: Priced) {
    && p.gex == p.openInterest * p.gamma * ContractSize * Sign(p.kind)
    && p.openInterest >= 0.0 && p.gamma >= 0.0
  }

  /** Every kept contract carries its exposure formula, and has non-negative greeks when its source contract does. */
  lemma PriceWell(c: Contract)
    requires HasGreeks(c) && NonNegativeGreeks(c)
    ensures WellPriced(Price(c))
  {
  }

  lemma CleanPriced(cs: seq<Contract>)
    requires forall c :: c in cs ==> NonNegativeGreeks(c)
    ensures forall p :: p in Clean(cs) ==> WellPriced(p)
  {
    var ps := Clean(cs);
    forall j | 0 <= j < |ps|
      ensures WellPriced(ps[j])
    {
      var i :| 0 <= i < |cs| && HasGreeks(cs[i]) && ps[j] == Price(cs[i]);
      assert cs[i] in cs;
      PriceWell(cs[i]);
    }
  }

  /**
   * For a table whose open interest and gamma are never negative, every row
   * of the computed profile has the sign of its type.
   */
  lemma CalculatedSigns(t: Table, i: nat)
    requires Coerced(t) && CalculateGex(Some(t)).Profile? && i < |CalculateGex(Some(t)).rows|
    requires forall c :: c in Contracts(t) ==> NonNegativeGreeks(c)
    ensures IsCall(CalculateGex(Some(t)).rows[i].kind) ==> CalculateGex(Some(t)).rows[i].gex >= 0.0
    ensures !IsCall(CalculateGex(Some(t)).rows[i].kind) ==> CalculateGex(Some(t)).rows[i].gex <= 0.0
  {
    CleanPriced(Contracts(t));
    ProfileSigns(CalculateGex(Some(t)).rows, Clean(Contracts(t)), i);
  }
}
