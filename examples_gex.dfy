/** Worked examples of the pipeline's conventions. */
module GexExamples {
  import opened Wrappers
  import opened OptionsTable
  import opened GammaExposure
  import opened KeyLevels

  /** Strikes 95 (+120), 100 (+40), 105 (-30), 110 (+10): the first change is 100 -> 105, + to -, so the flip is 100. */
  lemma FirstChangeWins()
    ensures GammaFlip([StrikeGex(95.0, 120.0), StrikeGex(100.0, 40.0), StrikeGex(105.0, -30.0), StrikeGex(110.0, 10.0)])
            == Some(100.0)
  {
    var ls := [StrikeGex(95.0, 120.0), StrikeGex(100.0, 40.0), StrikeGex(105.0, -30.0), StrikeGex(110.0, 10.0)];
    assert !SignChange(ls, 0) && SignChange(ls, 1);
  }

  /** Going from - to + the flip is the higher strike of the pair. */
  lemma NegativeToPositiveTakesHigherStrike()
    ensures GammaFlip([StrikeGex(100.0, -5.0), StrikeGex(105.0, 5.0)]) == Some(105.0)
  {
    assert SignChange([StrikeGex(100.0, -5.0), StrikeGex(105.0, 5.0)], 0);
  }

  /** Going from + to - the flip is the lower strike, which can be the lowest strike of all. */
  lemma PositiveToNegativeTakesLowerStrike()
    ensures GammaFlip([StrikeGex(100.0, 5.0), StrikeGex(105.0, -5.0)]) == Some(100.0)
  {
    assert SignChange([StrikeGex(100.0, 5.0), StrikeGex(105.0, -5.0)], 0);
  }

  /** A strike netting to zero is no change of sign on either side, so + 0 - has no flip. */
  lemma ZeroHidesTheChange()
    ensures GammaFlip([StrikeGex(100.0, 1.0), StrikeGex(105.0, 0.0), StrikeGex(110.0, -1.0)]) == None
  {
    var ls := [StrikeGex(100.0, 1.0), StrikeGex(105.0, 0.0), StrikeGex(110.0, -1.0)];
    assert !SignChange(ls, 0) && !SignChange(ls, 1);
  }

  /** A call with open interest 500 and gamma 0.05 prices at 2500; a put with 300 and 0.04 at -1200. */
  lemma TwoContractExposures()
    ensures Price(Contract(Some(100.0), Text("call"), Some(500.0), Some(0.05), None)).gex == 2500.0
    ensures Price(Contract(Some(100.0), Text("put"), Some(300.0), Some(0.04), None)).gex == -1200.0
  {
  }

  /**
   * The two contracts above as a normalised table, plus a third contract
   * whose gamma failed to parse: the third is dropped without error.
   */
  function ThreeRowTable(): Table {
    Table(3, map["strike" := [Num(100.0), Num(100.0), Num(105.0)],
                 "type" := [Text("call"), Text("put"), Text("call")],
                 "open_interest" := [Num(500.0), Num(300.0), Num(900.0)],
                 "gamma" := [Num(0.05), Num(0.04), Null],
                 "volume" := [Null, Num(7.0), Num(3.0)]])
  }

  lemma ThreeRowContracts()
    ensures Contracts(ThreeRowTable()) == [
      Contract(Some(100.0), Text("call"), Some(500.0), Some(0.05), None),
      Contract(Some(100.0), Text("put"), Some(300.0), Some(0.04), Some(7.0)),
      Contract(Some(105.0), Text("call"), Some(900.0), None, Some(3.0))]
  {
  }

  /** Only the two contracts with both gamma and open interest are kept. */
  lemma ThreeRowClean()
    ensures Clean(Contracts(ThreeRowTable())) == [
      Price(Contract(Some(100.0), Text("call"), Some(500.0), Some(0.05), None)),
      Price(Contract(Some(100.0), Text("put"), Some(300.0), Some(0.04), Some(7.0)))]
  {
    ThreeRowContracts();
    var cs := Contracts(ThreeRowTable());
    assert cs[..2] == [cs[0], cs[1]];
    assert cs[..2][..1] == [cs[0]];
    assert Clean(cs[..2][..1]) == [Price(cs[0])];
    assert Clean(cs[..2]) == [Price(cs[0]), Price(cs[1])];
  }

  lemma ThreeRowCoerced()
    ensures Coerced(ThreeRowTable())
  {
    var t := ThreeRowTable();
    forall c, i | c in t.columns && c in NumericColumns && 0 <= i < |t.columns[c]|
      ensures !t.columns[c][i].Text?
    {
      assert c != "type";
    }
  }

  /** Both contracts have a strike and a type, so each is its own group; together they total 1300. */
  lemma TwoContractTotal()
    ensures Total(Grouped([Price(Contract(Some(100.0), Text("call"), Some(500.0), Some(0.05), None)),
                           Price(Contract(Some(100.0), Text("put"), Some(300.0), Some(0.04), Some(7.0)))]), Exposure)
            == 1300.0
  {
    var ps := [Price(Contract(Some(100.0), Text("call"), Some(500.0), Some(0.05), None)),
               Price(Contract(Some(100.0), Text("put"), Some(300.0), Some(0.04), Some(7.0)))];
    assert ps[..1] == [ps[0]];
    assert Grouped(ps[..1]) == [ps[0]];
    assert Grouped(ps) == ps;
    assert ps[0].gex == 2500.0 && ps[1].gex == -1200.0;
    assert ps[..1][..0] == [];
    assert Total(ps[..1], Exposure) == 2500.0;
    assert Total(ps, Exposure) == Total(ps[..1], Exposure) + ps[1].gex;
  }

  /** The two kept contracts form two groups whose exposures total 1300. */
  lemma ThreeRowExposure()
    ensures Total(Grouped(Clean(Contracts(ThreeRowTable()))), Exposure) == 1300.0
  {
    ThreeRowClean();
    TwoContractTotal();
  }

  /** The table is non-empty and has every column the calculation reads. */
  lemma ThreeRowProfile()
    ensures Coerced(ThreeRowTable())
    ensures CalculateGex(Some(ThreeRowTable())).Profile?
  {
    ThreeRowCoerced();
    var t := ThreeRowTable();
    assert t.height == 3 && "strike" in t.columns;
    assert RequiredColumns <= t.columns.Keys;
  }

  /** The profile of that table totals 1300: positive gamma. */
  lemma TableTotal()
    ensures Coerced(ThreeRowTable())
    ensures CalculateGex(Some(ThreeRowTable())).Profile?
    ensures SumGex(CalculateGex(Some(ThreeRowTable())).rows) == 1300.0
  {
    ThreeRowProfile();
    ThreeRowExposure();
  }

  /** The two contracts above net to 1300 at strike 100: a positive total. */
  method TwoContractRegime() {
    var call := ExposureRow(100.0, Text("call"), 2500.0, 500.0, 0.05, 0.0);
    var put := ExposureRow(100.0, Text("put"), -1200.0, 300.0, 0.04, 0.0);
    var levels := IdentifyKeyLevels(Some([call, put]));
    assert SumGex([call, put]) == 1300.0 by {
      assert [call, put][..1] == [call];
    }
    assert levels.Some? && levels.value.totalGex == 1300.0;
    assert levels.value.regime == PositiveGamma;
  }

  /** A total of exactly zero is classified Negative Gamma. */
  method ZeroTotalIsNegative() {
    var call := ExposureRow(100.0, Text("call"), 700.0, 10.0, 0.7, 0.0);
    var put := ExposureRow(100.0, Text("put"), -700.0, 10.0, 0.7, 0.0);
    var levels := IdentifyKeyLevels(Some([call, put]));
    assert SumGex([call, put]) == 0.0 by {
      assert [call, put][..1] == [call];
    }
    assert levels.Some? && levels.value.regime == NegativeGamma;
  }

  /** An empty profile yields no key levels at all. */
  method EmptyProfileHasNoLevels() {
    var levels := IdentifyKeyLevels(Some([]));
    assert levels.None?;
  }
}
