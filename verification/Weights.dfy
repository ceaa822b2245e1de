/** The serving split folded into the combined pools: the weights one epoch sends. */
module Weights {
  import opened Prelude
  import opened Dicts
  import opened Reals
  import opened Exclusion
  import opened ServingPools
  import opened Division
  import opened Emission

  const SERVING_SCALE := 1_000_000_000
  const DEFAULT_CAP: real := 0.1
  const DEFAULT_REBATE: real := 0.04
  const DEFAULT_REVENUE_SHARE: real := 0.95
  const SERVING := "serving"

  // ---------------------------------------------------------------- the serving split as parts of the whole

  datatype Fold = Fold(shares: map<string, real>, modelling: real, burn: real)

  function Over(m: map<string, int>, whole: int): map<string, real>
    requires whole != 0
  {
    map o | o in m :: Part(m[o], whole)
  }

  function FoldOf(split: Split): Fold {
    var available := if split.available == 0 then 1 else split.available;
    Fold(Over(Positive(split.shares), available), Part(split.modelling, available), Part(split.burned, available))
  }

  lemma OverSplit(m: map<string, int>, whole: int, o: string)
    requires whole != 0 && o in m
    ensures RealTotal(Over(m, whole)) == Part(m[o], whole) + RealTotal(Over(m - {o}, whole))
  {
    assert Over(m, whole) - {o} == Over(m - {o}, whole);
    RealTotalSplit(Over(m, whole), o);
  }

  lemma OverStep(m: map<string, int>, whole: int, o: string)
    requires whole != 0 && o in m
    requires RealTotal(Over(m - {o}, whole)) == Part(Total(m - {o}), whole)
    ensures RealTotal(Over(m, whole)) == Part(Total(m), whole)
  {
    OverSplit(m, whole, o);
    TotalSplit(m, o);
    PartsAdd(m[o], Total(m - {o}), whole);
  }

  lemma {:induction false} OverTotal(m: map<string, int>, whole: int)
    requires whole != 0
    ensures RealTotal(Over(m, whole)) == Part(Total(m), whole)
    decreases |m|
  {
    if m == map[] {
      assert Over(m, whole) == map[];
    } else {
      var o := AnyKey(m);
      OverTotal(m - {o}, whole);
      OverStep(m, whole, o);
    }
  }

  lemma {:induction false} PositiveWhole(m: map<string, int>)
    requires NonNegative(m)
    ensures Total(Positive(m)) == Total(m)
    decreases |m|
  {
    if m == map[] {
      assert Positive(m) == map[];
    } else {
      var o := AnyKey(m);
      PositiveWhole(m - {o});
      PositiveWithout(m, o);
    }
  }

  lemma PositiveWithout(m: map<string, int>, o: string)
    requires o in m && m[o] >= 0
    ensures Total(Positive(m)) == m[o] + Total(Positive(m - {o}))
  {
    if m[o] > 0 {
      TotalSplit(Positive(m), o);
      assert Positive(m) - {o} == Positive(m - {o});
    } else {
      assert Positive(m) == Positive(m - {o});
    }
  }

  ghost predicate Whole(fold: Fold) {
    && RealTotal(fold.shares) + fold.modelling + fold.burn == 1.0
    && RealNonNegative(fold.shares) && fold.modelling >= 0.0 && fold.burn >= 0.0
  }

  /** A conserved split of something comes to parts that make up the whole. */
  lemma FoldIsWhole(split: Split)
    requires split.available > 0 && split.serving + split.modelling == split.available
    requires Total(split.shares) + split.burned == split.serving
    requires split.burned >= 0 && split.modelling >= 0 && NonNegative(split.shares)
    ensures Whole(FoldOf(split))
  {
    var available := split.available;
    PositiveWhole(split.shares);
    OverTotal(Positive(split.shares), available);
    PartsAdd(Total(split.shares), split.modelling, available);
    PartsAdd(Total(split.shares) + split.modelling, split.burned, available);
    WholePart(available);
    PartOrder(split.modelling, available);
    PartOrder(split.burned, available);
    forall o | o in Over(Positive(split.shares), available) ensures Over(Positive(split.shares), available)[o] >= 0.0 {
      PartOrder(split.shares[o], available);
    }
  }

  lemma PartTimesWhole(value: int, whole: int)
    requires whole != 0
    ensures Part(value, whole) * whole as real == value as real
  {
  }

  /**
   * The parts of a fold are the numbers of its split over what is available: modelling for modelling, burn for what is
   * burned, and for each operator what it has, if it has anything.
   */
  lemma FoldExactly(split: Split, o: string)
    requires split.available > 0
    ensures FoldOf(split).modelling * split.available as real == split.modelling as real
    ensures FoldOf(split).burn * split.available as real == split.burned as real
    ensures Get(FoldOf(split).shares, o, 0.0) * split.available as real == Max(0, Get(split.shares, o, 0)) as real
    ensures o in FoldOf(split).shares <==> Get(split.shares, o, 0) > 0
  {
    PartTimesWhole(split.modelling, split.available);
    PartTimesWhole(split.burned, split.available);
    PartTimesWhole(Get(split.shares, o, 0), split.available);
  }

  /** A fold in the numbers of a split of the whole scale. */
  ghost predicate InNumbers(fold: Fold, split: Split) {
    && Times(fold.modelling, SERVING_SCALE as real) == split.modelling as real
    && Times(fold.burn, SERVING_SCALE as real) == split.burned as real
    && forall o :: Times(Get(fold.shares, o, 0.0), SERVING_SCALE as real) == Max(0, Get(split.shares, o, 0)) as real
  }

  lemma FoldInNumbers(split: Split)
    requires split.available == SERVING_SCALE
    ensures InNumbers(FoldOf(split), split)
  {
    FoldExactly(split, "");
    forall o
      ensures Times(Get(FoldOf(split).shares, o, 0.0), SERVING_SCALE as real) == Max(0, Get(split.shares, o, 0)) as real
    {
      FoldExactly(split, o);
    }
  }

  // ---------------------------------------------------------------- the fold with its fallback

  function CapDials(cap: real): Dials {
    Dials(0.0, cap, DEFAULT_REBATE, DEFAULT_REVENUE_SHARE)
  }

  /** Every setting of the serving block can be used. */
  ghost predicate Usable(cap: Result<real>, floors: Result<map<string, real>>, bountyShare: Result<real>) {
    && cap.Ok? && 0.0 <= cap.value <= 1.0 && floors.Ok?
    && bountyShare.Ok? && 0.0 <= bountyShare.value <= MAX_BOUNTY_SHARE
  }

  /** The split that is folded: from the settings, or of nothing at the default cap when one cannot be used. */
  ghost predicate Folded(split: Split, settled: seq<Settled>, cap: Result<real>, floors: Result<map<string, real>>,
                         bountyShare: Result<real>)
  {
    if Usable(cap, floors, bountyShare)
    then IsDivision(split, SERVING_SCALE, settled, CapDials(cap.value), floors.value, bountyShare.value)
    else IsDivision(split, SERVING_SCALE, [], CapDials(DEFAULT_CAP), map[], 0.0)
  }

  /** Whatever was settled and however the serving block reads, the fold makes up the whole emission. */
  lemma FoldConserves(split: Split, settled: seq<Settled>, cap: Result<real>, floors: Result<map<string, real>>,
                      bountyShare: Result<real>)
    requires Folded(split, settled, cap, floors, bountyShare)
    ensures split.available == SERVING_SCALE && Whole(FoldOf(split))
  {
    if Usable(cap, floors, bountyShare) {
      Conserved(split, SERVING_SCALE, settled, CapDials(cap.value), floors.value, bountyShare.value);
    } else {
      Conserved(split, SERVING_SCALE, [], CapDials(DEFAULT_CAP), map[], 0.0);
    }
    FoldIsWhole(split);
  }

  method ServingFold(settled: seq<Settled>, cap: Result<real>, floors: Result<map<string, real>>,
                     bountyShare: Result<real>)
    returns (fold: Fold, split: Split)
    ensures Folded(split, settled, cap, floors, bountyShare) && fold == FoldOf(split)
    ensures InNumbers(fold, split)
  {
    var found: Result<Split> := Err("the serving block is invalid");
    if cap.Ok? && floors.Ok? && bountyShare.Ok? {
      var dials := Checked(CapDials(cap.value));
      if dials.Ok? {
        found := Divide(SERVING_SCALE, settled, dials.value, floors.value, bountyShare.value);
      }
    }
    if found.Err? {
      found := Divide(SERVING_SCALE, [], CapDials(DEFAULT_CAP), map[], 0.0);
    }
    split := found.value;
    fold := FoldOf(split);
    FoldConserves(split, settled, cap, floors, bountyShare);
    FoldInNumbers(split);
  }

  /** The split that is folded is of the whole scale, and its serving pool the part of it that the cap allows. */
  lemma FoldedSplit(split: Split, settled: seq<Settled>, cap: Result<real>, floors: Result<map<string, real>>,
                    bountyShare: Result<real>)
    requires Folded(split, settled, cap, floors, bountyShare)
    ensures split.available == 1_000_000_000 && split.serving + split.modelling == 1_000_000_000
    ensures var usable := cap.Ok? && 0.0 <= cap.value <= 1.0 && floors.Ok?
                          && bountyShare.Ok? && 0.0 <= bountyShare.value <= 0.5;
      && IsPart(split.serving, SERVING_SCALE, if usable then cap.value else 0.1)
      && split.totalScore == ScoreSum(Earned(if usable then settled else []))
      && (split.capped <==> usable && !WithinOneOf(split.serving, BillingSum(Earned(settled)), 0.04))
  {
    FoldConserves(split, settled, cap, floors, bountyShare);
    if Usable(cap, floors, bountyShare) {
      Conserved(split, SERVING_SCALE, settled, CapDials(cap.value), floors.value, bountyShare.value);
      SplitExactly(split, SERVING_SCALE, settled, CapDials(cap.value), floors.value, bountyShare.value);
    } else {
      Conserved(split, SERVING_SCALE, [], CapDials(DEFAULT_CAP), map[], 0.0);
      SplitExactly(split, SERVING_SCALE, [], CapDials(DEFAULT_CAP), map[], 0.0);
    }
  }

  /** When a setting cannot be used, the serving pool of the default cap is burned to the last unit. */
  lemma FallbackBurns(split: Split, settled: seq<Settled>, cap: Result<real>, floors: Result<map<string, real>>,
                      bountyShare: Result<real>)
    requires Folded(split, settled, cap, floors, bountyShare) && !Usable(cap, floors, bountyShare)
    ensures Total(split.shares) == 0 && split.burned == split.serving == SERVING_SCALE / 10
  {
    Conserved(split, SERVING_SCALE, [], CapDials(DEFAULT_CAP), map[], 0.0);
    var amounts := AmountsOf(SERVING_SCALE, [], CapDials(DEFAULT_CAP), 0.0);
    AmountsFit(SERVING_SCALE, [], CapDials(DEFAULT_CAP), 0.0);
    assert Earned([]) == [];
    PayoutFits(amounts, [], split.excluded);
    NoFloors(amounts, [], Targets(amounts.ceiling, map[]), split.excluded);
  }

  lemma NoFloors(amounts: Amounts, settled: seq<Settled>, targets: map<string, int>, excluded: map<string, string>)
    requires targets == map[]
    ensures Books(amounts, settled, targets, excluded).shares
      == Left(EarnedShares(amounts, settled), BountiesOf(amounts, settled, excluded), excluded)
  {
    assert targets.Keys == {};
  }

  // ---------------------------------------------------------------- the weights

  /**
   * Pooled weights scaled to the modelling part, the operators' parts added, and the serving burn sent where there is
   * an address.
   */
  function WithServing(pooled: map<string, real>, fold: Fold, burnTo: string): map<string, real> {
    var folded := RealMerge(Scaled(pooled, fold.modelling), fold.shares);
    if fold.burn > 0.0 && burnTo != "" then folded[burnTo := Get(folded, burnTo, 0.0) + fold.burn] else folded
  }

  ghost function Pooled(pools: map<string, seq<Standing>>, burnTo: string): map<string, real> {
    Normalised(WithPools(map[], POOLS, pools, burnTo))
  }

  method MinerModeWeights(pools: map<string, seq<Standing>>, burnTo: string, fold: Fold)
    returns (weights: map<string, real>, burned: map<string, real>)
    ensures weights == Normalised(WithServing(Pooled(pools, burnTo), fold, burnTo))
    ensures burned == var of := WithBurns(map[], POOLS, pools); if fold.burn > 0.0 then of["serving" := fold.burn]
      else of
  {
    var pooled;
    pooled, burned := Combine(pools, burnTo);
    var folded := AddEntries(Scaled(pooled, fold.modelling), fold.shares);
    if fold.burn > 0.0 {
      burned := burned[SERVING := fold.burn];
      if burnTo != "" {
        folded := folded[burnTo := Get(folded, burnTo, 0.0) + fold.burn];
      }
    }
    weights := Normalise(folded);
  }

  lemma WithServingTotal(pooled: map<string, real>, fold: Fold, burnTo: string)
    requires fold.burn >= 0.0
    ensures RealTotal(WithServing(pooled, fold, burnTo))
      == Times(fold.modelling, RealTotal(pooled)) + RealTotal(fold.shares) + if burnTo != "" then fold.burn else 0.0
  {
    var folded := RealMerge(Scaled(pooled, fold.modelling), fold.shares);
    RealMergeTotal(Scaled(pooled, fold.modelling), fold.shares);
    ScaledTotal(pooled, fold.modelling);
    RealTotalUpdate(folded, burnTo, Get(folded, burnTo, 0.0) + fold.burn);
  }

  /** The combined pools come to one, or to nothing when no pool pays and there is no address to burn to. */
  lemma PooledTotal(pools: map<string, seq<Standing>>, burnTo: string)
    ensures RealTotal(Pooled(pools, burnTo)) == if Live(POOLS, pools, burnTo) > 0 then 1.0 else 0.0
  {
    var raw := WithPools(map[], POOLS, pools, burnTo);
    WithPoolsTotal(map[], POOLS, pools, burnTo);
    HandedAllBounds(POOLS, pools, burnTo);
    NormalisedTotal(raw);
  }

  /**
   * With an address to burn to, the folded weights come to exactly one before they are normalised, whatever the
   * standings and the serving split: normalising changes nothing.
   */
  lemma WeightsConserved(pools: map<string, seq<Standing>>, burnTo: string, fold: Fold)
    requires burnTo != "" && Whole(fold)
    ensures var folded := WithServing(Pooled(pools, burnTo), fold, burnTo);
      RealTotal(folded) == 1.0 && Normalised(folded) == folded
  {
    PooledTotal(pools, burnTo);
    AllLive(POOLS, pools, burnTo);
    WithServingTotal(Pooled(pools, burnTo), fold, burnTo);
    One(fold.modelling);
    NormalisedTotal(WithServing(Pooled(pools, burnTo), fold, burnTo));
  }

  /**
   * Without one, exactly what would have burned is missing, and normalising hands it to the others; no weights are sent
   * only when nobody earns anything.
   */
  lemma WeightsWithoutAddress(pools: map<string, seq<Standing>>, fold: Fold)
    requires Whole(fold)
    ensures var folded := WithServing(Pooled(pools, ""), fold, "");
      && RealTotal(folded) == 1.0 - fold.burn - (if Live(POOLS, pools, "") > 0 then 0.0 else fold.modelling)
      && RealTotal(Normalised(folded)) == if RealTotal(folded) > 0.0 then 1.0 else 0.0
  {
    PooledTotal(pools, "");
    WithServingTotal(Pooled(pools, ""), fold, "");
    One(fold.modelling);
    NormalisedTotal(WithServing(Pooled(pools, ""), fold, ""));
  }

  /**
   * One standing a hotkey and an address to burn to: nothing is rescaled anywhere, so each weight is the modelling part
   * of what the pools pay, the operator's part and the burn.
   */
  lemma WeightIsExact(pools: map<string, seq<Standing>>, burnTo: string, fold: Fold, hotkey: string)
    requires burnTo != "" && Whole(fold) && forall name :: name in pools ==> DistinctHotkeys(pools[name])
    ensures var weights := Normalised(WithServing(Pooled(pools, burnTo), fold, burnTo));
      Get(weights, hotkey, 0.0)
      == Times(fold.modelling, Get(WithPools(map[], POOLS, pools, burnTo), hotkey, 0.0))
         + Get(fold.shares, hotkey, 0.0) + if hotkey == burnTo then fold.burn else 0.0
  {
    WeightsConserved(pools, burnTo, fold);
    NothingRescaled(pools, burnTo);
    EntryOf(Pooled(pools, burnTo), fold, burnTo, hotkey);
  }

  /** Modelling, operators and burn of one hotkey, in the numbers of a split. */
  ghost function SplitGives(split: Split, pooled: real, hotkey: string, burnTo: string): real {
    Times(split.modelling as real, pooled) + Max(0, Get(split.shares, hotkey, 0)) as real
    + if hotkey == burnTo then split.burned as real else 0.0
  }

  /**
   * In the numbers of the split: with an address to burn to, the weights sent divide the whole scale into the modelling
   * part, shared as the pools are and all of it handed out, what each operator has, and what is burned.
   */
  lemma WeightInNumbers(pools: map<string, seq<Standing>>, burnTo: string, fold: Fold, split: Split, hotkey: string)
    requires burnTo != "" && Whole(fold) && InNumbers(fold, split)
    ensures RealTotal(Pooled(pools, burnTo)) == 1.0
    ensures var weights := Normalised(WithServing(Pooled(pools, burnTo), fold, burnTo));
      Times(Get(weights, hotkey, 0.0), SERVING_SCALE as real)
      == SplitGives(split, Get(Pooled(pools, burnTo), hotkey, 0.0), hotkey, burnTo)
  {
    PooledTotal(pools, burnTo);
    AllLive(POOLS, pools, burnTo);
    WeightsConserved(pools, burnTo, fold);
    EntryInNumbers(Pooled(pools, burnTo), fold, split, burnTo, hotkey);
  }

  lemma EntryInNumbers(pooled: map<string, real>, fold: Fold, split: Split, burnTo: string, hotkey: string)
    requires burnTo != "" && fold.burn >= 0.0 && InNumbers(fold, split)
    ensures Times(Get(WithServing(pooled, fold, burnTo), hotkey, 0.0), SERVING_SCALE as real)
      == SplitGives(split, Get(pooled, hotkey, 0.0), hotkey, burnTo)
  {
    EntryOf(pooled, fold, burnTo, hotkey);
    var burn := if hotkey == burnTo then fold.burn else 0.0;
    var burned := if hotkey == burnTo then split.burned else 0;
    EntryScaled(fold.modelling, Get(pooled, hotkey, 0.0), Get(fold.shares, hotkey, 0.0), burn, SERVING_SCALE as real,
                split.modelling, Max(0, Get(split.shares, hotkey, 0)), burned);
  }

  lemma EntryScaled(part: real, weight: real, share: real, burn: real, scale: real, modelling: int, own: int,
                    burned: int)
    requires Times(part, scale) == modelling as real && Times(share, scale) == own as real
    requires Times(burn, scale) == burned as real
    ensures Times(Times(part, weight) + share + burn, scale)
      == Times(modelling as real, weight) + own as real + burned as real
  {
    assert (part * weight + share + burn) * scale == (part * scale) * weight + share * scale + burn * scale;
  }

  /** The pools combined come to one before they are normalised. */
  lemma NothingRescaled(pools: map<string, seq<Standing>>, burnTo: string)
    requires burnTo != "" && forall name :: name in pools ==> DistinctHotkeys(pools[name])
    ensures Pooled(pools, burnTo) == WithPools(map[], POOLS, pools, burnTo)
  {
    WithPoolsTotal(map[], POOLS, pools, burnTo);
    HandedAllBounds(POOLS, pools, burnTo);
    AllLive(POOLS, pools, burnTo);
    NormalisedTotal(WithPools(map[], POOLS, pools, burnTo));
  }

  lemma EntryOf(pooled: map<string, real>, fold: Fold, burnTo: string, hotkey: string)
    requires fold.burn >= 0.0
    ensures Get(WithServing(pooled, fold, burnTo), hotkey, 0.0)
      == Times(fold.modelling, Get(pooled, hotkey, 0.0)) + Get(fold.shares, hotkey, 0.0) +
        if hotkey == burnTo != "" then fold.burn else 0.0
  {
    One(fold.modelling);
  }
}
