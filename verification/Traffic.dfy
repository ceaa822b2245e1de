/** What a division pays one operator for its own traffic, beside what that traffic was billed. */
module Traffic {
  import opened Dicts
  import opened Integers
  import opened Reals
  import opened Exclusion
  import opened ServingPools
  import opened Division

  // ---------------------------------------------------------------- pay and billing of one operator

  /** What an operator billed. */
  function OwnBilling(rows: seq<Settled>, operator: string): nat {
    if |rows| == 0 then 0
    else (if rows[0].operator == operator then rows[0].billing else 0) + OwnBilling(rows[1..], operator)
  }

  /** What an operator is paid for its traffic: its share less the floor and the bounty in it. */
  function TrafficPay(split: Split, o: string): int {
    Get(split.shares, o, 0) - Get(split.floors, o, 0) - Get(split.bounties, o, 0)
  }

  /** The share of an operator that stays in. */
  function OwnShare(shares: map<string, int>, excluded: map<string, string>, o: string): int {
    if o in excluded then 0 else Get(shares, o, 0)
  }

  lemma LeftAt(shares: map<string, int>, bounties: map<string, int>, excluded: map<string, string>, o: string)
    ensures Get(Left(shares, bounties, excluded), o, 0) == Get(bounties, o, 0) + OwnShare(shares, excluded, o)
  {
  }

  lemma PaidBeyond(
    ceiling: int, before: map<string, int>, bounty: int, share: int, targets: map<string, int>, o: string)
    requires Get(before, o, 0) == bounty + share
    ensures var books := Granted(ceiling, before, targets);
      Get(books.shares, o, 0) - Get(books.granted, o, 0) - bounty == share
  {
    GrantedAdds(ceiling, before, targets, o);
  }

  /** Whatever the floors and bounties, what is paid for traffic is the share by score. */
  lemma PayIsShare(split: Split, amounts: Amounts, settled: seq<Settled>, targets: map<string, int>, o: string)
    requires Divides(split, amounts, settled, targets)
    ensures TrafficPay(split, o) == OwnShare(EarnedShares(amounts, settled), split.excluded, o)
  {
    var shares, bounties := EarnedShares(amounts, settled), BountiesOf(amounts, settled, split.excluded);
    LeftAt(shares, bounties, split.excluded, o);
    PaidBeyond(amounts.ceiling, Left(shares, bounties, split.excluded), Get(bounties, o, 0),
               OwnShare(shares, split.excluded, o), targets, o);
  }

  lemma {:induction false} OwnWithinAll(rows: seq<Settled>, o: string)
    ensures OwnBilling(rows, o) <= BillingSum(rows)
    decreases |rows|
  {
    if |rows| > 0 {
      OwnWithinAll(rows[1..], o);
    }
  }

  // ---------------------------------------------------------------- when one's own traffic loses

  /** Pay but for some units. */
  function Net(pay: int, units: nat): int {
    pay - units
  }

  /**
   * In every division of these rows, whatever the emission, the dials, the floors and the bounties: what the operator
   * is paid for its traffic, but for these units, and the levy on its billing stay below its billing.
   */
  ghost predicate AlwaysLoses(settled: seq<Settled>, o: string, units: nat) {
    forall split, emission, dials, floors, bountyShare ::
      emission >= 0 && Allowed(dials) && 0.0 <= bountyShare <= MAX_BOUNTY_SHARE
      && IsDivision(split, emission, settled, dials, floors, bountyShare)
      ==> BelowBilling(Net(TrafficPay(split, o), units), OwnBilling(Earned(settled), o), dials.revenueShare)
  }

  /**
   * Of every amount short of all that was billed, the operator's share by score, but for these units, is no larger
   * a part than its billing is of all billing.
   */
  ghost predicate NeverOverpaid(earned: seq<Settled>, o: string, units: nat) {
    forall serving :: 0 < serving < BillingSum(earned) ==> InBillingProportion(serving, earned, o, units)
  }

  ghost predicate InBillingProportion(serving: int, earned: seq<Settled>, o: string, units: nat) {
    InProportion(Net(Get(Shares(serving, earned), o, 0), units), BillingSum(earned), serving, OwnBilling(earned, o))
  }

  ghost predicate AtMostRebate(pay: int, billing: int, rebate: real) {
    pay as real <= billing as real * rebate
  }

  lemma AsReals(a: int, b: int, c: int, d: int)
    requires InProportion(a, b, c, d)
    ensures a as real * b as real <= c as real * d as real
  {
    assert (a * b) as real == a as real * b as real;
    assert (c * d) as real == c as real * d as real;
  }

  /** A part in proportion of something within the rebate is within the rebate. */
  lemma RebatePart(pay: int, billed: nat, serving: int, billing: nat, rebate: real)
    requires billed > 0 && InProportion(pay, billed, serving, billing) && AtMostRebate(serving, billed, rebate)
    ensures AtMostRebate(pay, billing, rebate)
  {
    var all, b := billed as real, billing as real;
    AsReals(pay, billed, serving, billing);
    NonNegativeTimes(all * rebate - serving as real, b);
    assert (all * rebate - serving as real) * b == (b * rebate) * all - serving as real * b;
    FactorOrder(pay as real, b * rebate, all);
  }

  /** What is rebated is short of what was billed. */
  lemma RebateShort(serving: int, billed: nat, rebate: real)
    requires billed > 0 && rebate < 1.0 && AtMostRebate(serving, billed, rebate)
    ensures serving < billed
  {
    PositiveTimes(billed as real, 1.0 - rebate);
  }

  lemma NonPositivePay(pay: int, billing: nat, rebate: real)
    requires pay <= 0 && rebate >= 0.0
    ensures AtMostRebate(pay, billing, rebate)
  {
    NonNegativeTimes(billing as real, rebate);
  }

  /** No pay without anything to share, and short of all that was billed pay in proportion to billing. */
  ghost predicate PayFits(pay: int, serving: int, billed: nat, billing: nat) {
    && (serving <= 0 ==> pay <= 0)
    && (0 < serving < billed ==> InProportion(pay, billed, serving, billing))
  }

  lemma NothingFits(pay: int, serving: int, billed: nat, billing: nat)
    requires pay <= 0
    ensures PayFits(pay, serving, billed, billing)
  {
    if serving > 0 {
      Scale(pay, 0, billed);
      Scale(0, serving, billing);
    }
  }

  lemma OwnShareFits(serving: int, earned: seq<Settled>, excluded: map<string, string>, o: string, units: nat)
    requires o in excluded || NeverOverpaid(earned, o, units)
    ensures PayFits(Net(OwnShare(Shares(serving, earned), excluded, o), units), serving, BillingSum(earned),
                    OwnBilling(earned, o))
  {
    if o in excluded || serving <= 0 {
      NothingFits(Net(OwnShare(Shares(serving, earned), excluded, o), units), serving, BillingSum(earned),
                  OwnBilling(earned, o));
    } else if serving < BillingSum(earned) {
      assert InBillingProportion(serving, earned, o, units);
    }
  }

  lemma FittingWithinRebate(pay: int, serving: int, billed: nat, billing: nat, rebate: real)
    requires 0.0 <= rebate < 1.0 && AtMostRebate(serving, billed, rebate)
    requires 0 < billing <= billed && PayFits(pay, serving, billed, billing)
    ensures AtMostRebate(pay, billing, rebate)
  {
    if serving <= 0 {
      NonPositivePay(pay, billing, rebate);
    } else {
      RebateShort(serving, billed, rebate);
      RebatePart(pay, billed, serving, billing, rebate);
    }
  }

  lemma RebatedIsBelow(pay: int, billing: nat, dials: Dials)
    requires Allowed(dials) && AtMostRebate(pay, billing, dials.rebate)
    ensures BelowBilling(pay, billing, dials.revenueShare)
  {
    if billing > 0 {
      Below(billing as real, pay as real, dials.rebate, dials.revenueShare);
    }
  }

  lemma FittingPayLoses(pay: int, serving: int, billed: nat, billing: nat, dials: Dials)
    requires Allowed(dials) && AtMostRebate(serving, billed, dials.rebate)
    requires billing <= billed && PayFits(pay, serving, billed, billing)
    ensures BelowBilling(pay, billing, dials.revenueShare)
  {
    if billing > 0 {
      FittingWithinRebate(pay, serving, billed, billing, dials.rebate);
      RebatedIsBelow(pay, billing, dials);
    }
  }

  lemma ServingWithinRebate(amounts: Amounts, billed: nat, rebate: real)
    requires Fit(amounts) && amounts.rebated == PartOf(billed, rebate) && rebate >= 0.0
    ensures AtMostRebate(amounts.paid - amounts.reserve, billed, rebate)
  {
    CutNonNegative(billed, rebate);
  }

  /** With the operator's share by score for its pay. */
  lemma ShareLoses(pay: int, amounts: Amounts, settled: seq<Settled>, excluded: map<string, string>, dials: Dials,
                   o: string, units: nat)
    requires Allowed(dials)
    requires AtMostRebate(amounts.paid - amounts.reserve, BillingSum(Earned(settled)), dials.rebate)
    requires pay == OwnShare(EarnedShares(amounts, settled), excluded, o)
    requires o in excluded || NeverOverpaid(Earned(settled), o, units)
    ensures BelowBilling(Net(pay, units), OwnBilling(Earned(settled), o), dials.revenueShare)
  {
    OwnWithinAll(Earned(settled), o);
    OwnShareFits(amounts.paid - amounts.reserve, Earned(settled), excluded, o, units);
    FittingPayLoses(Net(pay, units), amounts.paid - amounts.reserve, BillingSum(Earned(settled)),
                    OwnBilling(Earned(settled), o), dials);
  }

  lemma TrafficLoses(split: Split, amounts: Amounts, settled: seq<Settled>, targets: map<string, int>, dials: Dials,
                     o: string, units: nat)
    requires Divides(split, amounts, settled, targets) && Allowed(dials)
    requires AtMostRebate(amounts.paid - amounts.reserve, BillingSum(Earned(settled)), dials.rebate)
    requires o in split.excluded || NeverOverpaid(Earned(settled), o, units)
    ensures BelowBilling(Net(TrafficPay(split, o), units), OwnBilling(Earned(settled), o), dials.revenueShare)
  {
    PayIsShare(split, amounts, settled, targets, o);
    ShareLoses(TrafficPay(split, o), amounts, settled, split.excluded, dials, o, units);
  }

  lemma DivisionLoses(split: Split, emission: int, settled: seq<Settled>, dials: Dials, floors: map<string, real>,
                      bountyShare: real, o: string, units: nat)
    requires emission >= 0 && Allowed(dials) && 0.0 <= bountyShare <= MAX_BOUNTY_SHARE
    requires IsDivision(split, emission, settled, dials, floors, bountyShare)
    requires o in split.excluded || NeverOverpaid(Earned(settled), o, units)
    ensures BelowBilling(Net(TrafficPay(split, o), units), OwnBilling(Earned(settled), o), dials.revenueShare)
  {
    var amounts := AmountsOf(emission, Earned(settled), dials, bountyShare);
    AmountsFit(emission, Earned(settled), dials, bountyShare);
    ServingWithinRebate(amounts, BillingSum(Earned(settled)), dials.rebate);
    TrafficLoses(split, amounts, settled, Targets(amounts.ceiling, floors), dials, o, units);
  }

  lemma NeverOverpaidLoses(settled: seq<Settled>, o: string, units: nat)
    requires IsOut(settled, o) || NeverOverpaid(Earned(settled), o, units)
    ensures AlwaysLoses(settled, o, units)
  {
    forall split, emission, dials, floors, bountyShare |
      emission >= 0 && Allowed(dials) && 0.0 <= bountyShare <= MAX_BOUNTY_SHARE
      && IsDivision(split, emission, settled, dials, floors, bountyShare)
      ensures BelowBilling(Net(TrafficPay(split, o), units), OwnBilling(Earned(settled), o), dials.revenueShare)
    {
      DivisionLoses(split, emission, settled, dials, floors, bountyShare, o, units);
    }
  }

  // ---------------------------------------------------------------- and when it does not

  lemma DivisionExists(emission: int, settled: seq<Settled>, dials: Dials, floors: map<string, real>, bountyShare: real)
    returns (split: Split)
    ensures IsDivision(split, emission, settled, dials, floors, bountyShare)
  {
    var excluded := ExclusionExists(settled);
    var amounts := AmountsOf(emission, Earned(settled), dials, bountyShare);
    var books := Books(amounts, settled, Targets(amounts.ceiling, floors), excluded);
    split := Split(emission, amounts.available, amounts.ceiling, amounts.available - amounts.ceiling,
                   ScoreSum(Earned(settled)), amounts.rebated > amounts.ceiling, books.shares,
                   amounts.ceiling - Total(books.shares), books.granted, BountiesOf(amounts, settled, excluded),
                   excluded);
  }

  /** The smallest levy with which this pay makes up for the billing. */
  function BreakEven(pay: int, billing: nat): real
    requires billing > 0
  {
    if pay >= billing then 0.0 else 1.0 - Part(pay, billing)
  }

  /** Dials under which all of an amount short of the billing is rebated, with that levy. */
  function Generous(serving: int, billed: nat, pay: int, billing: nat): Dials
    requires billed > 0 && billing > 0
  {
    Dials(0.0, 1.0, Part(serving, billed), BreakEven(pay, billing))
  }

  lemma PartBelow(a: int, b: int, c: int, d: int)
    requires b > 0 && d > 0 && a * d < c * b
    ensures Part(a, b) < Part(c, d)
  {
    assert (a * d) as real == a as real * d as real && (c * b) as real == c as real * b as real;
    var p, q := Part(a, b), Part(c, d);
    assert p * b as real == a as real && q * d as real == c as real;
    var whole := b as real * d as real;
    PositiveTimes(b as real, d as real);
    assert p * whole == a as real * d as real && q * whole == c as real * b as real;
    if q <= p {
      Steps(whole, q, p, p);
    }
  }

  lemma GenerousAllowed(serving: int, billed: nat, pay: int, billing: nat)
    requires 0 < serving < billed && billing > 0 && !InProportion(pay, billed, serving, billing)
    ensures Allowed(Generous(serving, billed, pay, billing))
  {
    PartBelow(serving, billed, pay, billing);
    PartBelow(serving, billed, 1, 1);
    PartOrder(serving, billed);
  }

  lemma GenerousPays(serving: int, billed: nat, pay: int, billing: nat)
    requires billed > 0 && billing > 0
    ensures !BelowBilling(pay, billing, Generous(serving, billed, pay, billing).revenueShare)
  {
    if pay < billing {
      assert Part(pay, billing) * billing as real == pay as real;
      OneLess(Part(pay, billing), billing as real);
    }
  }

  lemma GenerousAmounts(serving: int, earned: seq<Settled>, pay: int, billing: nat)
    requires 0 < serving < BillingSum(earned) && billing > 0
    ensures AmountsOf(serving, earned, Generous(serving, BillingSum(earned), pay, billing), 0.0)
      == Amounts(serving, serving, serving, serving, 0)
  {
    assert PartOf(serving, 1.0) == serving && PartOf(serving, 0.0) == 0;
    Undivided(serving as real, BillingSum(earned) as real);
    assert PartOf(BillingSum(earned), Part(serving, BillingSum(earned))) == serving;
  }

  lemma OverpaidSometimes(settled: seq<Settled>, o: string, units: nat, serving: int)
    requires OwnBilling(Earned(settled), o) > 0 && !IsOut(settled, o)
    requires 0 < serving < BillingSum(Earned(settled)) && !InBillingProportion(serving, Earned(settled), o, units)
    ensures !AlwaysLoses(settled, o, units)
  {
    var earned := Earned(settled);
    var pay, billing := Net(Get(Shares(serving, earned), o, 0), units), OwnBilling(earned, o);
    var dials := Generous(serving, BillingSum(earned), pay, billing);
    GenerousAllowed(serving, BillingSum(earned), pay, billing);
    GenerousPays(serving, BillingSum(earned), pay, billing);
    GenerousAmounts(serving, earned, pay, billing);
    var split := DivisionExists(serving, settled, dials, map[], 0.0);
    var amounts := AmountsOf(serving, earned, dials, 0.0);
    PayIsShare(split, amounts, settled, Targets(amounts.ceiling, map[]), o);
  }

  /**
   * Exactly when an operator that billed something loses by its own traffic in every division, but for some units:
   * when it is excluded, or its share is never beyond the proportion of its billing by more than these units. The
   * amounts to try are finitely many, and the shares are the ones ComputeShares finds.
   */
  lemma LosesExactly(settled: seq<Settled>, o: string, units: nat)
    requires OwnBilling(Earned(settled), o) > 0
    ensures AlwaysLoses(settled, o, units) <==> IsOut(settled, o) || NeverOverpaid(Earned(settled), o, units)
  {
    if IsOut(settled, o) || NeverOverpaid(Earned(settled), o, units) {
      NeverOverpaidLoses(settled, o, units);
    } else {
      var serving :| 0 < serving < BillingSum(Earned(settled))
                     && !InBillingProportion(serving, Earned(settled), o, units);
      OverpaidSometimes(settled, o, units, serving);
    }
  }

  // ---------------------------------------------------------------- in closed form

  /** Its part of the scores is no larger than its part of the billing. */
  predicate ScoresAsBilled(rows: seq<Settled>, o: string) {
    InProportion(Score(rows, o), BillingSum(rows), OwnBilling(rows, o), ScoreSum(rows))
  }

  /** The operator that gets what rounding leaves. */
  ghost predicate IsLargest(earned: seq<Settled>, o: string) {
    var totals := Tallied(map[], earned);
    totals != map[] && o == Largest(totals)
  }

  lemma ChainProportions(pay: int, whole: int, serving: int, score: int, billed: int, billing: int)
    requires whole > 0 && serving >= 0 && billed >= 0
    requires InProportion(pay, whole, serving, score) && InProportion(score, billed, billing, whole)
    ensures InProportion(pay, billed, serving, billing)
  {
    Scale(pay * whole, serving * score, billed);
    Scale(score * billed, billing * whole, serving);
    assert pay * whole * billed == whole * (pay * billed);
    assert serving * score * billed == score * billed * serving;
    assert billing * whole * serving == (serving * billing) * whole;
    AtMost(whole, pay * billed, serving * billing);
  }

  lemma AsBilledNeverOverpaid(earned: seq<Settled>, o: string)
    requires ScoreSum(earned) > 0 && ScoresAsBilled(earned, o)
    ensures NeverOverpaid(earned, o, Beyond(earned, o))
  {
    forall serving | 0 < serving < BillingSum(earned)
      ensures InBillingProportion(serving, earned, o, Beyond(earned, o))
    {
      ShareByScore(serving, earned, o);
      ChainProportions(Net(Get(Shares(serving, earned), o, 0), Beyond(earned, o)), ScoreSum(earned), serving,
                       Score(earned, o), BillingSum(earned), OwnBilling(earned, o));
    }
  }

  lemma PortionOfWhole(score: int, whole: int)
    requires whole > 0
    ensures ServingPools.Portion(whole, score, whole) == score
  {
    PortionBounds(whole, score, whole);
    var r := ServingPools.Portion(whole, score, whole);
    if r < score {
      Scale(r + 1, score, whole);
    } else {
      Scale(score, r, whole);
      AtMost(whole, r, score);
    }
  }

  /** When exactly the sum of the scores is handed out, everybody gets its score. */
  lemma ScoresHandedOut(earned: seq<Settled>, o: string)
    requires ScoreSum(earned) > 0 && !IsLargest(earned, o)
    ensures Get(Shares(ScoreSum(earned), earned), o, 0) == Score(earned, o)
  {
    TalliedTotal(map[], earned);
    TalliedScore(map[], earned, o);
    if o in Tallied(map[], earned) {
      ShareIs(ScoreSum(earned), earned, o);
      PortionOfWhole(Score(earned, o), ScoreSum(earned));
    } else {
      NoShare(ScoreSum(earned), earned, o);
    }
  }

  lemma AsBilledExactly(earned: seq<Settled>, o: string)
    requires !IsLargest(earned, o) && 0 < ScoreSum(earned) < BillingSum(earned)
    ensures NeverOverpaid(earned, o, 0) <==> ScoresAsBilled(earned, o)
  {
    if NeverOverpaid(earned, o, 0) {
      assert InBillingProportion(ScoreSum(earned), earned, o, 0);
      ScoresHandedOut(earned, o);
    }
    if ScoresAsBilled(earned, o) {
      AsBilledNeverOverpaid(earned, o);
    }
  }

  lemma {:induction false} ZerosTotal(m: map<string, int>)
    requires forall o :: o in m ==> m[o] == 0
    ensures Total(m) == 0
    decreases |m|
  {
    if m != map[] {
      ZerosTotal(m - {AnyKey(m)});
    }
  }

  lemma PortionOfUnit(score: int, whole: int)
    requires whole > 0 && score >= 0
    ensures score < whole ==> ServingPools.Portion(1, score, whole) == 0
    ensures score >= whole ==> ServingPools.Portion(1, score, whole) >= 1
  {
    PortionBounds(1, score, whole);
    var r := ServingPools.Portion(1, score, whole);
    if r >= 1 {
      Scale(1, r, whole);
    } else {
      Scale(r + 1, 1, whole);
    }
  }

  lemma NoUnitPortions(totals: map<string, int>, whole: int)
    requires whole > 0 && forall p :: p in totals ==> 0 <= totals[p] < whole
    ensures Total(Portions(1, totals, whole)) == 0
  {
    forall p | p in totals ensures ServingPools.Portion(1, totals[p], whole) == 0 {
      PortionOfUnit(totals[p], whole);
    }
    ZerosTotal(Portions(1, totals, whole));
  }

  lemma LargestIsLargest(totals: map<string, int>)
    requires totals != map[]
    ensures forall p :: p in totals ==> totals[p] <= totals[Largest(totals)]
  {
    TopExists(totals);
    forall p | p in totals ensures totals[p] <= totals[Largest(totals)] {
      assert TopLe(totals, p, Largest(totals));
    }
  }

  /** A single unit goes to the largest: in one piece, or as what rounding leaves. */
  lemma UnitToLargest(earned: seq<Settled>, o: string)
    requires ScoreSum(earned) > 0 && IsLargest(earned, o)
    ensures Get(Shares(1, earned), o, 0) >= 1
  {
    var totals := Tallied(map[], earned);
    TalliedTotal(map[], earned);
    LargestIsLargest(totals);
    ShareIs(1, earned, o);
    PortionsFit(1, totals);
    PortionOfUnit(totals[o], Total(totals));
    if totals[o] < Total(totals) {
      NoUnitPortions(totals, Total(totals));
    }
  }

  lemma ShareWithinServing(serving: int, earned: seq<Settled>, o: string)
    requires serving > 0
    ensures Get(Shares(serving, earned), o, 0) <= serving
  {
    var shares := Shares(serving, earned);
    SharesExact(serving, earned);
    if o in shares {
      TotalSplit(shares, o);
      TotalOfPart(shares, {o});
    }
  }

  lemma OnlyBillerExactly(earned: seq<Settled>, o: string)
    requires ScoreSum(earned) > 0 && OwnBilling(earned, o) > 0 && IsLargest(earned, o)
    ensures NeverOverpaid(earned, o, 0) <==> OwnBilling(earned, o) == BillingSum(earned)
  {
    OwnWithinAll(earned, o);
    if NeverOverpaid(earned, o, 0) && BillingSum(earned) > 1 {
      assert InBillingProportion(1, earned, o, 0);
      UnitToLargest(earned, o);
      Scale(1, Get(Shares(1, earned), o, 0), BillingSum(earned));
    }
    if OwnBilling(earned, o) == BillingSum(earned) {
      forall serving | 0 < serving < BillingSum(earned) ensures InBillingProportion(serving, earned, o, 0) {
        ShareWithinServing(serving, earned, o);
        Scale(Get(Shares(serving, earned), o, 0), serving, BillingSum(earned));
      }
    }
  }

  lemma BillingScores(settled: seq<Settled>, o: string)
    requires OwnBilling(Earned(settled), o) > 0
    ensures ScoreSum(Earned(settled)) > 0
  {
    assert Earned(settled) != [] && Earned(settled)[0] in Earned(settled);
  }

  /**
   * The operator that scored most can only be sure to lose if nobody else billed anything: it takes every last unit.
   */
  lemma LargestLosesExactly(settled: seq<Settled>, o: string)
    requires OwnBilling(Earned(settled), o) > 0 && IsLargest(Earned(settled), o)
    ensures AlwaysLoses(settled, o, 0)
      <==> IsOut(settled, o) || OwnBilling(Earned(settled), o) == BillingSum(Earned(settled))
  {
    BillingScores(settled, o);
    LosesExactly(settled, o, 0);
    OnlyBillerExactly(Earned(settled), o);
  }

  /**
   * Any other, with more billed than scored in all: if and only if its part of the scores is no larger than of the
   * billing.
   */
  lemma OthersLoseExactly(settled: seq<Settled>, o: string)
    requires OwnBilling(Earned(settled), o) > 0 && !IsLargest(Earned(settled), o)
    requires ScoreSum(Earned(settled)) < BillingSum(Earned(settled))
    ensures AlwaysLoses(settled, o, 0) <==> IsOut(settled, o) || ScoresAsBilled(Earned(settled), o)
  {
    BillingScores(settled, o);
    LosesExactly(settled, o, 0);
    AsBilledExactly(Earned(settled), o);
  }

  /**
   * Whatever was billed and scored in all, scores as billed make every operator lose but for the units rounding leaves
   * it.
   */
  lemma OwnTrafficLoses(settled: seq<Settled>, o: string)
    requires ScoresAsBilled(Earned(settled), o)
    ensures AlwaysLoses(settled, o, Beyond(Earned(settled), o))
  {
    if OwnBilling(Earned(settled), o) > 0 {
      BillingScores(settled, o);
      AsBilledNeverOverpaid(Earned(settled), o);
      NeverOverpaidLoses(settled, o, Beyond(Earned(settled), o));
    }
  }
  ghost predicate AllOwn(rows: seq<Settled>, o: string) {
    forall row :: row in rows ==> row.operator == o
  }

  lemma {:induction false} OwnRows(rows: seq<Settled>, o: string)
    requires AllOwn(rows, o)
    ensures Score(rows, o) == ScoreSum(rows) && OwnBilling(rows, o) == BillingSum(rows)
    decreases |rows|
  {
    if |rows| > 0 {
      assert rows[0] in rows && rows == [rows[0]] + rows[1..] && [rows[0]][..0] == [];
      OwnRows(rows[1..], o);
      ScoreAppend([rows[0]], rows[1..], o);
    }
  }

  lemma OneKey(rows: seq<Settled>, o: string)
    requires AllOwn(rows, o)
    ensures Beyond(rows, o) == 0
  {
    var totals := Tallied(map[], rows);
    forall k | k in totals ensures k == o {
      TalliedKeys(map[], rows, k);
    }
    assert totals.Keys <= {o};
    if totals != map[] {
      assert totals.Keys == {o};
      assert |totals| == |totals.Keys| == 1;
    }
  }

  /** An operator that bills and scores alone loses to the last unit. */
  lemma LoneTrafficLoses(settled: seq<Settled>, o: string)
    requires AllOwn(Earned(settled), o)
    ensures AlwaysLoses(settled, o, 0)
  {
    OwnRows(Earned(settled), o);
    OneKey(Earned(settled), o);
    OwnTrafficLoses(settled, o);
  }

  // Little billed and much scored: the rebate follows the scores, not the billing.

  const MUCH := 1_000_000

  function LittleAndMuch(): seq<Settled> {
    [Settled("a", 1, MUCH, "", false, []), Settled("b", MUCH, 1, "", false, [])]
  }

  lemma SumsOfOne(y: Settled, o: string)
    requires y.score > 0 && o != y.operator
    ensures Earned([y]) == [y] && ScoreSum([y]) == y.score && BillingSum([y]) == y.billing && OwnBilling([y], o) == 0
  {
    assert [y][1..] == [];
    assert Earned([]) == [] && [y] + [] == [y];
    assert ScoreSum([]) == 0 && BillingSum([]) == 0 && OwnBilling([], o) == 0;
  }

  lemma SumsOfTwo(x: Settled, y: Settled)
    requires x.score > 0 && y.score > 0 && x.operator != y.operator
    ensures Earned([x, y]) == [x, y]
    ensures ScoreSum([x, y]) == x.score + y.score && BillingSum([x, y]) == x.billing + y.billing
    ensures Score([x, y], x.operator) == x.score && OwnBilling([x, y], x.operator) == x.billing
    ensures x.coldkey == "" && !x.team && !y.team ==> !OnTeam([x, y], x.operator) && ColdkeyOf([x, y], x.operator) == ""
  {
    assert [x, y][1..] == [y] && [y][1..] == [];
    assert [x, y][..1] == [x] && [x][..0] == [];
    assert [x] + [y] == [x, y];
    SumsOfOne(y, x.operator);
    assert Score([x], x.operator) == x.score && ColdkeyOf([x], x.operator) == x.coldkey;
    assert !x.team ==> !OnTeam([x], x.operator);
  }

  lemma TwoAmounts(earned: seq<Settled>)
    requires earned != [] && BillingSum(earned) == MUCH + 1
    ensures var amounts := AmountsOf(1000 * MUCH, earned, Dials(0.0, 0.1, 0.04, 0.95), 0.0);
      amounts.paid == 40_000 && amounts.reserve == 0
  {
    assert PartOf(1000 * MUCH, 1.0) == 1000 * MUCH && PartOf(1000 * MUCH, 0.1) == 100 * MUCH;
    assert PartOf(MUCH + 1, 0.04) == 40_000 && PartOf(40_000, 0.0) == 0;
  }

  /**
   * Beside one that billed a million and scored one, an operator that billed one and scored a million takes nearly the
   * whole rebate: far more than it billed.
   */
  lemma LittleBilledMuchPaid(split: Split)
    requires IsDivision(split, 1000 * MUCH, LittleAndMuch(), Dials(0.0, 0.1, 0.04, 0.95), map[], 0.0)
    ensures OwnBilling(Earned(LittleAndMuch()), "a") == 1 && TrafficPay(split, "a") >= 39_999
    ensures !BelowBilling(TrafficPay(split, "a"), 1, 0.95)
  {
    var rows, dials := LittleAndMuch(), Dials(0.0, 0.1, 0.04, 0.95);
    SumsOfTwo(rows[0], rows[1]);
    TwoAmounts(rows);
    LittleStays(split.excluded);
    var amounts := AmountsOf(1000 * MUCH, rows, dials, 0.0);
    LittlePay(split, amounts, rows, Targets(amounts.ceiling, map[]));
    EarnedByAll(amounts, rows);
    ShareOfMuch(amounts.paid - amounts.reserve, rows);
  }

  lemma LittleStays(excluded: map<string, string>)
    requires IsExclusion(LittleAndMuch(), excluded)
    ensures "a" !in excluded
  {
    var rows := LittleAndMuch();
    SumsOfTwo(rows[0], rows[1]);
    assert !OnTeam(rows, "a") && ColdkeyOf(rows, "a") == "";
  }

  lemma LittlePay(split: Split, amounts: Amounts, rows: seq<Settled>, targets: map<string, int>)
    requires Divides(split, amounts, rows, targets) && "a" !in split.excluded
    ensures TrafficPay(split, "a") == Get(EarnedShares(amounts, rows), "a", 0)
  {
    PayIsShare(split, amounts, rows, targets, "a");
  }

  lemma EarnedByAll(amounts: Amounts, rows: seq<Settled>)
    requires Earned(rows) == rows
    ensures EarnedShares(amounts, rows) == Shares(amounts.paid - amounts.reserve, rows)
  {
  }

  lemma ShareOfMuch(serving: int, rows: seq<Settled>)
    requires serving == 40_000 && ScoreSum(rows) == MUCH + 1 && Score(rows, "a") == MUCH
    ensures Get(Shares(serving, rows), "a", 0) >= 39_999
  {
    TalliedScore(map[], rows, "a");
    TalliedTotal(map[], rows);
    SharesProportional(serving, rows, "a");
    MuchOfAll(Get(Shares(serving, rows), "a", 0));
  }

  lemma MuchOfAll(share: int)
    requires 40_000 * MUCH < (share + 1) * (MUCH + 1)
    ensures share >= 39_999
  {
  }

}
