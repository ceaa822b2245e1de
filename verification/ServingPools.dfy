/** Dividing an epoch's emission between the inference operators, the bounties, the floors and the burn. */
module ServingPools {
  import opened Prelude
  import opened Sorting
  import opened Dicts
  import opened Integers
  import opened Exclusion
  import Strings

  const MAX_BOUNTY_SHARE: real := 0.5

  /** int() of a fraction cuts towards zero. */
  function Cut(x: real): int {
    if x >= 0.0 then x.Floor else -((-x).Floor)
  }

  // ---------------------------------------------------------------- the dials

  datatype Dials = Dials(reserve: real, cap: real, rebate: real, revenueShare: real)

  ghost predicate Allowed(d: Dials) {
    && 0.0 <= d.reserve < 1.0 && 0.0 <= d.cap <= 1.0 && d.rebate >= 0.0 && 0.0 <= d.revenueShare <= 1.0
    && d.rebate < 1.0 - d.revenueShare
  }

  function Checked(d: Dials): (r: Result<Dials>)
    ensures r.Ok? <==> Allowed(d)
    ensures r.Ok? ==> r.value == d
  {
    if !(0.0 <= d.reserve < 1.0) then Err("reserve")
    else if !(0.0 <= d.cap <= 1.0) then Err("cap")
    else if d.rebate < 0.0 then Err("negative rebate")
    else if !(0.0 <= d.revenueShare <= 1.0) then Err("revenue share")
    else if d.rebate >= 1.0 - d.revenueShare then Err("the rebate does not exclude manufactured traffic")
    else Ok(d)
  }

  // ---------------------------------------------------------------- earned shares

  function Earned(rows: seq<Settled>): (earned: seq<Settled>)
    ensures forall row :: row in earned <==> row in rows && row.score > 0
  {
    if |rows| == 0 then []
    else if rows[0].score > 0 then [rows[0]] + Earned(rows[1..])
    else Earned(rows[1..])
  }

  function ScoreSum(rows: seq<Settled>): nat {
    if |rows| == 0 then 0 else rows[0].score + ScoreSum(rows[1..])
  }

  function BillingSum(rows: seq<Settled>): nat {
    if |rows| == 0 then 0 else rows[0].billing + BillingSum(rows[1..])
  }

  /** Scores summed per operator, row by row. */
  function Tallied(totals: map<string, int>, rows: seq<Settled>): map<string, int>
    decreases |rows|
  {
    if |rows| == 0 then totals
    else Tallied(totals[rows[0].operator := Get(totals, rows[0].operator, 0) + rows[0].score], rows[1..])
  }

  predicate TopLe(totals: map<string, int>, a: string, b: string) {
    Get(totals, a, 0) < Get(totals, b, 0) || (Get(totals, a, 0) == Get(totals, b, 0) && Strings.Le(a, b))
  }

  lemma TopExists(totals: map<string, int>)
    requires totals != map[]
    ensures exists top :: top in totals && forall other :: other in totals.Keys ==> TopLe(totals, other, top)
    ensures forall a, b :: TopLe(totals, a, b) && TopLe(totals, b, a) ==> a == b
  {
    Strings.LeOrdering();
    var below := (a: string, b: string) => TopLe(totals, b, a);
    var top := Least(totals.Keys, below);
    assert forall other :: other in totals.Keys ==> below(top, other);
  }

  /** max(totals, key=(total, name)) */
  ghost function Largest(totals: map<string, int>): (top: string)
    requires totals != map[]
    ensures top in totals
  {
    TopExists(totals);
    var top :| top in totals.Keys && forall other :: other in totals.Keys ==> TopLe(totals, other, top);
    top
  }

  /** No total is higher, and of equal ones no name comes later. */
  lemma LargestExactly(totals: map<string, int>, other: string)
    requires totals != map[] && other in totals && other != Largest(totals)
    ensures totals[other] < totals[Largest(totals)]
      || (totals[other] == totals[Largest(totals)] && Strings.Before(other, Largest(totals)))
  {
    TopExists(totals);
    Strings.LeExactly(other, Largest(totals));
    assert TopLe(totals, other, Largest(totals));
  }

  /** Rounded down; only scores above zero are ever shared by. */
  function Portion(serving: int, score: int, whole: int): int
    requires whole > 0
  {
    serving * score / whole
  }

  lemma PortionBounds(serving: int, score: int, whole: int)
    requires whole > 0
    ensures var r := Portion(serving, score, whole);
      r * whole <= serving * score < (r + 1) * whole && (serving >= 0 && score >= 0 ==> r >= 0)
  {
    if serving >= 0 && score >= 0 {
      assert serving * score >= 0;
    }
  }

  ghost function Portions(serving: int, totals: map<string, int>, whole: int): map<string, int>
    requires whole > 0
  {
    map o | o in totals :: Portion(serving, totals[o], whole)
  }

  /** Everybody's portion rounded down, and what that leaves to the largest. */
  ghost function Shares(serving: int, earned: seq<Settled>): map<string, int> {
    var totals := Tallied(map[], earned);
    var whole := Total(totals);
    if serving <= 0 || |earned| == 0 || whole <= 0 || totals == map[] then map[]
    else
      var shares := Portions(serving, totals, whole);
      var remainder := serving - Total(shares);
      var top := Largest(totals);
      if remainder != 0 then shares[top := Get(shares, top, 0) + remainder] else shares
  }

  ghost predicate NonNegative(m: map<string, int>) {
    forall o :: o in m ==> m[o] >= 0
  }

  lemma {:induction false} TalliedTotal(totals: map<string, int>, rows: seq<Settled>)
    requires NonNegative(totals)
    ensures Total(Tallied(totals, rows)) == Total(totals) + ScoreSum(rows)
    ensures NonNegative(Tallied(totals, rows))
    decreases |rows|
  {
    if |rows| > 0 {
      var operator := rows[0].operator;
      var next := totals[operator := Get(totals, operator, 0) + rows[0].score];
      TotalUpdate(totals, operator, Get(totals, operator, 0) + rows[0].score);
      TalliedTotal(next, rows[1..]);
    }
  }

  lemma {:induction false} TalliedKeys(totals: map<string, int>, rows: seq<Settled>, o: string)
    ensures o in Tallied(totals, rows) ==> o in totals || exists row :: row in rows && row.operator == o
    decreases |rows|
  {
    if |rows| > 0 {
      TalliedKeys(totals[rows[0].operator := Get(totals, rows[0].operator, 0) + rows[0].score], rows[1..], o);
      assert rows[0] in rows;
      assert forall row :: row in rows[1..] ==> row in rows;
    }
  }

  lemma PortionsSplit(serving: int, totals: map<string, int>, whole: int, o: string)
    requires whole > 0 && o in totals
    ensures Total(Portions(serving, totals, whole))
      == Portion(serving, totals[o], whole) + Total(Portions(serving, totals - {o}, whole))
  {
    var p := Portions(serving, totals, whole);
    assert p - {o} == Portions(serving, totals - {o}, whole);
    TotalSplit(p, o);
  }

  /** Values that are each at most in proportion are so in total. */
  lemma {:induction false} ProportionTotal(serving: int, totals: map<string, int>, whole: int)
    requires whole > 0
    ensures whole * Total(Portions(serving, totals, whole)) <= serving * Total(totals)
    decreases |totals|
  {
    if totals != map[] {
      var o := AnyKey(totals);
      ProportionTotal(serving, totals - {o}, whole);
      PortionsSplit(serving, totals, whole, o);
      TotalSplit(totals, o);
      PortionBounds(serving, totals[o], whole);
      ProportionStep(serving, totals[o], Total(totals - {o}), whole,
                     Portion(serving, totals[o], whole), Total(Portions(serving, totals - {o}, whole)));
    } else {
      assert Portions(serving, totals, whole) == map[];
    }
  }

  /** Portions that fall short of the whole by less than a unit for each of them. */
  ghost predicate Short(serving: int, totals: map<string, int>, whole: int)
    requires whole > 0
  {
    whole * (Total(Portions(serving, totals, whole)) + |totals|) >= serving * Total(totals) + |totals|
  }

  /** Rounding down loses less than a unit for each. */
  lemma {:induction false} PortionsShort(serving: int, totals: map<string, int>, whole: int)
    requires whole > 0
    ensures Short(serving, totals, whole)
    decreases |totals|
  {
    if totals != map[] {
      var o := AnyKey(totals);
      PortionsShort(serving, totals - {o}, whole);
      ShortByOne(serving, totals, whole, o);
    } else {
      assert Portions(serving, totals, whole) == map[];
    }
  }

  lemma ShortByOne(serving: int, totals: map<string, int>, whole: int, o: string)
    requires whole > 0 && o in totals && Short(serving, totals - {o}, whole)
    ensures Short(serving, totals, whole)
  {
    var rest := totals - {o};
    PortionsSplit(serving, totals, whole, o);
    TotalSplit(totals, o);
    PortionBounds(serving, totals[o], whole);
    assert |totals| == |rest| + 1;
    ShortStep(serving, totals[o], Total(rest), whole, Portion(serving, totals[o], whole),
              Total(Portions(serving, rest, whole)), |rest|);
  }

  /** What rounding leaves to the largest: nothing from one operator alone, and never a unit for each of several. */
  lemma RestIsSmall(serving: int, totals: map<string, int>)
    requires Total(totals) > 0 && totals != map[]
    ensures serving - Total(Portions(serving, totals, Total(totals))) <= |totals| - 1
  {
    var whole := Total(totals);
    PortionsShort(serving, totals, whole);
    MoreThan(whole, Total(Portions(serving, totals, whole)) + |totals|, serving);
  }

  /** Portions are never negative and never add up to more than the pool. */
  lemma PortionsFit(serving: int, totals: map<string, int>)
    requires serving >= 0 && NonNegative(totals) && Total(totals) > 0
    ensures Total(Portions(serving, totals, Total(totals))) <= serving
    ensures NonNegative(Portions(serving, totals, Total(totals)))
  {
    var whole := Total(totals);
    var p := Portions(serving, totals, whole);
    ProportionTotal(serving, totals, whole);
    AtMost(whole, Total(p), serving);
    forall o | o in p ensures p[o] >= 0 {
      PortionBounds(serving, totals[o], whole);
    }
  }

  lemma SharesDefined(serving: int, earned: seq<Settled>)
    requires serving > 0 && ScoreSum(earned) > 0
    ensures var totals := Tallied(map[], earned); var whole := Total(totals);
      && whole > 0 && totals != map[]
      && var shares := Portions(serving, totals, whole); var top := Largest(totals);
      && top in shares && Total(shares) <= serving && NonNegative(shares)
      && Shares(serving, earned) == shares[top := shares[top] + (serving - Total(shares))]
  {
    var totals := Tallied(map[], earned);
    TalliedTotal(map[], earned);
    PortionsFit(serving, totals);
    var shares, top := Portions(serving, totals, Total(totals)), Largest(totals);
    assert shares[top := shares[top] + 0] == shares;
  }

  lemma GiveRest(shares: map<string, int>, top: string, serving: int)
    requires top in shares && NonNegative(shares) && Total(shares) <= serving
    ensures Total(shares[top := shares[top] + (serving - Total(shares))]) == serving
    ensures NonNegative(shares[top := shares[top] + (serving - Total(shares))])
  {
    TotalUpdate(shares, top, shares[top] + (serving - Total(shares)));
  }

  /** With a positive score and something to share, exactly all of it is handed out; otherwise nothing. */
  lemma SharesExact(serving: int, earned: seq<Settled>)
    ensures Total(Shares(serving, earned)) == if serving > 0 && ScoreSum(earned) > 0 then serving else 0
    ensures NonNegative(Shares(serving, earned))
  {
    if serving > 0 && ScoreSum(earned) > 0 {
      SharesDefined(serving, earned);
      var totals := Tallied(map[], earned);
      GiveRest(Portions(serving, totals, Total(totals)), Largest(totals), serving);
    } else {
      TalliedTotal(map[], earned);
    }
  }

  /** Everybody gets the proportion to within one unit, and nobody but the largest gets more than it. */
  lemma SharesProportional(serving: int, earned: seq<Settled>, o: string)
    requires serving > 0 && ScoreSum(earned) > 0 && o in Tallied(map[], earned)
    ensures var totals := Tallied(map[], earned); var whole := Total(totals); var shares := Shares(serving, earned);
      && o in shares
      && serving * totals[o] < (shares[o] + 1) * whole
      && (o != Largest(totals) ==> shares[o] * whole <= serving * totals[o])
  {
    SharesDefined(serving, earned);
    var totals := Tallied(map[], earned);
    var whole, shares := Total(totals), Shares(serving, earned);
    var portion := Portion(serving, totals[o], whole);
    PortionBounds(serving, totals[o], whole);
    assert shares[o] >= portion;
    Scale(portion + 1, shares[o] + 1, whole);
  }

  /** What the largest may get beyond its proportion, in whole units. */
  ghost function Extra(totals: map<string, int>, o: string): int
    requires totals != map[]
  {
    if o == Largest(totals) then |totals| - 1 else 0
  }

  lemma ShareIs(serving: int, earned: seq<Settled>, o: string)
    requires serving > 0 && ScoreSum(earned) > 0 && o in Tallied(map[], earned)
    ensures Tallied(map[], earned) != map[] && Total(Tallied(map[], earned)) > 0
    ensures var totals := Tallied(map[], earned); var whole := Total(totals);
      Get(Shares(serving, earned), o, 0) == Portion(serving, totals[o], whole)
        + if o == Largest(totals) then serving - Total(Portions(serving, totals, whole)) else 0
  {
    SharesDefined(serving, earned);
  }

  lemma NoShare(serving: int, earned: seq<Settled>, o: string)
    requires serving > 0 && ScoreSum(earned) > 0 && o !in Tallied(map[], earned)
    ensures o !in Shares(serving, earned)
  {
    SharesDefined(serving, earned);
  }

  /** a in b is at most c in d. */
  predicate InProportion(a: int, b: int, c: int, d: int) {
    a * b <= c * d
  }

  lemma PortionInProportion(serving: int, score: int, whole: int, share: int)
    requires whole > 0 && share <= Portion(serving, score, whole)
    ensures InProportion(share, whole, serving, score)
  {
    PortionBounds(serving, score, whole);
    Scale(share, Portion(serving, score, whole), whole);
  }

  lemma ShareBeyondPortion(serving: int, earned: seq<Settled>, o: string)
    requires serving > 0 && ScoreSum(earned) > 0 && o in Tallied(map[], earned)
    ensures Tallied(map[], earned) != map[] && Total(Tallied(map[], earned)) > 0
    ensures var totals := Tallied(map[], earned);
      Get(Shares(serving, earned), o, 0) - Extra(totals, o) <= Portion(serving, totals[o], Total(totals))
  {
    ShareIs(serving, earned, o);
    RestIsSmall(serving, Tallied(map[], earned));
  }

  lemma ShareInProportion(serving: int, totals: map<string, int>, share: int, o: string)
    requires Total(totals) > 0
    requires share <= if o in totals then Portion(serving, totals[o], Total(totals)) else 0
    ensures InProportion(share, Total(totals), serving, Get(totals, o, 0))
  {
    PortionInProportion(serving, Get(totals, o, 0), Total(totals), share);
  }

  /** Nobody gets more than the proportion, save the units that rounding leaves to the largest. */
  lemma ShareAtMost(serving: int, earned: seq<Settled>, o: string)
    requires serving > 0 && ScoreSum(earned) > 0
    ensures Tallied(map[], earned) != map[] && Total(Tallied(map[], earned)) == ScoreSum(earned)
    ensures InProportion(Get(Shares(serving, earned), o, 0) - Extra(Tallied(map[], earned), o), ScoreSum(earned),
                         serving, Get(Tallied(map[], earned), o, 0))
  {
    var totals := Tallied(map[], earned);
    TalliedTotal(map[], earned);
    if o in totals {
      ShareBeyondPortion(serving, earned, o);
    } else {
      NoShare(serving, earned, o);
    }
    ShareInProportion(serving, totals, Get(Shares(serving, earned), o, 0) - Extra(totals, o), o);
  }

  /** The tally of an operator is the sum of its scores. */
  lemma {:induction false} TalliedScore(totals: map<string, int>, rows: seq<Settled>, o: string)
    ensures Get(Tallied(totals, rows), o, 0) == Get(totals, o, 0) + Score(rows, o)
    decreases |rows|
  {
    if |rows| > 0 {
      TalliedScore(totals[rows[0].operator := Get(totals, rows[0].operator, 0) + rows[0].score], rows[1..], o);
      ScoreAppend([rows[0]], rows[1..], o);
      assert rows == [rows[0]] + rows[1..] && [rows[0]][..0] == [];
    }
  }

  /** The units an operator may get beyond its proportion: some if it is the largest of several, otherwise none. */
  ghost function Beyond(rows: seq<Settled>, o: string): (extra: nat) {
    var totals := Tallied(map[], rows);
    if totals != map[] then Extra(totals, o) else 0
  }

  lemma ShareByScore(serving: int, earned: seq<Settled>, o: string)
    requires serving > 0 && ScoreSum(earned) > 0
    ensures InProportion(Get(Shares(serving, earned), o, 0) - Beyond(earned, o), ScoreSum(earned), serving,
                         Score(earned, o))
  {
    ShareAtMost(serving, earned, o);
    TalliedScore(map[], earned, o);
  }

  // ---------------------------------------------------------------- the earned shares, as computed

  method TallyScores(rows: seq<Settled>) returns (totals: map<string, int>)
    ensures totals == Tallied(map[], rows)
  {
    totals := map[];
    var todo := rows;
    while |todo| > 0
      invariant Tallied(totals, todo) == Tallied(map[], rows)
      decreases |todo|
    {
      totals := totals[todo[0].operator := Get(totals, todo[0].operator, 0) + todo[0].score];
      todo := todo[1..];
    }
  }

  method FindLargest(totals: map<string, int>) returns (top: string)
    requires totals != map[]
    ensures top == Largest(totals)
  {
    TopExists(totals);
    assert totals.Keys != {};
    top :| top in totals.Keys;
    var todo := totals.Keys - {top};
    Strings.LeOrdering();
    while todo != {}
      invariant top in totals && todo <= totals.Keys
      invariant forall o :: o in totals.Keys && o !in todo ==> TopLe(totals, o, top)
      decreases todo
    {
      var o :| o in todo;
      if TopLe(totals, top, o) {
        top := o;
      }
      todo := todo - {o};
    }
  }

  method ComputeShares(serving: int, earned: seq<Settled>) returns (shares: map<string, int>)
    ensures shares == Shares(serving, earned)
  {
    if serving <= 0 || |earned| == 0 {
      return map[];
    }
    var totals := TallyScores(earned);
    var whole := SumValues(totals);
    if whole <= 0 || totals == map[] {
      return map[];
    }
    shares := map o | o in totals :: Portion(serving, totals[o], whole);
    assert shares == Portions(serving, totals, whole);
    var given := SumValues(shares);
    if serving - given != 0 {
      var top := FindLargest(totals);
      shares := shares[top := Get(shares, top, 0) + (serving - given)];
    }
  }

  // ---------------------------------------------------------------- bounties

  /** The operators with a claim to a digest: first live on it, and not excluded. */
  function Winners(rows: seq<Settled>, excluded: map<string, string>, digest: string): set<string> {
    set row | row in rows && row.operator !in excluded && digest in row.firstLive :: row.operator
  }

  function Digests(rows: seq<Settled>, excluded: map<string, string>): set<string> {
    set row, digest | row in rows && row.operator !in excluded && digest in row.firstLive :: digest
  }

  /** each more for every one of the winners. */
  function Credit(found: map<string, int>, winners: seq<string>, each: int): map<string, int>
    decreases |winners|
  {
    if |winners| == 0 then found
    else Credit(found[winners[0] := Get(found, winners[0], 0) + each], winners[1..], each)
  }

  /** What each winner of a digest gets of its part. */
  function Each(perDigest: int, winners: set<string>): int {
    if winners == {} then 0 else perDigest / |winners|
  }

  function CreditDigest(found: map<string, int>, digest: string, rows: seq<Settled>, excluded: map<string, string>,
                        perDigest: int): map<string, int>
  {
    var winners := Winners(rows, excluded, digest);
    Credit(found, Strings.SortedNames(winners), Each(perDigest, winners))
  }

  /** The claims to the digests, one after the other, each digest split evenly between its winners. */
  function Credited(found: map<string, int>, digests: seq<string>, rows: seq<Settled>, excluded: map<string, string>,
                    perDigest: int): map<string, int>
    decreases |digests|
  {
    if |digests| == 0 then found
    else Credited(CreditDigest(found, digests[0], rows, excluded, perDigest), digests[1..], rows, excluded, perDigest)
  }

  function Positive(m: map<string, int>): map<string, int> {
    map o | o in m && m[o] > 0 :: m[o]
  }

  /** No digest is shared out that nobody claims, so every winner's part is a true quotient. */
  lemma DigestsHaveWinners(rows: seq<Settled>, excluded: map<string, string>, digest: string)
    ensures digest in Digests(rows, excluded) <==> Winners(rows, excluded, digest) != {}
  {
    if digest in Digests(rows, excluded) {
      var row :| row in rows && row.operator !in excluded && digest in row.firstLive;
      assert row.operator in Winners(rows, excluded, digest);
    }
    if Winners(rows, excluded, digest) != {} {
      var o :| o in Winners(rows, excluded, digest);
    }
  }

  function Bounties(reserve: int, rows: seq<Settled>, excluded: map<string, string>): map<string, int> {
    var digests := Digests(rows, excluded);
    if reserve <= 0 || digests == {} then map[]
    else Positive(Credited(map[], Strings.SortedNames(digests), rows, excluded, reserve / |digests|))
  }

  /** n times each, as a sum. */
  ghost function Repeat(each: int, n: nat): int {
    if n == 0 then 0 else each + Repeat(each, n - 1)
  }

  lemma {:induction false} RepeatIsTimes(each: int, n: nat)
    ensures Repeat(each, n) == each * n
  {
    if n > 0 {
      RepeatIsTimes(each, n - 1);
    }
  }

  lemma {:induction false} CreditTotal(found: map<string, int>, winners: seq<string>, each: int)
    requires each >= 0 && NonNegative(found)
    ensures Total(Credit(found, winners, each)) == Total(found) + Repeat(each, |winners|)
    ensures NonNegative(Credit(found, winners, each))
    decreases |winners|
  {
    if |winners| > 0 {
      var more := Get(found, winners[0], 0) + each;
      TotalUpdate(found, winners[0], more);
      CreditTotal(found[winners[0] := more], winners[1..], each);
    }
  }

  /** Nobody loses by a credit, and every winner gains the whole of it. */
  lemma {:induction false} CreditGains(found: map<string, int>, winners: seq<string>, each: int, o: string)
    requires each >= 0
    ensures Get(Credit(found, winners, each), o, 0) >= Get(found, o, 0) + if o in winners then each else 0
    decreases |winners|
  {
    if |winners| > 0 {
      CreditGains(found[winners[0] := Get(found, winners[0], 0) + each], winners[1..], each, o);
    }
  }

  lemma {:induction false} CreditOnly(found: map<string, int>, winners: seq<string>, each: int, o: string)
    requires o in Credit(found, winners, each)
    ensures o in found || o in winners
    decreases |winners|
  {
    if |winners| > 0 {
      CreditOnly(found[winners[0] := Get(found, winners[0], 0) + each], winners[1..], each, o);
    }
  }

  ghost predicate OnlyClaimants(m: map<string, int>, rows: seq<Settled>, excluded: map<string, string>) {
    forall o :: o in m ==> o !in excluded && exists d :: o in Winners(rows, excluded, d)
  }

  /** Crediting one digest costs at most its part. */
  lemma CreditWithin(found: map<string, int>, digest: string, rows: seq<Settled>, excluded: map<string, string>,
                     perDigest: int)
    requires perDigest >= 0 && NonNegative(found)
    ensures Each(perDigest, Winners(rows, excluded, digest)) >= 0
    ensures var next := CreditDigest(found, digest, rows, excluded, perDigest);
      Total(next) <= Total(found) + perDigest && NonNegative(next)
  {
    var winners := Winners(rows, excluded, digest);
    if winners != {} {
      EvenSplit(perDigest, |winners|);
    }
    CreditTotal(found, Strings.SortedNames(winners), Each(perDigest, winners));
    RepeatIsTimes(Each(perDigest, winners), |winners|);
  }

  lemma {:induction false} CreditedTotal(found: map<string, int>, digests: seq<string>, rows: seq<Settled>,
                                         excluded: map<string, string>, perDigest: int)
    requires perDigest >= 0 && NonNegative(found)
    ensures Total(Credited(found, digests, rows, excluded, perDigest)) <= Total(found) + Repeat(perDigest, |digests|)
    ensures NonNegative(Credited(found, digests, rows, excluded, perDigest))
    decreases |digests|
  {
    if |digests| > 0 {
      var next, rest := CreditDigest(found, digests[0], rows, excluded, perDigest), digests[1..];
      CreditWithin(found, digests[0], rows, excluded, perDigest);
      CreditedTotal(next, rest, rows, excluded, perDigest);
      CreditedFirst(found, digests, rows, excluded, perDigest, next, rest);
      assert Repeat(perDigest, |digests|) == perDigest + Repeat(perDigest, |rest|);
    }
  }

  lemma CreditedFirst(found: map<string, int>, digests: seq<string>, rows: seq<Settled>, excluded: map<string, string>,
                      perDigest: int, next: map<string, int>, rest: seq<string>)
    requires |digests| > 0 && rest == digests[1..] && next == CreditDigest(found, digests[0], rows, excluded, perDigest)
    ensures Credited(found, digests, rows, excluded, perDigest) == Credited(next, rest, rows, excluded, perDigest)
  {
  }

  lemma CreditClaimants(found: map<string, int>, rows: seq<Settled>, excluded: map<string, string>, digest: string,
                        perDigest: int)
    requires OnlyClaimants(found, rows, excluded)
    ensures OnlyClaimants(CreditDigest(found, digest, rows, excluded, perDigest), rows, excluded)
  {
    var each := Each(perDigest, Winners(rows, excluded, digest));
    Strings.NamesSorted(Winners(rows, excluded, digest));
    var names := Strings.SortedNames(Winners(rows, excluded, digest));
    forall o | o in Credit(found, names, each) ensures o !in excluded && exists d :: o in Winners(rows, excluded, d) {
      CreditOnly(found, names, each, o);
    }
  }

  lemma {:induction false} CreditedClaimants(
      found: map<string, int>, digests: seq<string>, rows: seq<Settled>, excluded: map<string, string>, perDigest: int)
    requires OnlyClaimants(found, rows, excluded)
    ensures OnlyClaimants(Credited(found, digests, rows, excluded, perDigest), rows, excluded)
    decreases |digests|
  {
    if |digests| > 0 {
      CreditClaimants(found, rows, excluded, digests[0], perDigest);
      CreditedClaimants(CreditDigest(found, digests[0], rows, excluded, perDigest), digests[1..], rows, excluded,
                        perDigest);
    }
  }

  lemma PositiveTotal(m: map<string, int>)
    requires NonNegative(m)
    ensures 0 <= Total(Positive(m)) <= Total(m)
  {
    var gone := set o | o in m && m[o] <= 0;
    TotalOfPart(m, gone);
    assert Positive(m) == m - gone;
  }

  /** Bounties are positive, go to operators that are not excluded, and stay within the reserve. */
  lemma BountiesFit(reserve: int, rows: seq<Settled>, excluded: map<string, string>)
    requires reserve >= 0
    ensures var b := Bounties(reserve, rows, excluded);
      && 0 <= Total(b) <= reserve && OnlyClaimants(b, rows, excluded)
      && forall o :: o in b ==> b[o] > 0
  {
    var digests := Digests(rows, excluded);
    if reserve > 0 && digests != {} {
      var names := Strings.SortedNames(digests);
      var perDigest := reserve / |digests|;
      EvenSplit(reserve, |digests|);
      RepeatIsTimes(perDigest, |digests|);
      CreditedTotal(map[], names, rows, excluded, perDigest);
      CreditedClaimants(map[], names, rows, excluded, perDigest);
      PositiveTotal(Credited(map[], names, rows, excluded, perDigest));
    }
  }

  /** Every winner of a digest gets at least its even part of it. */
  lemma {:induction false} CreditedAtLeast(found: map<string, int>, digests: seq<string>, rows: seq<Settled>,
                                           excluded: map<string, string>, perDigest: int, digest: string, o: string)
    requires perDigest >= 0 && NonNegative(found) && o in Winners(rows, excluded, digest)
    ensures Get(Credited(found, digests, rows, excluded, perDigest), o, 0)
      >= Get(found, o, 0) + if digest in digests then Each(perDigest, Winners(rows, excluded, digest)) else 0
    decreases |digests|
  {
    if |digests| > 0 {
      var winners := Winners(rows, excluded, digests[0]);
      var names, each := Strings.SortedNames(winners), Each(perDigest, winners);
      CreditWithin(found, digests[0], rows, excluded, perDigest);
      Strings.NamesSorted(winners);
      CreditGains(found, names, each, o);
      CreditedAtLeast(CreditDigest(found, digests[0], rows, excluded, perDigest), digests[1..], rows, excluded,
                      perDigest, digest, o);
    }
  }

  /** An operator that is first live on a digest and not excluded gets its even part of that digest's even part. */
  lemma BountyAtLeast(reserve: int, rows: seq<Settled>, excluded: map<string, string>, digest: string, o: string)
    requires reserve > 0 && o in Winners(rows, excluded, digest)
    ensures |Digests(rows, excluded)| > 0 && |Winners(rows, excluded, digest)| > 0
    ensures Get(Bounties(reserve, rows, excluded), o, 0)
      >= reserve / |Digests(rows, excluded)| / |Winners(rows, excluded, digest)|
  {
    var digests := Digests(rows, excluded);
    DigestsHaveWinners(rows, excluded, digest);
    var perDigest := reserve / |digests|;
    EvenSplit(reserve, |digests|);
    Strings.NamesSorted(digests);
    CreditedAtLeast(map[], Strings.SortedNames(digests), rows, excluded, perDigest, digest, o);
    EvenSplit(perDigest, |Winners(rows, excluded, digest)|);
  }

  /** Who has a claim to a digest, row by row. */
  lemma WinnersExactly(rows: seq<Settled>, excluded: map<string, string>, digest: string, o: string)
    ensures o in Winners(rows, excluded, digest) <==>
      o !in excluded && exists row :: row in rows && row.operator == o && digest in row.firstLive
    ensures digest in Digests(rows, excluded) <==>
      exists row :: row in rows && row.operator !in excluded && digest in row.firstLive
  {
  }

  lemma {:induction false} CreditExactly(found: map<string, int>, winners: seq<string>, each: int, o: string)
    requires forall i, j :: 0 <= i < j < |winners| ==> winners[i] != winners[j]
    ensures Get(Credit(found, winners, each), o, 0) == Get(found, o, 0) + if o in winners then each else 0
    decreases |winners|
  {
    if |winners| > 0 {
      CreditExactly(found[winners[0] := Get(found, winners[0], 0) + each], winners[1..], each, o);
      assert winners == [winners[0]] + winners[1..];
    }
  }

  /** Its parts of these digests: of each that it has a claim to, what falls to one of those that have. */
  function PartsOf(o: string, digests: seq<string>, rows: seq<Settled>, excluded: map<string, string>,
                   perDigest: int): int
  {
    if |digests| == 0 then 0
    else
      (if o in Winners(rows, excluded, digests[0]) then perDigest / |Winners(rows, excluded, digests[0])| else 0)
      + PartsOf(o, digests[1..], rows, excluded, perDigest)
  }

  lemma {:induction false} CreditedExactly(found: map<string, int>, digests: seq<string>, rows: seq<Settled>,
                                           excluded: map<string, string>, perDigest: int, o: string)
    ensures Get(Credited(found, digests, rows, excluded, perDigest), o, 0)
      == Get(found, o, 0) + PartsOf(o, digests, rows, excluded, perDigest)
    decreases |digests|
  {
    if |digests| > 0 {
      var winners := Winners(rows, excluded, digests[0]);
      Strings.NamesSorted(winners);
      CreditExactly(found, Strings.SortedNames(winners), Each(perDigest, winners), o);
      CreditedExactly(CreditDigest(found, digests[0], rows, excluded, perDigest), digests[1..], rows, excluded,
                      perDigest, o);
    }
  }

  lemma {:induction false} PartsNonNegative(o: string, digests: seq<string>, rows: seq<Settled>,
                                            excluded: map<string, string>, perDigest: int)
    requires perDigest >= 0
    ensures PartsOf(o, digests, rows, excluded, perDigest) >= 0
  {
    if |digests| > 0 {
      PartsNonNegative(o, digests[1..], rows, excluded, perDigest);
      if o in Winners(rows, excluded, digests[0]) {
        EvenSplit(perDigest, |Winners(rows, excluded, digests[0])|);
      }
    }
  }

  /** To the unit: a bounty is the sum of the parts of the digests the operator has a claim to, and nothing else. */
  lemma BountyExactly(reserve: int, rows: seq<Settled>, excluded: map<string, string>, o: string)
    ensures var digests := Digests(rows, excluded);
      Get(Bounties(reserve, rows, excluded), o, 0)
      == if reserve <= 0 || digests == {} then 0
         else PartsOf(o, Strings.SortedNames(digests), rows, excluded, reserve / |digests|)
  {
    var digests := Digests(rows, excluded);
    if reserve > 0 && digests != {} {
      EvenSplit(reserve, |digests|);
      CreditedExactly(map[], Strings.SortedNames(digests), rows, excluded, reserve / |digests|, o);
      PartsNonNegative(o, Strings.SortedNames(digests), rows, excluded, reserve / |digests|);
    }
  }

  method CreditAll(found: map<string, int>, winners: set<string>, each: int) returns (next: map<string, int>)
    ensures next == Credit(found, Strings.SortedNames(winners), each)
  {
    next := found;
    var names := Strings.SortedNames(winners);
    var todo := names;
    while |todo| > 0
      invariant Credit(next, todo, each) == Credit(found, names, each)
      decreases |todo|
    {
      next := next[todo[0] := Get(next, todo[0], 0) + each];
      todo := todo[1..];
    }
  }

  method ComputeBounties(reserve: int, rows: seq<Settled>, excluded: map<string, string>)
    returns (found: map<string, int>)
    ensures found == Bounties(reserve, rows, excluded)
  {
    var digests := Digests(rows, excluded);
    if reserve <= 0 || digests == {} {
      return map[];
    }
    var names := Strings.SortedNames(digests);
    var perDigest := reserve / |digests|;
    var all: map<string, int> := map[];
    var todo := names;
    while |todo| > 0
      invariant Credited(all, todo, rows, excluded, perDigest) == Credited(map[], names, rows, excluded, perDigest)
      decreases |todo|
    {
      var winners := Winners(rows, excluded, todo[0]);
      all := CreditAll(all, winners, Each(perDigest, winners));
      todo := todo[1..];
    }
    found := Positive(all);
  }
}
