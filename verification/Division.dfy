/** One epoch's emission divided: earned shares, bounties, floors and what is burned. */
module Division {
  import opened Prelude
  import opened Dicts
  import opened Reals
  import opened Exclusion
  import opened ServingPools
  import Strings

  // ---------------------------------------------------------------- floors

  /** What a share of the ceiling comes to. */
  function Target(ceiling: int, share: real): int {
    Cut(ceiling as real * share)
  }

  function Targets(ceiling: int, floors: map<string, real>): map<string, int> {
    map o | o in floors :: Target(ceiling, floors[o])
  }

  /** The books while floors are granted: the shares so far, the grants, and what is left of the pool. */
  datatype Ledger = Ledger(shares: map<string, int>, granted: map<string, int>, remaining: int)

  function Grant(books: Ledger, operator: string, target: int): Ledger {
    var gap := target - Get(books.shares, operator, 0);
    if gap <= 0 || books.remaining <= 0 then books
    else
      var topup := Min(gap, books.remaining);
      Ledger(books.shares[operator := Get(books.shares, operator, 0) + topup], books.granted[operator := topup],
             books.remaining - topup)
  }

  function GrantAll(books: Ledger, targets: map<string, int>, names: seq<string>): Ledger
    decreases |names|
  {
    if |names| == 0 then books
    else GrantAll(Grant(books, names[0], Get(targets, names[0], 0)), targets, names[1..])
  }

  lemma GrantBalances(books: Ledger, operator: string, target: int)
    ensures var next := Grant(books, operator, target);
      && next.remaining + Total(next.shares) == books.remaining + Total(books.shares)
      && (books.remaining >= 0 ==> 0 <= next.remaining <= books.remaining)
      && (NonNegative(books.shares) ==> NonNegative(next.shares))
      && (operator !in books.granted ==>
            Total(next.shares) - Total(next.granted) == Total(books.shares) - Total(books.granted))
  {
    var topup := Min(target - Get(books.shares, operator, 0), books.remaining);
    TotalUpdate(books.shares, operator, Get(books.shares, operator, 0) + topup);
    TotalUpdate(books.granted, operator, topup);
  }

  /** Granting moves money from what is left into shares; none appears, none is lost. */
  lemma {:induction false} GrantAllBalances(books: Ledger, targets: map<string, int>, names: seq<string>)
    requires books.remaining >= 0 && NonNegative(books.shares)
    requires forall i :: 0 <= i < |names| ==> names[i] !in books.granted
    requires forall i, j :: 0 <= i < j < |names| ==> names[i] != names[j]
    ensures var last := GrantAll(books, targets, names);
      && last.remaining + Total(last.shares) == books.remaining + Total(books.shares)
      && 0 <= last.remaining <= books.remaining && NonNegative(last.shares)
      && Total(last.shares) - Total(last.granted) == Total(books.shares) - Total(books.granted)
    decreases |names|
  {
    if |names| > 0 {
      var target := Get(targets, names[0], 0);
      GrantBalances(books, names[0], target);
      GrantAllBalances(Grant(books, names[0], target), targets, names[1..]);
    }
  }

  /** An operator's share after the floors is its share before them and what it was granted. */
  lemma {:induction false} GrantAllAdds(books: Ledger, targets: map<string, int>, names: seq<string>, o: string)
    requires forall i :: 0 <= i < |names| ==> names[i] !in books.granted
    requires forall i, j :: 0 <= i < j < |names| ==> names[i] != names[j]
    ensures var last := GrantAll(books, targets, names);
      && Get(last.shares, o, 0) - Get(last.granted, o, 0) == Get(books.shares, o, 0) - Get(books.granted, o, 0)
      && (o in last.granted ==> o in books.granted || o in names)
    decreases |names|
  {
    if |names| > 0 {
      GrantAllAdds(Grant(books, names[0], Get(targets, names[0], 0)), targets, names[1..], o);
    }
  }

  lemma {:induction false} GrantAllKeeps(books: Ledger, targets: map<string, int>, names: seq<string>, o: string)
    requires books.remaining >= 0 && o !in names
    ensures var last := GrantAll(books, targets, names);
      Get(last.shares, o, 0) == Get(books.shares, o, 0) && 0 <= last.remaining <= books.remaining
    decreases |names|
  {
    if |names| > 0 {
      GrantAllKeeps(Grant(books, names[0], Get(targets, names[0], 0)), targets, names[1..], o);
    }
  }

  /**
   * Each floor operator ends at the larger of its share and its target, unless the pool ran out first; never above it.
   */
  lemma {:induction false} GrantAllReaches(books: Ledger, targets: map<string, int>, names: seq<string>, o: string)
    requires books.remaining >= 0 && o in names
    requires forall i, j :: 0 <= i < j < |names| ==> names[i] != names[j]
    ensures var last := GrantAll(books, targets, names);
      var before, after, target := Get(books.shares, o, 0), Get(last.shares, o, 0), Get(targets, o, 0);
      && before <= after <= Max(before, target)
      && (after == Max(before, target) || last.remaining == 0)
    decreases |names|
  {
    var next := Grant(books, names[0], Get(targets, names[0], 0));
    if names[0] == o {
      GrantAllKeeps(next, targets, names[1..], o);
    } else {
      GrantAllReaches(next, targets, names[1..], o);
    }
  }

  lemma {:induction false} NoneLeft(books: Ledger, targets: map<string, int>, names: seq<string>, o: string)
    requires books.remaining <= 0
    ensures GrantAll(books, targets, names) == books
    decreases |names|
  {
    if |names| > 0 {
      NoneLeft(books, targets, names[1..], o);
    }
  }

  /** Nobody is granted anything while somebody before it is short of its target. */
  lemma {:induction false} EarlierFirst(books: Ledger, targets: map<string, int>, names: seq<string>, i: nat, j: nat)
    requires books.remaining >= 0 && i < j < |names| && names[j] !in books.granted
    requires forall k, l :: 0 <= k < l < |names| ==> names[k] != names[l]
    ensures var last := GrantAll(books, targets, names);
      names[j] in last.granted ==> Get(last.shares, names[i], 0) >= Get(targets, names[i], 0)
    decreases |names|
  {
    var next := Grant(books, names[0], Get(targets, names[0], 0));
    if i > 0 {
      EarlierFirst(next, targets, names[1..], i - 1, j - 1);
    } else if next.remaining <= 0 {
      NoneLeft(next, targets, names[1..], names[j]);
    } else {
      GrantAllKeeps(next, targets, names[1..], names[0]);
    }
  }

  /** All the floors of a pool, by name of operator. */
  ghost function Granted(ceiling: int, shares: map<string, int>, targets: map<string, int>): Ledger {
    GrantAll(Ledger(shares, map[], ceiling - Total(shares)), targets, Strings.SortedNames(targets.Keys))
  }

  lemma GrantedBalances(ceiling: int, shares: map<string, int>, targets: map<string, int>)
    requires NonNegative(shares) && Total(shares) <= ceiling
    ensures var books := Granted(ceiling, shares, targets);
      && books.remaining == ceiling - Total(books.shares)
      && books.remaining >= 0 && NonNegative(books.shares)
      && Total(books.shares) - Total(books.granted) == Total(shares)
  {
    Strings.NamesDistinct(targets.Keys);
    GrantAllBalances(Ledger(shares, map[], ceiling - Total(shares)), targets, Strings.SortedNames(targets.Keys));
  }

  lemma GrantedReaches(ceiling: int, shares: map<string, int>, targets: map<string, int>, o: string)
    requires Total(shares) <= ceiling && o in targets
    ensures var books := Granted(ceiling, shares, targets); var got := Get(books.shares, o, 0);
      && (got >= targets[o] || books.remaining == 0)
      && (o in books.granted ==> got <= targets[o])
  {
    Strings.NamesDistinct(targets.Keys);
    Strings.NameListed(targets.Keys, o);
    EachReaches(Ledger(shares, map[], ceiling - Total(shares)), targets, Strings.SortedNames(targets.Keys), o);
  }

  lemma EachReaches(books: Ledger, targets: map<string, int>, names: seq<string>, o: string)
    requires books.remaining >= 0 && books.granted == map[] && o in names && o in targets
    requires forall i, j :: 0 <= i < j < |names| ==> names[i] != names[j]
    ensures var last := GrantAll(books, targets, names); var got := Get(last.shares, o, 0);
      && (got >= targets[o] || last.remaining == 0)
      && (o in last.granted ==> got <= targets[o])
  {
    GrantAllReaches(books, targets, names, o);
    GrantAllAdds(books, targets, names, o);
    GrantedIsPositive(books, targets, names, o);
  }

  lemma {:induction false} GrantedIsPositive(books: Ledger, targets: map<string, int>, names: seq<string>, o: string)
    requires o in books.granted ==> books.granted[o] > 0
    ensures var last := GrantAll(books, targets, names); o in last.granted ==> last.granted[o] > 0
    decreases |names|
  {
    if |names| > 0 {
      GrantedIsPositive(Grant(books, names[0], Get(targets, names[0], 0)), targets, names[1..], o);
    }
  }

  lemma GrantedAdds(ceiling: int, shares: map<string, int>, targets: map<string, int>, o: string)
    ensures var books := Granted(ceiling, shares, targets);
      && Get(books.shares, o, 0) == Get(shares, o, 0) + Get(books.granted, o, 0)
      && (o !in targets ==> o !in books.granted)
  {
    Strings.NamesDistinct(targets.Keys);
    Strings.NameListed(targets.Keys, o);
    GrantAllAdds(Ledger(shares, map[], ceiling - Total(shares)), targets, Strings.SortedNames(targets.Keys), o);
  }

  method TopUp(books: Ledger, operator: string, target: int) returns (next: Ledger)
    ensures next == Grant(books, operator, target)
  {
    next := books;
    var gap := target - Get(books.shares, operator, 0);
    if gap > 0 && books.remaining > 0 {
      var topup := Min(gap, books.remaining);
      next := Ledger(books.shares[operator := Get(books.shares, operator, 0) + topup],
                     books.granted[operator := topup], books.remaining - topup);
    }
  }

  method TopUpAll(first: Ledger, targets: map<string, int>, names: seq<string>) returns (books: Ledger)
    ensures books == GrantAll(first, targets, names)
  {
    books := first;
    var todo := names;
    while |todo| > 0
      invariant GrantAll(books, targets, todo) == GrantAll(first, targets, names)
      decreases |todo|
    {
      books := TopUp(books, todo[0], Get(targets, todo[0], 0));
      todo := todo[1..];
    }
  }

  method ComputeFloors(ceiling: int, shares: map<string, int>, targets: map<string, int>) returns (books: Ledger)
    ensures books == Granted(ceiling, shares, targets)
  {
    var given := SumValues(shares);
    books := TopUpAll(Ledger(shares, map[], ceiling - given), targets, Strings.SortedNames(targets.Keys));
  }

  // ---------------------------------------------------------------- adding bounties to shares

  function Merge(a: map<string, int>, b: map<string, int>): map<string, int> {
    map o | o in a.Keys + b.Keys :: Get(a, o, 0) + Get(b, o, 0)
  }

  lemma MergeOne(a: map<string, int>, b: map<string, int>, o: string)
    requires o in b
    ensures var before := Merge(a, b - {o});
      Merge(a, b) == before[o := Get(before, o, 0) + b[o]]
  {
  }

  lemma TotalGrows(before: map<string, int>, after: map<string, int>, o: string, more: int)
    requires after == before[o := Get(before, o, 0) + more]
    ensures Total(after) == Total(before) + more
  {
    TotalUpdate(before, o, Get(before, o, 0) + more);
  }

  lemma MergeGrows(a: map<string, int>, b: map<string, int>, o: string)
    requires o in b
    ensures Total(Merge(a, b)) == Total(Merge(a, b - {o})) + b[o]
  {
    MergeOne(a, b, o);
    TotalGrows(Merge(a, b - {o}), Merge(a, b), o, b[o]);
  }

  lemma {:induction false} MergeTotal(a: map<string, int>, b: map<string, int>)
    ensures Total(Merge(a, b)) == Total(a) + Total(b)
    decreases |b|
  {
    if b == map[] {
      assert Merge(a, b) == a;
    } else {
      var o := AnyKey(b);
      MergeTotal(a, b - {o});
      MergeGrows(a, b, o);
    }
  }

  method AddBounties(shares: map<string, int>, bounties: map<string, int>) returns (sum: map<string, int>)
    ensures sum == Merge(shares, bounties)
  {
    sum := shares;
    var todo := bounties.Keys;
    assert Merge(shares, bounties - todo) == shares;
    while todo != {}
      invariant todo <= bounties.Keys
      invariant sum == Merge(shares, bounties - todo)
      decreases todo
    {
      var o :| o in todo;
      ghost var done := bounties - (todo - {o});
      MergeOne(shares, done, o);
      assert done - {o} == bounties - todo;
      sum := sum[o := Get(sum, o, 0) + bounties[o]];
      todo := todo - {o};
    }
    assert bounties - {} == bounties;
  }

  // ---------------------------------------------------------------- the division

  datatype Split = Split(
    emission: int, available: int, serving: int, modelling: int, totalScore: int, capped: bool,
    shares: map<string, int>, burned: int, floors: map<string, int>, bounties: map<string, int>,
    excluded: map<string, string>)

  /** The amounts of an epoch, each cut to whole units. */
  datatype Amounts = Amounts(available: int, ceiling: int, rebated: int, paid: int, reserve: int)

  /** A part of an amount, cut to whole units. */
  function PartOf(amount: int, part: real): int {
    Cut(amount as real * part)
  }

  function AmountsOf(emission: int, earned: seq<Settled>, dials: Dials, bountyShare: real): Amounts {
    var available := PartOf(emission, 1.0 - dials.reserve);
    var rebated := PartOf(BillingSum(earned), dials.rebate);
    var ceiling := PartOf(available, dials.cap);
    var paid := Min(rebated, ceiling);
    Amounts(available, ceiling, rebated, paid, if earned != [] then PartOf(paid, bountyShare) else 0)
  }

  /** What is left of the shares when some are excluded, and the bounties on top. */
  function Left(shares: map<string, int>, bounties: map<string, int>, excluded: map<string, string>): map<string, int> {
    Merge(shares - excluded.Keys, bounties)
  }

  ghost function EarnedShares(amounts: Amounts, settled: seq<Settled>): map<string, int> {
    Shares(amounts.paid - amounts.reserve, Earned(settled))
  }

  function BountiesOf(amounts: Amounts, settled: seq<Settled>, excluded: map<string, string>): map<string, int> {
    Bounties(amounts.reserve, settled, excluded)
  }

  ghost function Books(amounts: Amounts, settled: seq<Settled>, targets: map<string, int>,
                       excluded: map<string, string>): Ledger
  {
    Granted(amounts.ceiling, Left(EarnedShares(amounts, settled), BountiesOf(amounts, settled, excluded), excluded),
            targets)
  }

  /** A division by these amounts. */
  ghost predicate Divides(split: Split, amounts: Amounts, settled: seq<Settled>, targets: map<string, int>) {
    var books := Books(amounts, settled, targets, split.excluded);
    && split.available == amounts.available
    && split.serving == amounts.ceiling && split.modelling == split.available - amounts.ceiling
    && split.totalScore == ScoreSum(Earned(settled)) && (split.capped <==> amounts.rebated > amounts.ceiling)
    && split.shares == books.shares && split.burned == amounts.ceiling - Total(books.shares)
    && split.floors == books.granted && split.bounties == BountiesOf(amounts, settled, split.excluded)
  }

  ghost predicate IsDivision(split: Split, emission: int, settled: seq<Settled>, dials: Dials,
                             floors: map<string, real>, bountyShare: real)
  {
    var amounts := AmountsOf(emission, Earned(settled), dials, bountyShare);
    split.emission == emission && IsExclusion(settled, split.excluded)
      && Divides(split, amounts, settled, Targets(amounts.ceiling, floors))
  }

  method Divide(emission: int, settled: seq<Settled>, dials: Dials, floors: map<string, real>, bountyShare: real)
    returns (r: Result<Split>)
    ensures r.Ok? <==> emission >= 0 && 0.0 <= bountyShare <= MAX_BOUNTY_SHARE
    ensures r.Ok? ==> IsDivision(r.value, emission, settled, dials, floors, bountyShare)
  {
    if emission < 0 {
      return Err("emission cannot be negative");
    }
    if !(0.0 <= bountyShare <= MAX_BOUNTY_SHARE) {
      return Err("the bounty share must be a fraction of the serving pool");
    }
    var amounts := ComputeAmounts(emission, Earned(settled), dials, bountyShare);
    var targets := Targets(amounts.ceiling, floors);
    var excluded := ExcludedOf(settled);
    var split := HandOut(emission, amounts, settled, excluded, targets);
    r := Ok(split);
  }

  method ComputeAmounts(emission: int, earned: seq<Settled>, dials: Dials, bountyShare: real) returns (amounts: Amounts)
    ensures amounts == AmountsOf(emission, earned, dials, bountyShare)
  {
    var available := PartOf(emission, 1.0 - dials.reserve);
    var rebated := PartOf(BillingSum(earned), dials.rebate);
    var ceiling := PartOf(available, dials.cap);
    var paid := Min(rebated, ceiling);
    var reserve := if earned != [] then PartOf(paid, bountyShare) else 0;
    amounts := Amounts(available, ceiling, rebated, paid, reserve);
  }

  /** Earned shares of those that stay in, and the bounties on top. */
  method PayTraffic(amounts: Amounts, settled: seq<Settled>, excluded: map<string, string>)
    returns (shares: map<string, int>, bounties: map<string, int>)
    ensures shares == Left(EarnedShares(amounts, settled), BountiesOf(amounts, settled, excluded), excluded)
    ensures bounties == BountiesOf(amounts, settled, excluded)
  {
    var earned := ComputeShares(amounts.paid - amounts.reserve, Earned(settled));
    bounties := ComputeBounties(amounts.reserve, settled, excluded);
    shares := AddBounties(earned - excluded.Keys, bounties);
  }

  method KeepBooks(amounts: Amounts, settled: seq<Settled>, excluded: map<string, string>, targets: map<string, int>)
    returns (books: Ledger, bounties: map<string, int>)
    ensures books == Books(amounts, settled, targets, excluded)
    ensures bounties == BountiesOf(amounts, settled, excluded)
  {
    var shares;
    shares, bounties := PayTraffic(amounts, settled, excluded);
    books := ComputeFloors(amounts.ceiling, shares, targets);
  }

  /** The part of the division that deals with operators. */
  method HandOut(emission: int, amounts: Amounts, settled: seq<Settled>, excluded: map<string, string>,
                 targets: map<string, int>)
    returns (split: Split)
    ensures split.emission == emission && split.excluded == excluded && Divides(split, amounts, settled, targets)
  {
    var books, bounties := KeepBooks(amounts, settled, excluded, targets);
    var given := SumValues(books.shares);
    split := Split(emission, amounts.available, amounts.ceiling, amounts.available - amounts.ceiling,
                   ScoreSum(Earned(settled)), amounts.rebated > amounts.ceiling, books.shares,
                   amounts.ceiling - given, books.granted, bounties, excluded);
  }

  // ---------------------------------------------------------------- conservation

  /** Cutting a fraction of an amount stays between nothing and that amount. */
  lemma CutPart(amount: int, part: real)
    requires amount >= 0 && 0.0 <= part <= 1.0
    ensures 0 <= PartOf(amount, part) <= amount
  {
    CutBelow(amount as real, part);
  }

  lemma CutNonNegative(amount: int, rate: real)
    requires amount >= 0 && rate >= 0.0
    ensures 0 <= PartOf(amount, rate) && PartOf(amount, rate) as real <= amount as real * rate
  {
  }

  /** Amounts that can be handed out. */
  ghost predicate Fit(amounts: Amounts) {
    0 <= amounts.reserve <= amounts.paid <= amounts.ceiling <= amounts.available && amounts.paid <= amounts.rebated
  }

  /** What is set aside and what is shared out come from what is paid, and that from the pool. */
  lemma AmountsFit(emission: int, earned: seq<Settled>, dials: Dials, bountyShare: real)
    requires emission >= 0 && Allowed(dials) && 0.0 <= bountyShare <= MAX_BOUNTY_SHARE
    ensures var amounts := AmountsOf(emission, earned, dials, bountyShare);
      && Fit(amounts) && amounts.available <= emission
      && amounts.rebated == PartOf(BillingSum(earned), dials.rebate)
  {
    var available, rebated := PartOf(emission, 1.0 - dials.reserve), PartOf(BillingSum(earned), dials.rebate);
    CutPart(emission, 1.0 - dials.reserve);
    CutPart(available, dials.cap);
    CutNonNegative(BillingSum(earned), dials.rebate);
    CutPart(Min(rebated, PartOf(available, dials.cap)), bountyShare);
  }

  /** n is a part of an amount without its fraction. */
  ghost predicate IsPart(n: int, amount: int, part: real) {
    n as real <= amount as real * part < n as real + 1.0
  }

  lemma PartExactly(amount: int, part: real)
    requires amount >= 0 && part >= 0.0
    ensures IsPart(PartOf(amount, part), amount, part)
  {
    NonNegativeTimes(amount as real, part);
  }

  /** The amounts of an epoch: each the whole units of its part, what is paid the lesser of rebate and ceiling. */
  ghost predicate AmountsAre(amounts: Amounts, emission: int, earned: seq<Settled>, dials: Dials, bountyShare: real) {
    && IsPart(amounts.available, emission, 1.0 - dials.reserve)
    && IsPart(amounts.ceiling, amounts.available, dials.cap)
    && IsPart(amounts.rebated, BillingSum(earned), dials.rebate)
    && (amounts.paid == amounts.rebated || amounts.paid == amounts.ceiling)
    && amounts.paid <= amounts.rebated && amounts.paid <= amounts.ceiling
    && (if |earned| > 0 then IsPart(amounts.reserve, amounts.paid, bountyShare) else amounts.reserve == 0)
  }

  lemma AmountsExactly(emission: int, earned: seq<Settled>, dials: Dials, bountyShare: real)
    requires emission >= 0 && Allowed(dials) && 0.0 <= bountyShare <= MAX_BOUNTY_SHARE
    ensures AmountsAre(AmountsOf(emission, earned, dials, bountyShare), emission, earned, dials, bountyShare)
  {
    AmountsFit(emission, earned, dials, bountyShare);
    var available, rebated := PartOf(emission, 1.0 - dials.reserve), PartOf(BillingSum(earned), dials.rebate);
    PartExactly(emission, 1.0 - dials.reserve);
    PartExactly(available, dials.cap);
    PartExactly(BillingSum(earned), dials.rebate);
    PartExactly(Min(rebated, PartOf(available, dials.cap)), bountyShare);
  }

  lemma OverByOne(rebated: int, ceiling: int, amount: int, part: real)
    requires IsPart(rebated, amount, part)
    ensures rebated > ceiling <==> !WithinOneOf(ceiling, amount, part)
  {
  }

  /** A part of an amount is less than one unit above n. */
  ghost predicate WithinOneOf(n: int, amount: int, part: real) {
    amount as real * part < n as real + 1.0
  }

  /** What a split says of itself, in the numbers that went in. */
  lemma SplitExactly(
    split: Split, emission: int, settled: seq<Settled>, dials: Dials, floors: map<string, real>, bountyShare: real)
    requires emission >= 0 && Allowed(dials) && 0.0 <= bountyShare <= MAX_BOUNTY_SHARE
    requires IsDivision(split, emission, settled, dials, floors, bountyShare)
    ensures split.emission == emission && split.totalScore == ScoreSum(Earned(settled))
    ensures IsPart(split.available, emission, 1.0 - dials.reserve)
    ensures IsPart(split.serving, split.available, dials.cap)
    ensures split.capped <==> !WithinOneOf(split.serving, BillingSum(Earned(settled)), dials.rebate)
  {
    var amounts := AmountsOf(emission, Earned(settled), dials, bountyShare);
    AmountsExactly(emission, Earned(settled), dials, bountyShare);
    SplitSays(split, amounts, settled, Targets(amounts.ceiling, floors));
    OverByOne(amounts.rebated, amounts.ceiling, BillingSum(Earned(settled)), dials.rebate);
  }

  lemma SplitSays(split: Split, amounts: Amounts, settled: seq<Settled>, targets: map<string, int>)
    requires Divides(split, amounts, settled, targets)
    ensures split.available == amounts.available && split.serving == amounts.ceiling
    ensures split.totalScore == ScoreSum(Earned(settled)) && (split.capped <==> amounts.rebated > amounts.ceiling)
  {
  }

  lemma MergeNonNegative(a: map<string, int>, b: map<string, int>)
    requires NonNegative(a) && NonNegative(b)
    ensures NonNegative(Merge(a, b))
  {
  }

  lemma LeftTotal(shares: map<string, int>, bounties: map<string, int>, excluded: map<string, string>)
    ensures Total(Left(shares, bounties, excluded)) == Total(shares - excluded.Keys) + Total(bounties)
  {
    MergeTotal(shares - excluded.Keys, bounties);
  }

  ghost predicate WithinPaid(shares: map<string, int>, paid: int) {
    NonNegative(shares) && 0 <= Total(shares) <= paid
  }

  lemma LeftFits(shares: map<string, int>, bounties: map<string, int>, excluded: map<string, string>, own: int,
                 reserve: int, paid: int)
    requires WithinPaid(shares, own) && WithinPaid(bounties, reserve) && own + reserve == paid
    ensures WithinPaid(Left(shares, bounties, excluded), paid)
  {
    TotalOfPart(shares, excluded.Keys);
    LeftTotal(shares, bounties, excluded);
    MergeNonNegative(shares - excluded.Keys, bounties);
  }

  ghost predicate AddsUp(sum: map<string, int>, bounties: map<string, int>, own: int) {
    Total(sum) == Total(bounties) + own
  }

  lemma NobodyLeftOut(shares: map<string, int>, bounties: map<string, int>, excluded: map<string, string>, own: int)
    requires excluded == map[] && Total(shares) == own
    ensures AddsUp(Left(shares, bounties, excluded), bounties, own)
  {
    LeftTotal(shares, bounties, excluded);
    assert shares - excluded.Keys == shares;
  }

  lemma BountiesLeft(amounts: Amounts, settled: seq<Settled>, excluded: map<string, string>)
    requires Fit(amounts)
    ensures WithinPaid(BountiesOf(amounts, settled, excluded), amounts.reserve)
  {
    BountiesFit(amounts.reserve, settled, excluded);
  }

  lemma SharesWithin(serving: int, earned: seq<Settled>)
    requires serving >= 0
    ensures WithinPaid(Shares(serving, earned), serving)
  {
    SharesExact(serving, earned);
  }

  /** Before the floors no more is given than was paid. */
  lemma PayoutFits(amounts: Amounts, settled: seq<Settled>, excluded: map<string, string>)
    requires Fit(amounts)
    ensures WithinPaid(Left(EarnedShares(amounts, settled), BountiesOf(amounts, settled, excluded), excluded),
                       amounts.paid)
  {
    SharesWithin(amounts.paid - amounts.reserve, Earned(settled));
    BountiesLeft(amounts, settled, excluded);
    LeftFits(EarnedShares(amounts, settled), BountiesOf(amounts, settled, excluded), excluded,
             amounts.paid - amounts.reserve, amounts.reserve, amounts.paid);
  }

  /** The books after the floors, from the books before them. */
  lemma BooksBalance(amounts: Amounts, settled: seq<Settled>, targets: map<string, int>, excluded: map<string, string>)
    requires Fit(amounts)
    ensures var books := Books(amounts, settled, targets, excluded);
      && books.remaining == amounts.ceiling - Total(books.shares)
      && books.remaining >= 0 && NonNegative(books.shares)
      && Total(books.shares) - Total(books.granted)
           == Total(Left(EarnedShares(amounts, settled), BountiesOf(amounts, settled, excluded), excluded))
  {
    PayoutFits(amounts, settled, excluded);
    GrantedBalances(amounts.ceiling,
                    Left(EarnedShares(amounts, settled), BountiesOf(amounts, settled, excluded), excluded), targets);
  }

  /** Every unit of the emission is reserved, modelled, shared out or burned. */
  lemma Conserved(split: Split, emission: int, settled: seq<Settled>, dials: Dials, floors: map<string, real>,
                  bountyShare: real)
    requires emission >= 0 && Allowed(dials) && 0.0 <= bountyShare <= MAX_BOUNTY_SHARE
    requires IsDivision(split, emission, settled, dials, floors, bountyShare)
    ensures split.serving + split.modelling == split.available <= emission
    ensures split.serving >= 0 && split.modelling >= 0
    ensures Total(split.shares) + split.burned == split.serving
    ensures split.burned >= 0 && NonNegative(split.shares)
  {
    var amounts := AmountsOf(emission, Earned(settled), dials, bountyShare);
    AmountsFit(emission, Earned(settled), dials, bountyShare);
    BooksBalance(amounts, settled, Targets(amounts.ceiling, floors), split.excluded);
  }

  /** What is paid for traffic, and the levy on its billing, stay below that billing. */
  ghost predicate BelowBilling(payout: int, billing: nat, revenueShare: real) {
    billing > 0 ==> payout as real + revenueShare * billing as real < billing as real
  }

  /**
   * Taken together: what all operators are paid for traffic, and the revenue share of all they billed, stay below what
   * they billed.
   */
  lemma AllTrafficLoses(split: Split, emission: int, settled: seq<Settled>, dials: Dials, floors: map<string, real>,
                        bountyShare: real)
    requires emission >= 0 && Allowed(dials) && 0.0 <= bountyShare <= MAX_BOUNTY_SHARE
    requires IsDivision(split, emission, settled, dials, floors, bountyShare)
    ensures Total(split.shares) >= Total(split.floors)
    ensures BelowBilling(Total(split.shares) - Total(split.floors), BillingSum(Earned(settled)), dials.revenueShare)
  {
    var amounts := AmountsOf(emission, Earned(settled), dials, bountyShare);
    AmountsFit(emission, Earned(settled), dials, bountyShare);
    PayoutWithinRebate(split, amounts, settled, Targets(amounts.ceiling, floors));
    PayoutBelowBilling(Total(split.shares) - Total(split.floors), BillingSum(Earned(settled)), amounts.rebated, dials);
  }

  lemma PayoutBelowBilling(payout: int, billing: nat, rebated: int, dials: Dials)
    requires payout <= rebated && rebated == PartOf(billing, dials.rebate) && Allowed(dials)
    ensures BelowBilling(payout, billing, dials.revenueShare)
  {
    RebateBelow(billing, dials);
  }

  lemma PayoutWithinRebate(split: Split, amounts: Amounts, settled: seq<Settled>, targets: map<string, int>)
    requires Fit(amounts) && Divides(split, amounts, settled, targets)
    ensures 0 <= Total(split.shares) - Total(split.floors) <= amounts.rebated
  {
    PayoutFits(amounts, settled, split.excluded);
    BooksBalance(amounts, settled, targets, split.excluded);
  }

  lemma RebateBelow(billing: nat, dials: Dials)
    requires Allowed(dials)
    ensures billing > 0 ==>
      PartOf(billing, dials.rebate) as real + dials.revenueShare * billing as real < billing as real
  {
    CutNonNegative(billing, dials.rebate);
    if billing > 0 {
      Below(billing as real, PartOf(billing, dials.rebate) as real, dials.rebate, dials.revenueShare);
    }
  }

  /** Nobody excluded: all that is paid goes out, except the part of the reserve that no bounty used. */
  lemma AllPaidOut(split: Split, emission: int, settled: seq<Settled>, dials: Dials, floors: map<string, real>,
                   bountyShare: real)
    requires emission >= 0 && Allowed(dials) && 0.0 <= bountyShare <= MAX_BOUNTY_SHARE
    requires IsDivision(split, emission, settled, dials, floors, bountyShare) && split.excluded == map[]
    ensures var amounts := AmountsOf(emission, Earned(settled), dials, bountyShare);
      Total(split.shares) - Total(split.floors)
      == Total(split.bounties) + if split.totalScore > 0 then amounts.paid - amounts.reserve else 0
  {
    var amounts := AmountsOf(emission, Earned(settled), dials, bountyShare);
    AmountsFit(emission, Earned(settled), dials, bountyShare);
    BooksBalance(amounts, settled, Targets(amounts.ceiling, floors), split.excluded);
    AllPaid(amounts, settled, split.excluded);
  }

  /** What is handed out by score. */
  function HandedOut(amounts: Amounts, earned: seq<Settled>): int {
    if ScoreSum(earned) > 0 then amounts.paid - amounts.reserve else 0
  }

  lemma SharesHandedOut(amounts: Amounts, earned: seq<Settled>)
    requires Fit(amounts)
    ensures Total(Shares(amounts.paid - amounts.reserve, earned)) == HandedOut(amounts, earned)
  {
    SharesExact(amounts.paid - amounts.reserve, earned);
  }

  lemma AllPaid(amounts: Amounts, settled: seq<Settled>, excluded: map<string, string>)
    requires Fit(amounts) && excluded == map[]
    ensures AddsUp(Left(EarnedShares(amounts, settled), BountiesOf(amounts, settled, excluded), excluded),
                   BountiesOf(amounts, settled, excluded), HandedOut(amounts, Earned(settled)))
  {
    SharesHandedOut(amounts, Earned(settled));
    NobodyLeftOut(EarnedShares(amounts, settled), BountiesOf(amounts, settled, excluded), excluded,
                  HandedOut(amounts, Earned(settled)));
  }

  /** Every floor operator reaches its part of the pool, unless nothing is left to burn; nobody is topped up past it. */
  lemma FloorsMet(split: Split, emission: int, settled: seq<Settled>, dials: Dials, floors: map<string, real>,
                  bountyShare: real, o: string)
    requires emission >= 0 && Allowed(dials) && 0.0 <= bountyShare <= MAX_BOUNTY_SHARE
    requires IsDivision(split, emission, settled, dials, floors, bountyShare) && o in floors
    ensures var got := Get(split.shares, o, 0);
      && (WithinOneOf(got, split.serving, floors[o]) || split.burned == 0)
      && (o in split.floors ==> got > 0 && WithinPart(got, split.serving, floors[o]))
  {
    var amounts := AmountsOf(emission, Earned(settled), dials, bountyShare);
    var targets := Targets(amounts.ceiling, floors);
    AmountsFit(emission, Earned(settled), dials, bountyShare);
    TargetsMet(amounts, settled, targets, split.excluded, o);
    BooksBalance(amounts, settled, targets, split.excluded);
    GrantsArePositive(amounts, settled, targets, split.excluded, o);
    TargetIsWhole(split.serving, floors[o], Get(split.shares, o, 0));
  }

  /** A grant tops up something that is not negative. */
  lemma GrantsArePositive(amounts: Amounts, settled: seq<Settled>, targets: map<string, int>,
                          excluded: map<string, string>, o: string)
    requires Fit(amounts)
    ensures var books := Books(amounts, settled, targets, excluded);
      o in books.granted ==> Get(books.shares, o, 0) > 0
  {
    var before := Left(EarnedShares(amounts, settled), BountiesOf(amounts, settled, excluded), excluded);
    PayoutFits(amounts, settled, excluded);
    GrantedAdds(amounts.ceiling, before, targets, o);
    GrantedIsPositive(Ledger(before, map[], amounts.ceiling - Total(before)), targets,
                      Strings.SortedNames(targets.Keys), o);
  }

  ghost predicate WithinPart(n: int, amount: int, part: real) {
    n as real <= amount as real * part
  }

  lemma TargetIsWhole(ceiling: int, share: real, got: int)
    ensures got >= Target(ceiling, share) ==> WithinOneOf(got, ceiling, share)
    ensures 0 < got <= Target(ceiling, share) ==> WithinPart(got, ceiling, share)
  {
  }

  lemma BooksEarlierFirst(ceiling: int, shares: map<string, int>, targets: map<string, int>, a: string, b: string)
    requires Total(shares) <= ceiling && a in targets && Strings.Before(a, b)
    ensures var books := Granted(ceiling, shares, targets);
      b in books.granted ==> Get(books.shares, a, 0) >= targets[a]
  {
    GrantedAdds(ceiling, shares, targets, b);
    if b in targets {
      var i, j := Strings.EarlierStands(targets.Keys, a, b);
      Strings.NamesDistinct(targets.Keys);
      EarlierFirst(Ledger(shares, map[], ceiling - Total(shares)), targets, Strings.SortedNames(targets.Keys), i, j);
    }
  }

  /** Floors are granted in the order of names: nobody gets one while an earlier floor operator is a unit short. */
  lemma FloorsByName(split: Split, emission: int, settled: seq<Settled>, dials: Dials, floors: map<string, real>,
                     bountyShare: real, a: string, b: string)
    requires emission >= 0 && Allowed(dials) && 0.0 <= bountyShare <= MAX_BOUNTY_SHARE
    requires IsDivision(split, emission, settled, dials, floors, bountyShare)
    requires a in floors && b in split.floors && Strings.Before(a, b)
    ensures WithinOneOf(Get(split.shares, a, 0), split.serving, floors[a])
  {
    var amounts := AmountsOf(emission, Earned(settled), dials, bountyShare);
    AmountsFit(emission, Earned(settled), dials, bountyShare);
    EarlierTargetMet(amounts, settled, Targets(amounts.ceiling, floors), split.excluded, a, b);
    TargetIsWhole(split.serving, floors[a], Get(split.shares, a, 0));
  }

  lemma EarlierTargetMet(amounts: Amounts, settled: seq<Settled>, targets: map<string, int>,
                         excluded: map<string, string>, a: string, b: string)
    requires Fit(amounts) && a in targets && Strings.Before(a, b)
    ensures var books := Books(amounts, settled, targets, excluded);
      b in books.granted ==> Get(books.shares, a, 0) >= targets[a]
  {
    PayoutFits(amounts, settled, excluded);
    BooksEarlierFirst(amounts.ceiling,
                      Left(EarnedShares(amounts, settled), BountiesOf(amounts, settled, excluded), excluded),
                      targets, a, b);
  }

  lemma TargetsMet(amounts: Amounts, settled: seq<Settled>, targets: map<string, int>, excluded: map<string, string>,
                   o: string)
    requires Fit(amounts) && o in targets
    ensures var books := Books(amounts, settled, targets, excluded); var got := Get(books.shares, o, 0);
      && (got >= targets[o] || books.remaining == 0)
      && (o in books.granted ==> got <= targets[o])
  {
    PayoutFits(amounts, settled, excluded);
    GrantedReaches(amounts.ceiling,
                   Left(EarnedShares(amounts, settled), BountiesOf(amounts, settled, excluded), excluded), targets, o);
  }

  /** An excluded operator earns nothing and wins no bounty: all it has is its floor. */
  lemma ExcludedGetsOnlyItsFloor(split: Split, emission: int, settled: seq<Settled>, dials: Dials,
                                 floors: map<string, real>, bountyShare: real, o: string)
    requires emission >= 0 && Allowed(dials) && 0.0 <= bountyShare <= MAX_BOUNTY_SHARE
    requires IsDivision(split, emission, settled, dials, floors, bountyShare) && o in split.excluded
    ensures Get(split.shares, o, 0) == Get(split.floors, o, 0)
    ensures o !in split.bounties
    ensures o !in floors ==> o !in split.floors
  {
    var amounts := AmountsOf(emission, Earned(settled), dials, bountyShare);
    AmountsFit(emission, Earned(settled), dials, bountyShare);
    var targets := Targets(amounts.ceiling, floors);
    ExcludedHasNothing(amounts, settled, split.excluded, o);
    GrantedAdds(amounts.ceiling,
                Left(EarnedShares(amounts, settled), BountiesOf(amounts, settled, split.excluded), split.excluded),
                targets, o);
  }

  lemma ExcludedHasNothing(amounts: Amounts, settled: seq<Settled>, excluded: map<string, string>, o: string)
    requires Fit(amounts) && o in excluded
    ensures o !in BountiesOf(amounts, settled, excluded)
      && o !in Left(EarnedShares(amounts, settled), BountiesOf(amounts, settled, excluded), excluded)
  {
    BountiesFit(amounts.reserve, settled, excluded);
  }

  /** Of all the operators of one coldkey, only the leader is paid for traffic. */
  lemma OneOperatorPerColdkeyIsPaid(split: Split, emission: int, settled: seq<Settled>, dials: Dials,
                                    floors: map<string, real>, bountyShare: real, coldkey: string, o: string, p: string)
    requires emission >= 0 && Allowed(dials) && 0.0 <= bountyShare <= MAX_BOUNTY_SHARE
    requires IsDivision(split, emission, settled, dials, floors, bountyShare)
    requires coldkey != "" && ColdkeyOf(settled, o) == coldkey && ColdkeyOf(settled, p) == coldkey
    requires Get(split.shares, o, 0) > Get(split.floors, o, 0) && Get(split.shares, p, 0) > Get(split.floors, p, 0)
    ensures o == p && Leads(settled, o, coldkey)
  {
    if o in split.excluded {
      ExcludedGetsOnlyItsFloor(split, emission, settled, dials, floors, bountyShare, o);
    }
    if p in split.excluded {
      ExcludedGetsOnlyItsFloor(split, emission, settled, dials, floors, bountyShare, p);
    }
    RankLeOrders(settled);
  }
}
