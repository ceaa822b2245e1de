/** From standings to weights: rank payouts, the pools combined, and the serving split folded in. */
module Emission {
  import opened Prelude
  import opened Sorting
  import opened Dicts
  import opened Reals
  import Strings

  const SLM := "slm"
  const HARNESS := "harness"
  const ROUTER := "router"
  const ESCALATION := "escalation"
  const SYSTEM := "system"
  const POOLS: seq<string> := [SLM, HARNESS, ROUTER, ESCALATION, SYSTEM]
  const POOL_SHARE: real := 0.2
  const RANK_PAYOUT: seq<real> := [0.40, 0.25, 0.15, 0.12, 0.08]

  datatype Standing = Standing(hotkey: string, score: real, eligible: bool, commitBlock: int)

  // ---------------------------------------------------------------- ranks and their payouts

  /** (-score, commit_block, hotkey) of a is at most that of b. */
  predicate Ahead(a: Standing, b: Standing) {
    a.score > b.score ||
    (a.score == b.score
     && (a.commitBlock < b.commitBlock || (a.commitBlock == b.commitBlock && Strings.Le(a.hotkey, b.hotkey))))
  }

  lemma AheadOrders()
    ensures Ordering(Ahead)
  {
    Strings.LeOrdering();
  }

  predicate Contends(s: Standing) {
    s.eligible && s.score > 0.0
  }

  function Contenders(standings: seq<Standing>): seq<Standing> {
    if |standings| == 0 then []
    else (if Contends(standings[0]) then [standings[0]] else []) + Contenders(standings[1..])
  }

  function Rank(standings: seq<Standing>): seq<Standing> {
    Sort(Contenders(standings), Ahead)
  }

  function Fsum(s: seq<real>): real {
    if |s| == 0 then 0.0 else Fsum(s[..|s| - 1]) + s[|s| - 1]
  }

  function Divided(s: seq<real>, whole: real): (r: seq<real>)
    requires whole != 0.0
    ensures |r| == |s| && forall i :: 0 <= i < |s| ==> r[i] == s[i] / whole
  {
    seq(|s|, i requires 0 <= i < |s| => s[i] / whole)
  }

  /** The first payouts of the schedule, scaled to the whole. */
  function PayoutSchedule(eligible: int, schedule: seq<real>): seq<real> {
    var paid := schedule[..Min(Max(0, eligible), |schedule|)];
    var total := Fsum(paid);
    if |paid| == 0 || total <= 0.0 then [] else Divided(paid, total)
  }

  /** hotkey to share, a later standing of the same hotkey replacing an earlier one. */
  function Paid(ordered: seq<Standing>, shares: seq<real>): map<string, real>
    requires |ordered| == |shares|
  {
    if |ordered| == 0 then map[]
    else
      var last := |ordered| - 1;
      Paid(ordered[..last], shares[..last])[ordered[last].hotkey := shares[last]]
  }

  function Top(standings: seq<Standing>): seq<Standing> {
    var ranked := Rank(standings);
    ranked[..Min(|ranked|, |RANK_PAYOUT|)]
  }

  /** The schedule paid to the first of a ranking. */
  function PayRanked(top: seq<Standing>): map<string, real>
    requires |top| <= |RANK_PAYOUT|
  {
    ScheduleFits(|top|);
    Paid(top, PayoutSchedule(|top|, RANK_PAYOUT))
  }

  function PoolPayout(standings: seq<Standing>): map<string, real> {
    PayRanked(Top(standings))
  }

  /** The schedule in use. */
  lemma ScheduleInUse()
    ensures RANK_PAYOUT == [0.40, 0.25, 0.15, 0.12, 0.08] && Fsum(RANK_PAYOUT) == 1.0
    ensures PayoutSchedule(5, RANK_PAYOUT) == RANK_PAYOUT
  {
    var s := RANK_PAYOUT;
    assert s[..1] + [s[1]] == s[..2] && s[..2] + [s[2]] == s[..3] && s[..3] + [s[3]] == s[..4] && s[..4] + [s[4]] == s;
    assert s[..1][..0] == [] && s[..2][..1] == s[..1] && s[..3][..2] == s[..2] && s[..4][..3] == s[..3];
    assert Fsum(s[..1]) == 0.40;
    assert Fsum(s[..2]) == 0.65;
    assert Fsum(s[..3]) == 0.80;
    assert Fsum(s[..4]) == 0.92;
    assert s[..5] == s;
  }

  lemma DividedTotal(s: seq<real>, whole: real)
    requires whole != 0.0
    ensures Fsum(Divided(s, whole)) == Fsum(s) / whole
  {
    if |s| > 0 {
      var last := |s| - 1;
      DividedTotal(s[..last], whole);
      assert Divided(s, whole)[..last] == Divided(s[..last], whole);
      Quotients(Fsum(s[..last]), s[last], whole);
    }
  }

  /**
   * For any number of ranks and any schedule: nothing is paid if nothing is to be paid, and otherwise the first so many
   * parts of it, scaled to the whole.
   */
  lemma SchedulePays(eligible: int, schedule: seq<real>)
    ensures var r := PayoutSchedule(eligible, schedule); var n := Min(Max(0, eligible), |schedule|);
      && (r == [] <==> n == 0 || Fsum(schedule[..n]) <= 0.0)
      && (r != [] ==> |r| == n && Fsum(r) == 1.0)
      && (AllPositive(schedule) ==> |r| == n && AllPositive(r))
      && (AllPositive(schedule) && Descending(schedule) ==> Descending(r))
  {
    var n := Min(Max(0, eligible), |schedule|);
    var paid := schedule[..n];
    if AllPositive(schedule) {
      PositiveSum(paid);
    }
    if n > 0 && Fsum(paid) > 0.0 {
      DividedTotal(paid, Fsum(paid));
      QuotientOfSelf(Fsum(paid));
      if AllPositive(schedule) {
        DividedPositive(paid, Fsum(paid));
        if Descending(schedule) {
          DividedOrder(paid, Fsum(paid));
        }
      }
    }
  }

  lemma {:induction false} PositiveSum(s: seq<real>)
    requires AllPositive(s)
    ensures |s| > 0 ==> Fsum(s) > 0.0
  {
    if |s| > 0 {
      PositiveSum(s[..|s| - 1]);
    }
  }

  /**
   * The schedule in use, over the ranks it has: every rank is paid something, a better rank more, and all together the
   * whole.
   */
  lemma ScheduleFits(n: nat)
    requires n <= |RANK_PAYOUT|
    ensures var r := PayoutSchedule(n, RANK_PAYOUT);
      |r| == n && (n > 0 ==> Fsum(r) == 1.0) && AllPositive(r) && Descending(r)
  {
    SchedulePays(n, RANK_PAYOUT);
    assert AllPositive(RANK_PAYOUT) && Descending(RANK_PAYOUT);
  }

  ghost predicate AllPositive(shares: seq<real>) {
    forall i :: 0 <= i < |shares| ==> shares[i] > 0.0
  }

  ghost predicate Descending(shares: seq<real>) {
    forall i, j :: 0 <= i < j < |shares| ==> shares[i] > shares[j]
  }

  lemma DividedPositive(s: seq<real>, whole: real)
    requires whole > 0.0 && AllPositive(s)
    ensures AllPositive(Divided(s, whole))
  {
    forall i | 0 <= i < |s| ensures Divided(s, whole)[i] > 0.0 {
      PositiveQuotient(s[i], whole);
    }
  }

  lemma DividedOrder(s: seq<real>, whole: real)
    requires whole > 0.0 && Descending(s)
    ensures Descending(Divided(s, whole))
  {
    forall i, j | 0 <= i < j < |s| ensures Divided(s, whole)[i] > Divided(s, whole)[j] {
      SmallerQuotient(s[j], s[i], whole);
    }
  }

  ghost predicate DistinctHotkeys(s: seq<Standing>) {
    forall i, j :: 0 <= i < j < |s| ==> s[i].hotkey != s[j].hotkey
  }

  lemma {:induction false} PaidKeys(ordered: seq<Standing>, shares: seq<real>, hotkey: string)
    requires |ordered| == |shares|
    ensures hotkey in Paid(ordered, shares) <==> exists i :: 0 <= i < |ordered| && ordered[i].hotkey == hotkey
  {
    if |ordered| > 0 {
      var last := |ordered| - 1;
      PaidKeys(ordered[..last], shares[..last], hotkey);
      if hotkey in Paid(ordered[..last], shares[..last]) {
        var i :| 0 <= i < last && ordered[..last][i].hotkey == hotkey;
        assert ordered[i].hotkey == hotkey;
      } else if i :| 0 <= i < |ordered| && ordered[i].hotkey == hotkey {
        assert i < last ==> ordered[..last][i].hotkey == hotkey;
      }
    }
  }

  lemma {:induction false} PaidAt(ordered: seq<Standing>, shares: seq<real>, i: nat)
    requires |ordered| == |shares| && i < |ordered| && DistinctHotkeys(ordered)
    ensures ordered[i].hotkey in Paid(ordered, shares) && Paid(ordered, shares)[ordered[i].hotkey] == shares[i]
  {
    var last := |ordered| - 1;
    if i < last {
      PaidAt(ordered[..last], shares[..last], i);
    }
  }

  /** The whole schedule is paid exactly when no hotkey stands twice among the paid. */
  lemma {:induction false} PaidTotal(ordered: seq<Standing>, shares: seq<real>)
    requires |ordered| == |shares| && AllPositive(shares)
    ensures var m := Paid(ordered, shares);
      && RealTotal(m) <= Fsum(shares)
      && (RealTotal(m) == Fsum(shares) <==> DistinctHotkeys(ordered))
      && (forall o :: o in m ==> m[o] > 0.0)
  {
    if |ordered| > 0 {
      var last := |ordered| - 1;
      var hotkey, m := ordered[last].hotkey, Paid(ordered[..last], shares[..last]);
      PaidTotal(ordered[..last], shares[..last]);
      PaidKeys(ordered[..last], shares[..last], hotkey);
      RealTotalUpdate(m, hotkey, shares[last]);
      DistinctLast(ordered);
    }
  }

  lemma DistinctLast(s: seq<Standing>)
    requires |s| > 0
    ensures var last := |s| - 1;
      DistinctHotkeys(s) <==>
        DistinctHotkeys(s[..last]) && !exists i :: 0 <= i < last && s[..last][i].hotkey == s[last].hotkey
  {
    var last := |s| - 1;
    if DistinctHotkeys(s) {
      assert forall i :: 0 <= i < last ==> s[..last][i] == s[i];
    } else {
      var i, j :| 0 <= i < j < |s| && s[i].hotkey == s[j].hotkey;
      if j < last {
        assert s[..last][i].hotkey == s[..last][j].hotkey;
      } else {
        assert s[..last][i].hotkey == s[last].hotkey;
      }
    }
  }

  /**
   * A pool pays nobody exactly when nobody contends; otherwise it pays the whole, if and only if no paid hotkey stands
   * twice.
   */
  lemma PoolPays(standings: seq<Standing>)
    ensures var m := PoolPayout(standings);
      && (m == map[] <==> forall s :: s in standings ==> !(s.eligible && s.score > 0.0))
      && (m != map[] ==> 0.0 < RealTotal(m) <= 1.0 && (RealTotal(m) == 1.0 <==> DistinctHotkeys(Top(standings))))
      && (forall o :: o in m ==> m[o] > 0.0)
  {
    var top := Top(standings);
    var shares := PayoutSchedule(|top|, RANK_PAYOUT);
    ScheduleFits(|top|);
    PaidTotal(top, shares);
    ContendersMembers(standings);
    if |top| > 0 {
      var m := PoolPayout(standings);
      PaidKeys(top, shares, top[|top| - 1].hotkey);
      assert top[|top| - 1].hotkey in m;
      RealTotalBounds(m);
    }
  }

  lemma {:induction false} ContendersMembers(standings: seq<Standing>)
    ensures forall s :: s in Contenders(standings) <==> s in standings && Contends(s)
    ensures |Contenders(standings)| == 0 <==> forall s :: s in standings ==> !Contends(s)
  {
    if |standings| > 0 {
      ContendersMembers(standings[1..]);
      assert standings == [standings[0]] + standings[1..];
    }
  }

  lemma ContendersDistinct(standings: seq<Standing>)
    requires DistinctHotkeys(standings)
    ensures DistinctHotkeys(Contenders(standings))
  {
    if |standings| > 0 {
      var rest := standings[1..];
      ContendersDistinct(rest);
      ContendersMembers(rest);
      assert forall i :: 0 <= i < |rest| ==> rest[i] == standings[i + 1];
      forall s | s in Contenders(rest) ensures s.hotkey != standings[0].hotkey {
        assert s in rest;
      }
    }
  }

  /** Sorting moves standings about; hotkeys that differ still differ. */
  lemma SortedDistinct(s: seq<Standing>, t: seq<Standing>)
    requires multiset(s) == multiset(t) && DistinctHotkeys(s)
    ensures DistinctHotkeys(t)
  {
    forall i, j | 0 <= i < j < |t| ensures t[i].hotkey != t[j].hotkey {
      if t[i].hotkey == t[j].hotkey {
        SameMembers(s, t, t[i]);
        SameMembers(s, t, t[j]);
        var k :| 0 <= k < |s| && s[k] == t[i];
        var l :| 0 <= l < |s| && s[l] == t[j];
        assert k == l;
        Twice(t, i, j);
        Once(s, k);
        assert false;
      }
    }
  }

  lemma Twice(t: seq<Standing>, i: nat, j: nat)
    requires i < j < |t| && t[i] == t[j]
    ensures multiset(t)[t[i]] >= 2
  {
    assert t == t[..i] + [t[i]] + t[i + 1..j] + [t[j]] + t[j + 1..];
  }

  lemma Once(s: seq<Standing>, k: nat)
    requires k < |s| && DistinctHotkeys(s)
    ensures multiset(s)[s[k]] == 1
  {
    assert s == s[..k] + [s[k]] + s[k + 1..];
    assert s[k] !in s[..k] && s[k] !in s[k + 1..];
  }

  /** The last place of a hotkey. */
  function LastPlace(ordered: seq<Standing>, hotkey: string): Option<nat> {
    if |ordered| == 0 then None
    else if ordered[|ordered| - 1].hotkey == hotkey then Some(|ordered| - 1)
    else LastPlace(ordered[..|ordered| - 1], hotkey)
  }

  lemma {:induction false} PaidByPlace(ordered: seq<Standing>, shares: seq<real>, hotkey: string)
    requires |ordered| == |shares|
    ensures var m, place := Paid(ordered, shares), LastPlace(ordered, hotkey);
      && (hotkey in m <==> place.Some?)
      && (place.Some? ==>
          place.value < |ordered| && ordered[place.value].hotkey == hotkey && m[hotkey] == shares[place.value])
  {
    if |ordered| > 0 {
      PaidByPlace(ordered[..|ordered| - 1], shares[..|ordered| - 1], hotkey);
    }
  }

  /**
   * In any pool, hotkeys that stand in it more than once included, a hotkey is paid for the last of its places that is
   * paid at all: it gets more than another exactly if that place is the better one.
   */
  lemma PaidByLastPlace(standings: seq<Standing>, x: string, y: string)
    ensures var m, top := PoolPayout(standings), Top(standings);
      && (x in m <==> LastPlace(top, x).Some?) && (y in m <==> LastPlace(top, y).Some?)
      && (x in m && y in m ==>
            && (m[x] > m[y] <==> LastPlace(top, x).value < LastPlace(top, y).value)
            && (m[x] == m[y] <==> x == y))
  {
    var top := Top(standings);
    var shares := PayoutSchedule(|top|, RANK_PAYOUT);
    ScheduleFits(|top|);
    PaidByPlace(top, shares, x);
    PaidByPlace(top, shares, y);
  }

  /** Place i of a ranking is paid its part of the schedule, and a place below the schedule nothing. */
  lemma PlacePays(ranked: seq<Standing>, n: nat, i: nat)
    requires DistinctHotkeys(ranked) && n == Min(|ranked|, |RANK_PAYOUT|) && i < |ranked|
    ensures var m, shares := PayRanked(ranked[..n]), PayoutSchedule(n, RANK_PAYOUT);
      && |shares| == n
      && (i < n ==> ranked[i].hotkey in m && m[ranked[i].hotkey] == shares[i])
      && (i >= n ==> ranked[i].hotkey !in m)
  {
    var shares := PayoutSchedule(n, RANK_PAYOUT);
    ScheduleFits(n);
    if i < n {
      PaidAt(ranked[..n], shares, i);
    } else {
      PaidKeys(ranked[..n], shares, ranked[i].hotkey);
      assert forall k :: 0 <= k < n ==> ranked[..n][k] == ranked[k];
    }
  }

  lemma PlacesFall(ranked: seq<Standing>, n: nat, i: nat, j: nat)
    requires DistinctHotkeys(ranked) && n == Min(|ranked|, |RANK_PAYOUT|) && i < j < |ranked|
    ensures var m := PayRanked(ranked[..n]); var a, b := ranked[i].hotkey, ranked[j].hotkey;
      && Get(m, a, 0.0) >= Get(m, b, 0.0) && (b in m ==> a in m && m[a] > m[b])
  {
    PlacePays(ranked, n, i);
    PlacePays(ranked, n, j);
    ScheduleFits(n);
  }

  /** x comes before y: the higher score, then the earlier commit, then the lower hotkey. */
  ghost predicate Beats(x: Standing, y: Standing) {
    || x.score > y.score
    || (x.score == y.score && x.commitBlock < y.commitBlock)
    || (x.score == y.score && x.commitBlock == y.commitBlock && Strings.Before(x.hotkey, y.hotkey))
  }

  lemma AheadExactly(x: Standing, y: Standing)
    requires x.hotkey != y.hotkey
    ensures Ahead(x, y) <==> Beats(x, y)
    ensures Beats(x, y) <==> !Beats(y, x)
  {
    Strings.LeExactly(x.hotkey, y.hotkey);
    Strings.LeExactly(y.hotkey, x.hotkey);
    Strings.LeTotal(x.hotkey, y.hotkey);
    if x.score == y.score && x.commitBlock == y.commitBlock && Strings.Le(x.hotkey, y.hotkey) {
      if Strings.Le(y.hotkey, x.hotkey) {
        Strings.LeAntisymmetric(x.hotkey, y.hotkey);
      }
    }
  }

  /** With one standing a hotkey, whoever has the better score, commit or hotkey is paid more. */
  lemma BetterRankPaysMore(standings: seq<Standing>, x: Standing, y: Standing)
    requires DistinctHotkeys(standings) && x in standings && y in standings
    requires x.eligible && x.score > 0.0 && y.eligible && y.score > 0.0
    requires
      || x.score > y.score
      || (x.score == y.score && x.commitBlock < y.commitBlock)
      || (x.score == y.score && x.commitBlock == y.commitBlock && Strings.Before(x.hotkey, y.hotkey))
    ensures var m := PoolPayout(standings);
      && Get(m, x.hotkey, 0.0) >= Get(m, y.hotkey, 0.0)
      && (y.hotkey in m ==> x.hotkey in m && m[x.hotkey] > m[y.hotkey])
  {
    HotkeysDiffer(standings, x, y);
    AheadExactly(x, y);
    var i, j := Places(standings, x, y);
    var ranked := Rank(standings);
    PlacesFall(ranked, Min(|ranked|, |RANK_PAYOUT|), i, j);
  }

  lemma HotkeysDiffer(standings: seq<Standing>, x: Standing, y: Standing)
    requires DistinctHotkeys(standings) && x in standings && y in standings && Beats(x, y)
    ensures x.hotkey != y.hotkey
  {
    var i :| 0 <= i < |standings| && standings[i] == x;
    var j :| 0 <= j < |standings| && standings[j] == y;
    if i == j {
      Strings.LeExactly(x.hotkey, x.hotkey);
      Strings.NotBeforeItself(x.hotkey);
    }
  }

  /** Those that are in for a payout, and of them those that come before y. */
  ghost function Field(standings: seq<Standing>): set<Standing> {
    set s | s in standings && s.eligible && s.score > 0.0
  }

  ghost function Better(standings: seq<Standing>, y: Standing): set<Standing> {
    set x | x in Field(standings) && Beats(x, y)
  }

  lemma FieldRanked(standings: seq<Standing>)
    requires DistinctHotkeys(standings)
    ensures DistinctHotkeys(Rank(standings)) && |Rank(standings)| == |Field(standings)|
    ensures forall s :: s in Rank(standings) <==> s in Field(standings)
  {
    RankedInOrder(standings);
    ContendersMembers(standings);
    forall s ensures s in Rank(standings) <==> s in Field(standings) {
      SameMembers(Rank(standings), Contenders(standings), s);
    }
    MembersCount(Rank(standings));
    assert Field(standings) == set s | s in Rank(standings);
  }

  /** As many come before y as its place says. */
  lemma PlaceIsBetter(standings: seq<Standing>, y: Standing) returns (k: nat)
    requires DistinctHotkeys(standings) && y in Field(standings)
    ensures k == |Better(standings, y)| && k < |Rank(standings)| && Rank(standings)[k] == y
  {
    FieldRanked(standings);
    RankedInOrder(standings);
    var ranked := Rank(standings);
    k :| 0 <= k < |ranked| && ranked[k] == y;
    MembersCount(ranked[..k]);
    forall x ensures x in Better(standings, y) <==> x in ranked[..k] {
      if x in ranked[..k] {
        var i :| 0 <= i < k && ranked[i] == x;
        AheadExactly(x, y);
      }
      if x in Better(standings, y) {
        var i :| 0 <= i < |ranked| && ranked[i] == x;
        PlaceBefore(ranked, i, k);
        assert ranked[..k][i] == x;
      }
    }
    assert Better(standings, y) == set x | x in ranked[..k];
  }

  lemma PlaceBefore(ranked: seq<Standing>, i: nat, k: nat)
    requires i < |ranked| && k < |ranked| && DistinctHotkeys(ranked) && Ascending(ranked, Ahead)
    requires Beats(ranked[i], ranked[k])
    ensures i < k
  {
    if i == k {
      Strings.NotBeforeItself(ranked[k].hotkey);
    } else if k < i {
      AheadExactly(ranked[k], ranked[i]);
    }
  }

  /**
   * With one standing a hotkey, exactly what a pool pays: the part of the schedule that belongs to the number of those
   * that come before, over the parts that are paid; nothing where that number is the length of the schedule or more,
   * and nothing to those that are not eligible or have no score.
   */
  lemma PaidExactly(standings: seq<Standing>, y: Standing)
    requires DistinctHotkeys(standings) && y in standings
    ensures var m, k := PoolPayout(standings), |Better(standings, y)|;
      var parts := Fsum(RANK_PAYOUT[..Min(|Field(standings)|, |RANK_PAYOUT|)]);
      && (y.hotkey in m <==> y.eligible && y.score > 0.0 && k < |RANK_PAYOUT|)
      && (y.hotkey in m ==> parts > 0.0 && m[y.hotkey] == RANK_PAYOUT[k] / parts)
  {
    FieldRanked(standings);
    var ranked := Rank(standings);
    var n := Min(|ranked|, |RANK_PAYOUT|);
    if y.eligible && y.score > 0.0 {
      var k := PlaceIsBetter(standings, y);
      PlacePays(ranked, n, k);
      PositiveSum(RANK_PAYOUT[..n]);
    } else {
      NoClaimNoPay(standings, y);
    }
  }

  lemma NoClaimNoPay(standings: seq<Standing>, y: Standing)
    requires DistinctHotkeys(standings) && y in standings && !(y.eligible && y.score > 0.0)
    ensures y.hotkey !in PoolPayout(standings)
  {
    FieldRanked(standings);
    var ranked := Rank(standings);
    var n := Min(|ranked|, |RANK_PAYOUT|);
    ScheduleFits(n);
    PaidKeys(ranked[..n], PayoutSchedule(n, RANK_PAYOUT), y.hotkey);
    if y.hotkey in PoolPayout(standings) {
      var i :| 0 <= i < n && ranked[..n][i].hotkey == y.hotkey;
      assert ranked[i] in ranked;
      OneStanding(standings, ranked[i], y);
    }
  }

  lemma OneStanding(standings: seq<Standing>, x: Standing, y: Standing)
    requires DistinctHotkeys(standings) && x in standings && y in standings && x.hotkey == y.hotkey
    ensures x == y
  {
    var i :| 0 <= i < |standings| && standings[i] == x;
    var j :| 0 <= j < |standings| && standings[j] == y;
    assert i == j;
  }

  /**
   * Hotkeys repeated or not: the ranking holds every standing with a claim as often as the pool, nobody behind one it
   * beats.
   */
  lemma RankExactly(standings: seq<Standing>, s: Standing)
    ensures multiset(Rank(standings))[s] == if s.eligible && s.score > 0.0 then multiset(standings)[s] else 0
    ensures var ranked := Rank(standings);
      forall i, j :: 0 <= i < j < |ranked| && ranked[i].hotkey != ranked[j].hotkey ==> Beats(ranked[i], ranked[j])
  {
    ContendersCount(standings, s);
    AheadOrders();
    SortAscends(Contenders(standings), Ahead);
    var ranked := Rank(standings);
    forall i, j | 0 <= i < j < |ranked| && ranked[i].hotkey != ranked[j].hotkey ensures Beats(ranked[i], ranked[j]) {
      AheadExactly(ranked[i], ranked[j]);
    }
  }

  lemma {:induction false} ContendersCount(standings: seq<Standing>, s: Standing)
    ensures multiset(Contenders(standings))[s] == if s.eligible && s.score > 0.0 then multiset(standings)[s] else 0
  {
    if |standings| > 0 {
      ContendersCount(standings[1..], s);
      assert standings == [standings[0]] + standings[1..];
    }
  }

  lemma Places(standings: seq<Standing>, a: Standing, b: Standing) returns (i: nat, j: nat)
    requires DistinctHotkeys(standings) && a in standings && b in standings && Contends(a) && Contends(b)
    requires Ahead(a, b) && a != b
    ensures var ranked := Rank(standings);
      DistinctHotkeys(ranked) && i < j < |ranked| && ranked[i] == a && ranked[j] == b
  {
    ContendersMembers(standings);
    RankedInOrder(standings);
    i, j := PlacesInOrder(Contenders(standings), Rank(standings), a, b);
  }

  lemma RankedInOrder(standings: seq<Standing>)
    requires DistinctHotkeys(standings)
    ensures DistinctHotkeys(Rank(standings)) && Ascending(Rank(standings), Ahead)
  {
    ContendersDistinct(standings);
    SortedDistinct(Contenders(standings), Rank(standings));
    AheadOrders();
    SortAscends(Contenders(standings), Ahead);
  }

  lemma PlacesInOrder(s: seq<Standing>, ranked: seq<Standing>, a: Standing, b: Standing) returns (i: nat, j: nat)
    requires multiset(s) == multiset(ranked) && a in s && b in s && Ahead(a, b) && a != b
    requires DistinctHotkeys(ranked) && Ascending(ranked, Ahead)
    ensures i < j < |ranked| && ranked[i] == a && ranked[j] == b
  {
    i := Place(s, ranked, a);
    j := Place(s, ranked, b);
    if j < i {
      AheadIsStrict(a, b);
    }
  }

  lemma Place(s: seq<Standing>, t: seq<Standing>, x: Standing) returns (i: nat)
    requires multiset(s) == multiset(t) && x in s
    ensures i < |t| && t[i] == x
  {
    SameMembers(s, t, x);
    i :| 0 <= i < |t| && t[i] == x;
  }

  lemma AheadIsStrict(a: Standing, b: Standing)
    requires Ahead(a, b) && Ahead(b, a)
    ensures a.hotkey == b.hotkey
  {
    if a.commitBlock == b.commitBlock {
      Strings.LeAntisymmetric(a.hotkey, b.hotkey);
    }
  }

  // ---------------------------------------------------------------- the pools combined

  /** The weights after one pool: its payout scaled to the pool's share, or the share burned. */
  function WithPool(weights: map<string, real>, standings: seq<Standing>, burnTo: string): map<string, real> {
    var paid := PoolPayout(standings);
    if paid != map[] then RealMerge(weights, Scaled(paid, POOL_SHARE))
    else if burnTo != "" then weights[burnTo := Get(weights, burnTo, 0.0) + POOL_SHARE]
    else weights
  }

  function WithPools(weights: map<string, real>, names: seq<string>, pools: map<string, seq<Standing>>,
                     burnTo: string): map<string, real>
    decreases |names|
  {
    if |names| == 0 then weights
    else WithPools(WithPool(weights, Get(pools, names[0], []), burnTo), names[1..], pools, burnTo)
  }

  /** A pool that pays nobody is reported as burned. */
  function WithBurn(burned: map<string, real>, name: string, standings: seq<Standing>): map<string, real> {
    if PoolPayout(standings) == map[] then burned[name := POOL_SHARE] else burned
  }

  function WithBurns(burned: map<string, real>, names: seq<string>,
                     pools: map<string, seq<Standing>>): map<string, real>
    decreases |names|
  {
    if |names| == 0 then burned
    else WithBurns(WithBurn(burned, names[0], Get(pools, names[0], [])), names[1..], pools)
  }

  /** Scaled so that the values sum to one, when there is anything to scale. */
  ghost function Normalised(m: map<string, real>): map<string, real> {
    if RealTotal(m) <= 0.0 then map[] else map o | o in m :: m[o] / RealTotal(m)
  }

  method Normalise(m: map<string, real>) returns (r: map<string, real>)
    ensures r == Normalised(m)
  {
    var total := SumReals(m);
    r := if total <= 0.0 then map[] else map o | o in m :: m[o] / total;
  }

  lemma AsFactor(m: map<string, real>, total: real)
    requires total != 0.0
    ensures (map o | o in m :: m[o] / total) == Scaled(m, 1.0 / total)
  {
    forall o | o in m ensures m[o] / total == Times(1.0 / total, m[o]) {
    }
  }

  /** Normalising always comes to one, and changes nothing that comes to one already. */
  lemma NormalisedTotal(m: map<string, real>)
    ensures RealTotal(m) > 0.0 ==> RealTotal(Normalised(m)) == 1.0
    ensures RealTotal(m) == 1.0 ==> Normalised(m) == m
  {
    var total := RealTotal(m);
    if total > 0.0 {
      AsFactor(m, total);
      assert Normalised(m) == Scaled(m, 1.0 / total);
      ScaledTotal(m, 1.0 / total);
      Reciprocal(total);
    }
    if total == 1.0 {
      WholeUnscaled(m);
    }
  }

  lemma WholeUnscaled(m: map<string, real>)
    requires RealTotal(m) == 1.0
    ensures Normalised(m) == m
  {
  }

  /** Each value over the total of them all. */
  lemma NormalisedExactly(m: map<string, real>, o: string)
    ensures RealTotal(m) > 0.0 ==> Get(Normalised(m), o, 0.0) * RealTotal(m) == Get(m, o, 0.0)
    ensures RealTotal(m) > 0.0 ==> (o in Normalised(m) <==> o in m)
    ensures RealTotal(m) <= 0.0 ==> o !in Normalised(m)
  {
    var total := RealTotal(m);
    if total > 0.0 && o in m {
      Undivided(m[o], total);
    }
  }

  method AddPool(weights: map<string, real>, burned: map<string, real>, name: string, standings: seq<Standing>,
                 burnTo: string)
    returns (weights': map<string, real>, burned': map<string, real>)
    ensures weights' == WithPool(weights, standings, burnTo)
    ensures burned' == WithBurn(burned, name, standings)
  {
    weights', burned' := weights, burned;
    var paid := PoolPayout(standings);
    if paid == map[] {
      burned' := burned[name := POOL_SHARE];
      if burnTo != "" {
        weights' := weights[burnTo := Get(weights, burnTo, 0.0) + POOL_SHARE];
      }
    } else {
      weights' := AddEntries(weights, Scaled(paid, POOL_SHARE));
    }
  }

  method AddPools(names: seq<string>, pools: map<string, seq<Standing>>, burnTo: string)
    returns (weights: map<string, real>, burned: map<string, real>)
    ensures weights == WithPools(map[], names, pools, burnTo)
    ensures burned == WithBurns(map[], names, pools)
  {
    weights, burned := map[], map[];
    var todo := names;
    while |todo| > 0
      invariant WithPools(weights, todo, pools, burnTo) == WithPools(map[], names, pools, burnTo)
      invariant WithBurns(burned, todo, pools) == WithBurns(map[], names, pools)
      decreases |todo|
    {
      weights, burned := AddPool(weights, burned, todo[0], Get(pools, todo[0], []), burnTo);
      todo := todo[1..];
    }
  }

  method Combine(pools: map<string, seq<Standing>>, burnTo: string)
    returns (weights: map<string, real>, burned: map<string, real>)
    ensures weights == Normalised(WithPools(map[], POOLS, pools, burnTo))
    ensures burned == WithBurns(map[], POOLS, pools)
  {
    weights, burned := AddPools(POOLS, pools, burnTo);
    weights := Normalise(weights);
  }

  // ---------------------------------------------------------------- what a hotkey gets of the pools

  /** What one pool adds to a hotkey: its part of the payout, or the burn of a pool that pays nobody. */
  ghost function PoolAdds(standings: seq<Standing>, burnTo: string, hotkey: string): real {
    if exists s :: s in standings && s.eligible && s.score > 0.0 then
      Times(0.2, Get(PoolPayout(standings), hotkey, 0.0))
    else if burnTo != "" && hotkey == burnTo then 0.2
    else 0.0
  }

  lemma PoolStep(weights: map<string, real>, standings: seq<Standing>, burnTo: string, hotkey: string)
    ensures Get(WithPool(weights, standings, burnTo), hotkey, 0.0)
      == Get(weights, hotkey, 0.0) + PoolAdds(standings, burnTo, hotkey)
  {
    PoolPays(standings);
    One(POOL_SHARE);
  }

  /** Before they are normalised, the combined weights are what the five pools add, and nothing else. */
  lemma PoolsAdd(pools: map<string, seq<Standing>>, burnTo: string, hotkey: string)
    ensures Get(WithPools(map[], POOLS, pools, burnTo), hotkey, 0.0)
      == PoolAdds(Get(pools, "slm", []), burnTo, hotkey) + PoolAdds(Get(pools, "harness", []), burnTo, hotkey)
         + PoolAdds(Get(pools, "router", []), burnTo, hotkey) + PoolAdds(Get(pools, "escalation", []), burnTo, hotkey)
         + PoolAdds(Get(pools, "system", []), burnTo, hotkey)
  {
    var a := WithPool(map[], Get(pools, POOLS[0], []), burnTo);
    var b := WithPool(a, Get(pools, POOLS[1], []), burnTo);
    var c := WithPool(b, Get(pools, POOLS[2], []), burnTo);
    var d := WithPool(c, Get(pools, POOLS[3], []), burnTo);
    var e := WithPool(d, Get(pools, POOLS[4], []), burnTo);
    PoolStep(map[], Get(pools, POOLS[0], []), burnTo, hotkey);
    PoolStep(a, Get(pools, POOLS[1], []), burnTo, hotkey);
    PoolStep(b, Get(pools, POOLS[2], []), burnTo, hotkey);
    PoolStep(c, Get(pools, POOLS[3], []), burnTo, hotkey);
    PoolStep(d, Get(pools, POOLS[4], []), burnTo, hotkey);
    FivePools(pools, burnTo);
  }

  lemma FivePools(pools: map<string, seq<Standing>>, burnTo: string)
    ensures WithPools(map[], POOLS, pools, burnTo)
      == WithPool(WithPool(WithPool(WithPool(WithPool(map[],
           Get(pools, POOLS[0], []), burnTo), Get(pools, POOLS[1], []), burnTo), Get(pools, POOLS[2], []), burnTo),
           Get(pools, POOLS[3], []), burnTo), Get(pools, POOLS[4], []), burnTo)
  {
    var names := POOLS;
    assert names[1..][0] == names[1] && names[1..][1..] == names[2..] && names[2..][1..] == names[3..];
    assert names[3..][1..] == names[4..] && names[4..][1..] == [];
    var a := WithPool(map[], Get(pools, names[0], []), burnTo);
    var b := WithPool(a, Get(pools, names[1], []), burnTo);
    var c := WithPool(b, Get(pools, names[2], []), burnTo);
    var d := WithPool(c, Get(pools, names[3], []), burnTo);
    assert WithPools(a, names[1..], pools, burnTo) == WithPools(b, names[2..], pools, burnTo);
    assert WithPools(c, names[3..], pools, burnTo) == WithPools(d, names[4..], pools, burnTo);
  }

  /** Reported as burned, with its whole share: every pool that nobody is in for. */
  lemma {:induction false} BurnedPools(burned: map<string, real>, names: seq<string>, pools: map<string, seq<Standing>>,
                                       name: string)
    ensures var dead := forall s :: s in Get(pools, name, []) ==> !(s.eligible && s.score > 0.0);
      var all := WithBurns(burned, names, pools);
      && (name in names && dead ==> name in all && all[name] == POOL_SHARE)
      && (!(name in names && dead) ==> (name in all <==> name in burned) && (name in all ==> all[name] == burned[name]))
    decreases |names|
  {
    if |names| > 0 {
      PoolPays(Get(pools, names[0], []));
      BurnedPools(WithBurn(burned, names[0], Get(pools, names[0], [])), names[1..], pools, name);
    }
  }

  // ---------------------------------------------------------------- what the combination conserves

  /** What a pool hands out of its share. */
  ghost function Handed(standings: seq<Standing>, burnTo: string): real {
    if PoolPayout(standings) != map[] then Times(POOL_SHARE, RealTotal(PoolPayout(standings)))
    else if burnTo != "" then POOL_SHARE else 0.0
  }

  ghost function HandedAll(names: seq<string>, pools: map<string, seq<Standing>>, burnTo: string): real {
    if |names| == 0 then 0.0 else Handed(Get(pools, names[0], []), burnTo) + HandedAll(names[1..], pools, burnTo)
  }

  lemma WithPoolTotal(weights: map<string, real>, standings: seq<Standing>, burnTo: string)
    ensures RealTotal(WithPool(weights, standings, burnTo)) == RealTotal(weights) + Handed(standings, burnTo)
  {
    var paid := PoolPayout(standings);
    RealMergeTotal(weights, Scaled(paid, POOL_SHARE));
    ScaledTotal(paid, POOL_SHARE);
    RealTotalUpdate(weights, burnTo, Get(weights, burnTo, 0.0) + POOL_SHARE);
  }

  lemma {:induction false} WithPoolsTotal(weights: map<string, real>, names: seq<string>,
                                          pools: map<string, seq<Standing>>, burnTo: string)
    ensures RealTotal(WithPools(weights, names, pools, burnTo)) == RealTotal(weights) + HandedAll(names, pools, burnTo)
    decreases |names|
  {
    if |names| > 0 {
      WithPoolTotal(weights, Get(pools, names[0], []), burnTo);
      WithPoolsTotal(WithPool(weights, Get(pools, names[0], []), burnTo), names[1..], pools, burnTo);
    }
  }

  /**
   * A pool hands out between nothing and its share: all of it with one standing a hotkey or when it burns, nothing only
   * when nobody contends and nothing is burned.
   */
  lemma HandedBounds(standings: seq<Standing>, burnTo: string)
    ensures 0.0 <= Handed(standings, burnTo) <= POOL_SHARE
    ensures Handed(standings, burnTo) == 0.0 <==> burnTo == "" && PoolPayout(standings) == map[]
    ensures DistinctHotkeys(standings) ==>
      Handed(standings, burnTo) == if burnTo == "" && PoolPayout(standings) == map[] then 0.0 else POOL_SHARE
  {
    PoolPays(standings);
    if DistinctHotkeys(standings) {
      TopDistinct(standings);
    }
  }

  lemma TopDistinct(standings: seq<Standing>)
    requires DistinctHotkeys(standings)
    ensures DistinctHotkeys(Top(standings))
  {
    ContendersDistinct(standings);
    SortedDistinct(Contenders(standings), Rank(standings));
  }

  /** How many of the pools pay somebody or burn to an address. */
  function Live(names: seq<string>, pools: map<string, seq<Standing>>, burnTo: string): nat {
    if |names| == 0 then 0
    else
      (if burnTo == "" && PoolPayout(Get(pools, names[0], [])) == map[] then 0 else 1)
      + Live(names[1..], pools, burnTo)
  }

  lemma {:induction false} HandedAllBounds(names: seq<string>, pools: map<string, seq<Standing>>, burnTo: string)
    ensures HandedAll(names, pools, burnTo) >= 0.0
    ensures HandedAll(names, pools, burnTo) > 0.0 <==> Live(names, pools, burnTo) > 0
    ensures (forall name :: name in pools ==> DistinctHotkeys(pools[name])) ==>
      HandedAll(names, pools, burnTo) == Live(names, pools, burnTo) as real * POOL_SHARE
  {
    if |names| > 0 {
      HandedBounds(Get(pools, names[0], []), burnTo);
      HandedAllBounds(names[1..], pools, burnTo);
    }
  }

  lemma {:induction false} AllLive(names: seq<string>, pools: map<string, seq<Standing>>, burnTo: string)
    requires burnTo != ""
    ensures Live(names, pools, burnTo) == |names|
  {
    if |names| > 0 {
      AllLive(names[1..], pools, burnTo);
    }
  }

  /** What is reported burned is the share of every pool that pays nobody: with what the others pay, the whole. */
  lemma {:induction false} BurnsTotal(burned: map<string, real>, names: seq<string>, pools: map<string, seq<Standing>>)
    requires forall i :: 0 <= i < |names| ==> names[i] !in burned
    requires forall i, j :: 0 <= i < j < |names| ==> names[i] != names[j]
    ensures RealTotal(WithBurns(burned, names, pools))
      == RealTotal(burned) + (|names| - Live(names, pools, "")) as real * POOL_SHARE
    decreases |names|
  {
    if |names| > 0 {
      RealTotalUpdate(burned, names[0], POOL_SHARE);
      BurnsTotal(WithBurn(burned, names[0], Get(pools, names[0], [])), names[1..], pools);
    }
  }
}
