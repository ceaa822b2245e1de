/** AUROC by midranks, against its meaning as a count of ordered pairs. */
module Auroc {
  import opened Prelude
  import opened Sorting
  import opened Sums
  import opened Reals

  // ---------------------------------------------------------------- the pairwise meaning

  function Win(a: real, b: real): real {
    if a > b then 1.0 else if a == b then 0.5 else 0.0
  }

  function Against(a: real): real -> real {
    (b: real) => Win(a, b)
  }

  /** Wins of a over a list, a tie counting one half. */
  function Wins(a: real, s: seq<real>): real {
    Sum(s, Against(a))
  }

  function Cross(winners: seq<real>, losers: seq<real>): real {
    if |winners| == 0 then 0.0 else Wins(winners[0], losers) + Cross(winners[1..], losers)
  }

  /** The probabilities given to items of one class, in order. */
  function Class(p: seq<real>, y: seq<int>, positive: bool): (s: seq<real>)
    requires |p| == |y|
  {
    if |p| == 0 then
      []
    else
      (if (y[0] == 1) == positive then [p[0]] else []) + Class(p[1..], y[1..], positive)
  }

  function Positives(y: seq<int>): (n: nat)
    ensures n <= |y|
  {
    if |y| == 0 then 0 else (if y[0] == 1 then 1 else 0) + Positives(y[1..])
  }

  ghost predicate BothClasses(y: seq<int>) {
    0 < Positives(y) < |y|
  }

  /** Share of (positive, negative) pairs ranked the right way round. */
  ghost function PairShare(p: seq<real>, y: seq<int>): real
    requires |p| == |y| && BothClasses(y)
  {
    ClassSizes(p, y);
    Cross(Class(p, y, true), Class(p, y, false)) / ((Positives(y) * (|y| - Positives(y))) as real)
  }

  lemma {:induction false} ClassSizes(p: seq<real>, y: seq<int>)
    requires |p| == |y|
    ensures |Class(p, y, true)| == Positives(y)
    ensures |Class(p, y, false)| == |y| - Positives(y)
  {
    if |p| > 0 {
      ClassSizes(p[1..], y[1..]);
    }
  }

  // ---------------------------------------------------------------- sums of wins

  lemma {:induction false} WinsByClass(a: real, p: seq<real>, y: seq<int>)
    requires |p| == |y|
    ensures Wins(a, p) == Wins(a, Class(p, y, true)) + Wins(a, Class(p, y, false))
  {
    if |p| > 0 {
      WinsByClass(a, p[1..], y[1..]);
      var here := y[0] == 1;
      assert Class(p, y, here) == [p[0]] + Class(p[1..], y[1..], here);
      assert Class(p, y, !here) == Class(p[1..], y[1..], !here);
    }
  }

  lemma {:induction false} CrossByClass(winners: seq<real>, p: seq<real>, y: seq<int>)
    requires |p| == |y|
    ensures Cross(winners, p) == Cross(winners, Class(p, y, true)) + Cross(winners, Class(p, y, false))
  {
    if |winners| > 0 {
      CrossByClass(winners[1..], p, y);
      WinsByClass(winners[0], p, y);
    }
  }

  /** One more loser adds what every winner scores against it: its own wins make up the rest. */
  lemma {:induction false} CrossOneLoser(winners: seq<real>, b: real, losers: seq<real>)
    ensures Cross(winners, [b] + losers) == (|winners| as real) - Wins(b, winners) + Cross(winners, losers)
  {
    if |winners| > 0 {
      CrossOneLoser(winners[1..], b, losers);
      assert ([b] + losers)[1..] == losers;
      assert Wins(winners[0], [b] + losers) == Win(winners[0], b) + Wins(winners[0], losers);
      assert Wins(b, winners) == Win(b, winners[0]) + Wins(b, winners[1..]);
    }
  }

  /** Half of n * m. */
  function HalfOf(n: nat, m: nat): real {
    (n * m) as real / 2.0
  }

  lemma HalfOfSquare(n: nat)
    ensures HalfOf(n + 1, n + 1) == HalfOf(n, n) + n as real + 0.5
  {
    assert (n + 1) * (n + 1) == n * n + 2 * n + 1;
  }

  lemma HalfOfProduct(n: nat, m: nat)
    ensures HalfOf(n + 1, m) == m as real / 2.0 + HalfOf(n, m)
  {
    assert (n + 1) * m == m + n * m;
  }

  /** Among themselves, n values win half of n * n. */
  lemma {:induction false} CrossSelf(s: seq<real>)
    ensures Cross(s, s) == HalfOf(|s|, |s|)
  {
    if |s| > 0 {
      var rest := s[1..];
      assert s == [s[0]] + rest;
      CrossSelf(rest);
      CrossOneLoser(rest, s[0], rest);
      assert Wins(s[0], s) == Win(s[0], s[0]) + Wins(s[0], rest);
      HalfOfSquare(|rest|);
    }
  }

  // ---------------------------------------------------------------- the order of the items

  type Entry = (real, nat)

  function ByProbability(): (Entry, Entry) -> bool {
    (a: Entry, b: Entry) => a.0 <= b.0
  }

  function Entries(p: seq<real>): (entries: seq<Entry>)
    ensures |entries| == |p| && forall i :: 0 <= i < |p| ==> entries[i] == (p[i], i)
  {
    seq(|p|, i requires 0 <= i < |p| => (p[i], i))
  }

  function EntryWin(a: real): Entry -> real {
    (e: Entry) => Win(a, e.0)
  }

  /** sorted(range(n), key=probability), each index with its probability. */
  function Order(p: seq<real>): (order: seq<Entry>)
    ensures |order| == |p|
    ensures multiset(order) == multiset(Entries(p))
  {
    Sort(Entries(p), ByProbability())
  }

  lemma OrderFacts(p: seq<real>)
    ensures forall k :: 0 <= k < |p| ==> Order(p)[k].1 < |p| && Order(p)[k].0 == p[Order(p)[k].1]
    ensures forall j, k :: 0 <= j < k < |p| ==> Order(p)[j].0 <= Order(p)[k].0
  {
    SortAscends(Entries(p), ByProbability());
    var order := Order(p);
    assert forall j, k :: 0 <= j < k < |p| ==> ByProbability()(order[j], order[k]);
    forall k | 0 <= k < |p| ensures order[k].1 < |p| && order[k].0 == p[order[k].1] {
      SameMembers(order, Entries(p), order[k]);
      var i :| 0 <= i < |p| && Entries(p)[i] == order[k];
    }
  }

  lemma EveryIndexOrdered(p: seq<real>, i: nat) returns (k: nat)
    requires i < |p|
    ensures k < |p| && Order(p)[k] == (p[i], i)
  {
    SameMembers(Order(p), Entries(p), Entries(p)[i]);
    k :| 0 <= k < |p| && Order(p)[k] == (p[i], i);
  }

  lemma {:induction false} EntryWins(a: real, p: seq<real>, entries: seq<Entry>)
    requires |entries| == |p| && forall i :: 0 <= i < |p| ==> entries[i].0 == p[i]
    ensures Sum(entries, EntryWin(a)) == Wins(a, p)
  {
    if |p| > 0 {
      EntryWins(a, p[1..], entries[1..]);
    }
  }

  /** 1/2 + wins over everybody: one more than the number below, plus half the other ties. */
  ghost function Midrank(p: seq<real>, i: nat): real
    requires i < |p|
  {
    0.5 + Wins(p[i], p)
  }

  lemma WinsAll(a: real, s: seq<Entry>)
    requires forall i :: 0 <= i < |s| ==> s[i].0 < a
    ensures Sum(s, EntryWin(a)) == |s| as real
  {
    SumConstant(s, EntryWin(a), 1.0);
  }

  lemma TiesAll(a: real, s: seq<Entry>)
    requires forall i :: 0 <= i < |s| ==> s[i].0 == a
    ensures Sum(s, EntryWin(a)) == |s| as real / 2.0
  {
    SumConstant(s, EntryWin(a), 0.5);
  }

  lemma LosesAll(a: real, s: seq<Entry>)
    requires forall i :: 0 <= i < |s| ==> s[i].0 > a
    ensures Sum(s, EntryWin(a)) == 0.0
  {
    SumConstant(s, EntryWin(a), 0.0);
  }

  ghost predicate IsBlock(order: seq<Entry>, start: nat, end: nat) {
    && start <= end < |order|
    && (forall j :: 0 <= j < start ==> order[j].0 < order[start].0)
    && (forall j :: start <= j <= end ==> order[j].0 == order[start].0)
    && (forall j :: end < j < |order| ==> order[j].0 > order[start].0)
  }

  lemma BlockWins(order: seq<Entry>, start: nat, end: nat)
    requires IsBlock(order, start, end)
    ensures Sum(order, EntryWin(order[start].0)) == start as real + (end + 1 - start) as real / 2.0
  {
    var a := order[start].0;
    var below, block, above := order[..start], order[start..end + 1], order[end + 1..];
    WinsAll(a, below);
    TiesAll(a, block);
    LosesAll(a, above);
    SumAppend(below, block, EntryWin(a));
    SumAppend(below + block, above, EntryWin(a));
    assert order == below + block + above;
  }

  /** A block of ties between start and end has every member at the middle rank of the block. */
  lemma BlockMidrank(p: seq<real>, start: nat, end: nat, k: nat)
    requires IsBlock(Order(p), start, end) && start <= k <= end
    ensures Order(p)[k].1 < |p|
    ensures Midrank(p, Order(p)[k].1) == (start + end) as real / 2.0 + 1.0
  {
    OrderFacts(p);
    BlockWins(Order(p), start, end);
    var a := Order(p)[start].0;
    assert Order(p)[k].0 == a;
    EntryWins(a, p, Entries(p));
    SumPermuted(Order(p), Entries(p), EntryWin(a));
  }

  // ---------------------------------------------------------------- rank sums

  ghost function RankSum(ranks: seq<real>, y: seq<int>): real
    requires |ranks| == |y|
  {
    if |y| == 0 then 0.0 else (if y[0] == 1 then ranks[0] else 0.0) + RankSum(ranks[1..], y[1..])
  }

  lemma {:induction false} RankSumIsCross(ranks: seq<real>, p: seq<real>, y: seq<int>, all: seq<real>)
    requires |ranks| == |p| == |y|
    requires forall i :: 0 <= i < |p| ==> ranks[i] == 0.5 + Wins(p[i], all)
    ensures RankSum(ranks, y) == Positives(y) as real / 2.0 + Cross(Class(p, y, true), all)
  {
    if |p| > 0 {
      RankSumIsCross(ranks[1..], p[1..], y[1..], all);
      if y[0] == 1 {
        assert Class(p, y, true) == [p[0]] + Class(p[1..], y[1..], true);
        assert Class(p, y, true)[1..] == Class(p[1..], y[1..], true);
      } else {
        assert Class(p, y, true) == Class(p[1..], y[1..], true);
      }
    }
  }

  lemma {:induction false} RankSumLast(ranks: seq<real>, y: seq<int>, k: nat)
    requires k < |ranks| == |y|
    ensures RankSum(ranks[..k + 1], y[..k + 1]) ==
      RankSum(ranks[..k], y[..k]) + if y[k] == 1 then ranks[k] else 0.0
  {
    if k > 0 {
      RankSumLast(ranks[1..], y[1..], k - 1);
      assert ranks[..k + 1][1..] == ranks[1..][..k] && ranks[..k][1..] == ranks[1..][..k - 1];
      assert y[..k + 1][1..] == y[1..][..k] && y[..k][1..] == y[1..][..k - 1];
    }
  }

  /** The Mann-Whitney identity: the rank sum, less what the positives win among themselves. */
  lemma RankSumCountsPairs(ranks: seq<real>, p: seq<real>, y: seq<int>)
    requires |ranks| == |p| == |y|
    requires forall i :: 0 <= i < |p| ==> ranks[i] == Midrank(p, i)
    ensures RankSum(ranks, y) - LeastRanks(Positives(y))
      == Cross(Class(p, y, true), Class(p, y, false))
  {
    var winners := Class(p, y, true);
    RankSumIsCross(ranks, p, y, p);
    CrossByClass(winners, p, y);
    CrossSelf(winners);
    ClassSizes(p, y);
    RanksLessOwn(Positives(y), RankSum(ranks, y), Cross(winners, Class(p, y, false)));
  }

  /** 1 + 2 + ... + n: what n items rank at least. */
  function LeastRanks(n: nat): real {
    (n * (n + 1)) as real / 2.0
  }

  lemma RanksLessOwn(n: nat, rankSum: real, pairs: real)
    requires rankSum == n as real / 2.0 + (HalfOf(n, n) + pairs)
    ensures rankSum - LeastRanks(n) == pairs
  {
    assert n * (n + 1) == n * n + n;
  }

  // ---------------------------------------------------------------- the algorithm

  method CountPositives(y: seq<int>) returns (positives: nat)
    ensures positives == Positives(y)
  {
    positives := 0;
    var i := |y|;
    while i > 0
      invariant 0 <= i <= |y|
      invariant positives == Positives(y[i..])
    {
      i := i - 1;
      assert y[i..][1..] == y[i + 1..];
      positives := positives + if y[i] == 1 then 1 else 0;
    }
    assert y[0..] == y;
  }

  /** The inner loop: one block of ties, all at its middle rank. */
  method FillBlock(ranks: array<real>, p: seq<real>, start: nat, end: nat)
    requires ranks.Length == |p| && IsBlock(Order(p), start, end)
    requires forall k :: 0 <= k < |p| ==> Order(p)[k].1 < |p|
    requires forall k :: 0 <= k < start ==> ranks[Order(p)[k].1] == Midrank(p, Order(p)[k].1)
    modifies ranks
    ensures forall k :: 0 <= k <= end ==> ranks[Order(p)[k].1] == Midrank(p, Order(p)[k].1)
  {
    var order := Order(p);
    var position := start;
    while position < end + 1
      invariant start <= position <= end + 1
      invariant forall k :: 0 <= k < position ==> ranks[order[k].1] == Midrank(p, order[k].1)
    {
      BlockMidrank(p, start, end, position);
      ranks[order[position].1] := (start + end) as real / 2.0 + 1.0;
      position := position + 1;
    }
  }

  /** The nested loops that give every item its rank. */
  method Midranks(p: seq<real>) returns (ranks: array<real>)
    ensures fresh(ranks) && ranks.Length == |p|
    ensures forall i :: 0 <= i < |p| ==> ranks[i] == Midrank(p, i)
  {
    var order := Order(p);
    OrderFacts(p);
    ranks := new real[|order|](_ => 0.0);
    var start := 0;
    while start < |order|
      invariant 0 <= start <= |order|
      invariant 0 < start < |order| ==> order[start - 1].0 < order[start].0
      invariant forall k :: 0 <= k < start ==> ranks[order[k].1] == Midrank(p, order[k].1)
    {
      var end := start;
      while end + 1 < |order| && p[order[end + 1].1] == p[order[start].1]
        invariant start <= end < |order|
        invariant forall j :: start <= j <= end ==> order[j].0 == order[start].0
      {
        end := end + 1;
      }
      FillBlock(ranks, p, start, end);
      start := end + 1;
    }
    forall i | 0 <= i < |p| ensures ranks[i] == Midrank(p, i) {
      var k := EveryIndexOrdered(p, i);
      assert ranks[order[k].1] == Midrank(p, order[k].1);
    }
  }

  method SumOfPositiveRanks(ranks: array<real>, y: seq<int>) returns (rankSum: real)
    requires ranks.Length == |y|
    ensures rankSum == RankSum(ranks[..], y)
  {
    rankSum := 0.0;
    var i := 0;
    while i < |y|
      invariant 0 <= i <= |y|
      invariant rankSum == RankSum(ranks[..][..i], y[..i])
    {
      RankSumLast(ranks[..], y, i);
      if y[i] == 1 {
        rankSum := rankSum + ranks[i];
      }
      i := i + 1;
    }
    assert y[..i] == y && ranks[..][..i] == ranks[..];
  }

  /** zip(strict=True) raises on lists of different lengths, but only once both classes are seen. */
  method Auroc(p: seq<real>, y: seq<int>) returns (area: Result<real>)
    ensures !BothClasses(y) ==> area == Ok(0.5)
    ensures BothClasses(y) && |p| != |y| ==> area.Err?
    ensures BothClasses(y) && |p| == |y| ==> area == Ok(PairShare(p, y))
  {
    var positives := CountPositives(y);
    var negatives := |y| - positives;
    if positives == 0 || negatives == 0 {
      return Ok(0.5);
    }
    var ranks := Midranks(p);
    if ranks.Length != |y| {
      return Err("zip() arguments differ in length");
    }
    var rankSum := SumOfPositiveRanks(ranks, y);
    assert forall i :: 0 <= i < |p| ==> ranks[..][i] == ranks[i];
    RankSumCountsPairs(ranks[..], p, y);
    ClassSizes(p, y);
    area := Ok((rankSum - (positives * (positives + 1)) as real / 2.0) / ((positives * negatives) as real));
  }

  // ---------------------------------------------------------------- what follows for every input

  lemma {:induction false} WinsRange(a: real, s: seq<real>)
    ensures 0.0 <= Wins(a, s) <= |s| as real
  {
    SumBounds(s, Against(a), 0.0, 1.0);
  }

  lemma {:induction false} CrossRange(winners: seq<real>, losers: seq<real>)
    ensures 0.0 <= Cross(winners, losers) <= (|winners| * |losers|) as real
  {
    if |winners| > 0 {
      CrossRange(winners[1..], losers);
      WinsRange(winners[0], losers);
      assert |winners| * |losers| == |losers| + |winners[1..]| * |losers|;
    }
  }

  lemma ShareInUnit(p: seq<real>, y: seq<int>)
    requires |p| == |y| && BothClasses(y)
    ensures 0.0 <= PairShare(p, y) <= 1.0
  {
    var winners, losers := Class(p, y, true), Class(p, y, false);
    ClassSizes(p, y);
    CrossRange(winners, losers);
    assert |winners| * |losers| > 0;
    QuotientInUnit(Cross(winners, losers), (|winners| * |losers|) as real);
  }

  /** Swapping the two classes turns the area over. */
  lemma {:induction false} CrossSwap(s: seq<real>, t: seq<real>)
    ensures Cross(s, t) + Cross(t, s) == (|s| * |t|) as real
  {
    if |s| > 0 {
      assert s == [s[0]] + s[1..];
      CrossSwap(s[1..], t);
      CrossOneLoser(t, s[0], s[1..]);
      assert |s| * |t| == |t| + |s[1..]| * |t|;
    } else {
      CrossRange(t, s);
    }
  }

  function Flip(y: seq<int>): (r: seq<int>)
    ensures |r| == |y| && forall i :: 0 <= i < |y| ==> r[i] == if y[i] == 1 then 0 else 1
  {
    seq(|y|, i requires 0 <= i < |y| => if y[i] == 1 then 0 else 1)
  }

  lemma {:induction false} FlipClasses(p: seq<real>, y: seq<int>)
    requires |p| == |y|
    ensures Class(p, Flip(y), true) == Class(p, y, false)
    ensures Class(p, Flip(y), false) == Class(p, y, true)
  {
    if |p| > 0 {
      FlipClasses(p[1..], y[1..]);
      assert Flip(y)[1..] == Flip(y[1..]);
    }
  }

  lemma FlippedLabels(p: seq<real>, y: seq<int>)
    requires |p| == |y| && BothClasses(y)
    ensures BothClasses(Flip(y)) && PairShare(p, Flip(y)) == 1.0 - PairShare(p, y)
  {
    FlipClasses(p, y);
    ClassSizes(p, y);
    ClassSizes(p, Flip(y));
    var winners, losers := Class(p, y, true), Class(p, y, false);
    CrossSwap(winners, losers);
    assert |winners| * |losers| == |losers| * |winners| > 0;
    var d := (|winners| * |losers|) as real;
    QuotientComplement(Cross(winners, losers), d);
  }

  /** g keeps the order and the ties of the probabilities it is given. */
  ghost predicate Increasing(g: real -> real) {
    forall a, b :: a < b ==> g(a) < g(b)
  }

  function Mapped(p: seq<real>, g: real -> real): (r: seq<real>)
    ensures |r| == |p| && forall i :: 0 <= i < |p| ==> r[i] == g(p[i])
  {
    seq(|p|, i requires 0 <= i < |p| => g(p[i]))
  }

  lemma {:induction false} MappedClass(p: seq<real>, y: seq<int>, g: real -> real, positive: bool)
    requires |p| == |y|
    ensures Class(Mapped(p, g), y, positive) == Mapped(Class(p, y, positive), g)
  {
    if |p| > 0 {
      MappedClass(p[1..], y[1..], g, positive);
      assert Mapped(p, g)[1..] == Mapped(p[1..], g);
    }
  }

  lemma {:induction false} MappedWins(a: real, s: seq<real>, g: real -> real)
    requires Increasing(g)
    ensures Wins(g(a), Mapped(s, g)) == Wins(a, s)
  {
    if |s| > 0 {
      MappedWins(a, s[1..], g);
      assert Mapped(s, g)[1..] == Mapped(s[1..], g);
      assert Win(g(a), g(s[0])) == Win(a, s[0]);
    }
  }

  lemma {:induction false} MappedCross(winners: seq<real>, losers: seq<real>, g: real -> real)
    requires Increasing(g)
    ensures Cross(Mapped(winners, g), Mapped(losers, g)) == Cross(winners, losers)
  {
    if |winners| > 0 {
      MappedCross(winners[1..], losers, g);
      MappedWins(winners[0], losers, g);
      assert Mapped(winners, g)[1..] == Mapped(winners[1..], g);
    }
  }

  /** Only the order of the probabilities counts. */
  lemma OrderOnly(p: seq<real>, y: seq<int>, g: real -> real)
    requires |p| == |y| && BothClasses(y) && Increasing(g)
    ensures PairShare(Mapped(p, g), y) == PairShare(p, y)
  {
    MappedClass(p, y, g, true);
    MappedClass(p, y, g, false);
    MappedCross(Class(p, y, true), Class(p, y, false), g);
  }

  lemma {:induction false} ClassOfConstant(p: seq<real>, y: seq<int>, c: real, positive: bool)
    requires |p| == |y| && forall i :: 0 <= i < |p| ==> p[i] == c
    ensures forall i :: 0 <= i < |Class(p, y, positive)| ==> Class(p, y, positive)[i] == c
  {
    if |p| > 0 {
      ClassOfConstant(p[1..], y[1..], c, positive);
    }
  }

  lemma {:induction false} CrossOfTies(winners: seq<real>, losers: seq<real>, c: real)
    requires forall i :: 0 <= i < |winners| ==> winners[i] == c
    requires forall i :: 0 <= i < |losers| ==> losers[i] == c
    ensures Cross(winners, losers) == HalfOf(|winners|, |losers|)
  {
    if |winners| > 0 {
      CrossOfTies(winners[1..], losers, c);
      SumConstant(losers, Against(c), 0.5);
      HalfOfProduct(|winners[1..]|, |losers|);
    }
  }

  lemma HalfShare(n: nat, m: nat)
    requires n > 0 && m > 0
    ensures n * m > 0 && HalfOf(n, m) / (n * m) as real == 0.5
  {
    var d := (n * m) as real;
    assert n * m > 0;
    Cancel(HalfOf(n, m), 0.5, d);
  }

  lemma AllTied(p: seq<real>, y: seq<int>, c: real)
    requires |p| == |y| && BothClasses(y) && forall i :: 0 <= i < |p| ==> p[i] == c
    ensures PairShare(p, y) == 0.5
  {
    ClassOfConstant(p, y, c, true);
    ClassOfConstant(p, y, c, false);
    ClassSizes(p, y);
    CrossOfTies(Class(p, y, true), Class(p, y, false), c);
    HalfShare(Positives(y), |y| - Positives(y));
  }
}
