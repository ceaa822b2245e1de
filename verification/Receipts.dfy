/** The receipts root: a second construction of the same tree, and exactly what it tells apart. */
module Receipts {
  import opened Prelude
  import opened Sorting
  import opened Transcript
  import Strings

  /** A receipt is named by its canonical JSON; IdOf reads the request id out of it. */
  type Receipt = string
  type IdOf = Receipt -> string

  function ById(idOf: IdOf): (Receipt, Receipt) -> bool {
    (a: Receipt, b: Receipt) => Strings.Le(idOf(a), idOf(b))
  }

  function Leaves(receipts: seq<Receipt>): (leaves: seq<Digest>)
    ensures |leaves| == |receipts| && forall i :: 0 <= i < |leaves| ==> leaves[i] == Text(receipts[i])
  {
    seq(|receipts|, i requires 0 <= i < |receipts| => Text(receipts[i]))
  }

  /** The sorted leaves under the tree of the transcripts; None stands for the empty root. */
  function ReceiptRoot(receipts: seq<Receipt>, idOf: IdOf): Option<Digest> {
    var ordered := Sort(receipts, ById(idOf));
    if |ordered| == 0 then None else Some(Root(Leaves(ordered)))
  }

  /** Pairing an even level is pairing it in the tree of the transcripts. */
  method PairEven(level: seq<Digest>) returns (next: seq<Digest>)
    requires |level| % 2 == 0
    ensures next == Above(level)
  {
    next := [];
    var i := 0;
    while i < |level|
      invariant i % 2 == 0 && 0 <= i <= |level| && |next| == i / 2
      invariant forall k :: 0 <= k < |next| ==> next[k] == Above(level)[k]
    {
      next := next + [Pair(level[i], level[i + 1])];
      i := i + 2;
    }
  }

  lemma RepeatLastAbove(level: seq<Digest>)
    requires |level| % 2 == 1
    ensures Above(level + [level[|level| - 1]]) == Above(level)
  {
  }

  /** Appending the last node to an odd level, then pairing, is the level above. */
  method ComputeRoot(receipts: seq<Receipt>, idOf: IdOf) returns (root: Option<Digest>)
    ensures root == ReceiptRoot(receipts, idOf)
  {
    var level := Leaves(Sort(receipts, ById(idOf)));
    if |level| == 0 {
      return None;
    }
    ghost var top := Root(level);
    while |level| > 1
      invariant |level| > 0 && Root(level) == top
      decreases |level|
    {
      if |level| % 2 == 1 {
        RepeatLastAbove(level);
        RootOfTwins(level, level + [level[|level| - 1]]);
        level := level + [level[|level| - 1]];
      }
      level := PairEven(level);
    }
    root := Some(level[0]);
  }

  ghost predicate DistinctIds(receipts: seq<Receipt>, idOf: IdOf) {
    forall i, j :: 0 <= i < j < |receipts| ==> idOf(receipts[i]) != idOf(receipts[j])
  }

  lemma ByIdOrders(idOf: IdOf)
    ensures Ordering(ById(idOf))
  {
    var le := ById(idOf);
    forall a, b ensures le(a, b) || le(b, a) {
      Strings.LeTotal(idOf(a), idOf(b));
    }
    forall a, b, c | le(a, b) && le(b, c) ensures le(a, c) {
      Strings.LeTransitive(idOf(a), idOf(b), idOf(c));
    }
  }

  /** Under the root the receipts stand in the code point order of their ids, those of one id as they were listed. */
  lemma SortedById(receipts: seq<Receipt>, idOf: IdOf, i: nat, j: nat)
    requires i < j < |receipts|
    ensures var s := Sort(receipts, ById(idOf));
      && (idOf(s[i]) == idOf(s[j]) || Strings.Before(idOf(s[i]), idOf(s[j])))
      && Ties(s, s[i], ById(idOf)) == Ties(receipts, s[i], ById(idOf))
  {
    var s := Sort(receipts, ById(idOf));
    ByIdOrders(idOf);
    SortAscends(receipts, ById(idOf));
    SortStable(receipts, s[i], ById(idOf));
    assert ById(idOf)(s[i], s[j]);
    Strings.LeExactly(idOf(s[i]), idOf(s[j]));
  }

  lemma SameIdSame(xs: seq<Receipt>, a: Receipt, b: Receipt, idOf: IdOf)
    requires DistinctIds(xs, idOf) && a in xs && b in xs && idOf(a) == idOf(b)
    ensures a == b
  {
    var i :| 0 <= i < |xs| && xs[i] == a;
    var j :| 0 <= j < |xs| && xs[j] == b;
    assert i == j;
  }

  /** The order in which the server lists receipts does not matter. */
  lemma OrderFree(xs: seq<Receipt>, ys: seq<Receipt>, idOf: IdOf)
    requires multiset(xs) == multiset(ys) && DistinctIds(xs, idOf)
    ensures Sort(xs, ById(idOf)) == Sort(ys, ById(idOf))
  {
    var le := ById(idOf);
    ByIdOrders(idOf);
    SortAscends(xs, le);
    SortAscends(ys, le);
    var s := Sort(xs, le);
    forall a, b | a in s && b in s && le(a, b) && le(b, a) ensures a == b {
      Strings.LeAntisymmetric(idOf(a), idOf(b));
      SameMembers(s, xs, a);
      SameMembers(s, xs, b);
      SameIdSame(xs, a, b, idOf);
    }
    AscendingUnique(s, Sort(ys, le), le);
  }

  lemma {:induction false} OnceOnly(xs: seq<Receipt>, x: Receipt, idOf: IdOf)
    requires DistinctIds(xs, idOf)
    ensures multiset(xs)[x] <= 1
  {
    if |xs| > 0 {
      assert xs == [xs[0]] + xs[1..];
      OnceOnly(xs[1..], x, idOf);
      assert x == xs[0] ==> x !in xs[1..];
    }
  }

  // ---------------------------------------------------------------- what a root tells apart

  /** Levels above the leaves, for so many of them. */
  function Tall(n: nat): nat
    requires n > 0
  {
    if n == 1 then 0 else 1 + Tall((n + 1) / 2)
  }

  /** Which of n leaves sits at place i once every odd last node is doubled out. */
  function Seat(n: nat, i: nat): (k: nat)
    requires n > 0
    ensures k < n
  {
    if n == 1 then 0 else Min(2 * Seat((n + 1) / 2, i / 2) + i % 2, n - 1)
  }

  function Places(tall: nat): nat {
    if tall == 0 then 1 else 2 * Places(tall - 1)
  }

  ghost predicate AgreeAt<T(!new)>(xs: seq<T>, ys: seq<T>, i: nat)
    requires |xs| > 0 && |ys| > 0
  {
    xs[Seat(|xs|, i)] == ys[Seat(|ys|, i)]
  }

  /** Equally tall, and the same at every place. */
  ghost predicate SameSeats<T(!new)>(xs: seq<T>, ys: seq<T>)
    requires |xs| > 0 && |ys| > 0
  {
    Tall(|xs|) == Tall(|ys|) && forall i: nat :: i < Places(Tall(|xs|)) ==> AgreeAt(xs, ys, i)
  }

  lemma AboveSeat(level: seq<Digest>, j: nat)
    requires |level| > 1
    ensures Above(level)[Seat(|Above(level)|, j)]
      == Pair(level[Seat(|level|, 2 * j)], level[Seat(|level|, 2 * j + 1)])
  {
    assert 2 * j / 2 == j && (2 * j + 1) / 2 == j;
  }

  lemma PairAgrees(xs: seq<Digest>, ys: seq<Digest>, j: nat)
    requires |xs| > 1 && |ys| > 1
    ensures AgreeAt(Above(xs), Above(ys), j) <==> AgreeAt(xs, ys, 2 * j) && AgreeAt(xs, ys, 2 * j + 1)
  {
    AboveSeat(xs, j);
    AboveSeat(ys, j);
  }

  lemma SeatsAbove(xs: seq<Digest>, ys: seq<Digest>)
    requires |xs| > 1 && |ys| > 1
    ensures SameSeats(Above(xs), Above(ys)) <==> SameSeats(xs, ys)
  {
    if SameSeats(Above(xs), Above(ys)) {
      forall i: nat | i < Places(Tall(|xs|)) ensures AgreeAt(xs, ys, i) {
        assert AgreeAt(Above(xs), Above(ys), i / 2);
        PairAgrees(xs, ys, i / 2);
        assert i == 2 * (i / 2) || i == 2 * (i / 2) + 1;
      }
    }
    if SameSeats(xs, ys) {
      forall j: nat | j < Places(Tall(|Above(xs)|)) ensures AgreeAt(Above(xs), Above(ys), j) {
        assert AgreeAt(xs, ys, 2 * j) && AgreeAt(xs, ys, 2 * j + 1);
        PairAgrees(xs, ys, j);
      }
    }
  }

  /** Two trees have one root exactly when they are equally tall and hold the same at every place. */
  lemma {:induction false} RootsBySeats(xs: seq<Digest>, ys: seq<Digest>, h: nat)
    requires |xs| > 0 && |ys| > 0 && Uniform(xs, h) && Uniform(ys, h)
    ensures Root(xs) == Root(ys) <==> SameSeats(xs, ys)
    decreases |xs|
  {
    RootHeight(xs, h);
    RootHeight(ys, h);
    if |xs| > 1 && |ys| > 1 {
      RootsBySeats(Above(xs), Above(ys), h + 1);
      SeatsAbove(xs, ys);
    } else if |xs| == 1 && |ys| == 1 {
      assert AgreeAt(xs, ys, 0) <==> xs[0] == ys[0];
      assert Places(Tall(1)) == 1;
    }
  }

  lemma LeavesBySeats(s: seq<Receipt>, t: seq<Receipt>)
    requires |s| > 0 && |t| > 0
    ensures SameSeats(Leaves(s), Leaves(t)) <==> SameSeats(s, t)
  {
    forall i: nat ensures AgreeAt(Leaves(s), Leaves(t), i) <==> AgreeAt(s, t, i) {
      assert Leaves(s)[Seat(|s|, i)] == Text(s[Seat(|s|, i)]) && Leaves(t)[Seat(|t|, i)] == Text(t[Seat(|t|, i)]);
    }
  }

  /**
   * Exactly when two lists of receipts have one root: both are empty, or sorted by request id they are equally tall and
   * the same at every place.
   */
  lemma RootsAgreeExactly(xs: seq<Receipt>, ys: seq<Receipt>, idOf: IdOf)
    ensures ReceiptRoot(xs, idOf) == ReceiptRoot(ys, idOf) <==>
      if |xs| > 0 && |ys| > 0 then SameSeats(Sort(xs, ById(idOf)), Sort(ys, ById(idOf))) else |xs| == |ys|
  {
    if |xs| > 0 && |ys| > 0 {
      var s, t := Sort(xs, ById(idOf)), Sort(ys, ById(idOf));
      assert Uniform(Leaves(s), 0) && Uniform(Leaves(t), 0);
      RootsBySeats(Leaves(s), Leaves(t), 0);
      LeavesBySeats(s, t);
    }
  }

  /** Every leaf has a place. */
  lemma {:induction false} SeatTaken(n: nat, k: nat) returns (i: nat)
    requires k < n
    ensures i < Places(Tall(n)) && Seat(n, i) == k
  {
    if n == 1 {
      i := 0;
    } else {
      var j := SeatTaken((n + 1) / 2, k / 2);
      i := 2 * j + k % 2;
      assert i / 2 == j && i % 2 == k % 2;
    }
  }

  lemma SeatsCover(s: seq<Receipt>, t: seq<Receipt>, x: Receipt)
    requires |s| > 0 && |t| > 0 && SameSeats(s, t) && x in s
    ensures x in t
  {
    var k :| 0 <= k < |s| && s[k] == x;
    var i := SeatTaken(|s|, k);
    assert AgreeAt(s, t, i);
  }

  lemma SameSeatsSameMembers(s: seq<Receipt>, t: seq<Receipt>, x: Receipt)
    requires |s| > 0 && |t| > 0 && SameSeats(s, t)
    ensures x in s <==> x in t
  {
    if x in s {
      SeatsCover(s, t, x);
    }
    if x in t {
      assert forall i: nat :: AgreeAt(t, s, i) <==> AgreeAt(s, t, i);
      SeatsCover(t, s, x);
    }
  }

  /**
   * Whatever the request ids, lists with one root count the same receipts; how often each is counted the root may not
   * tell.
   */
  lemma SameRootSameMembers(xs: seq<Receipt>, ys: seq<Receipt>, idOf: IdOf, x: Receipt)
    requires ReceiptRoot(xs, idOf) == ReceiptRoot(ys, idOf)
    ensures x in xs <==> x in ys
  {
    RootsAgreeExactly(xs, ys, idOf);
    if |xs| > 0 && |ys| > 0 {
      SameMembers(xs, Sort(xs, ById(idOf)), x);
      SameMembers(ys, Sort(ys, ById(idOf)), x);
      SameSeatsSameMembers(Sort(xs, ById(idOf)), Sort(ys, ById(idOf)), x);
    }
  }

  lemma SameRootSameCount(xs: seq<Receipt>, ys: seq<Receipt>, idOf: IdOf, x: Receipt)
    requires DistinctIds(xs, idOf) && DistinctIds(ys, idOf) && ReceiptRoot(xs, idOf) == ReceiptRoot(ys, idOf)
    ensures multiset(xs)[x] == multiset(ys)[x]
  {
    SameRootSameMembers(xs, ys, idOf, x);
    OnceOnly(xs, x, idOf);
    OnceOnly(ys, x, idOf);
    assert x in xs <==> x in multiset(xs);
    assert x in ys <==> x in multiset(ys);
  }

  /** Among lists without a repeated request id, the root fixes every receipt that was counted. */
  lemma RootFixesReceipts(xs: seq<Receipt>, ys: seq<Receipt>, idOf: IdOf)
    requires DistinctIds(xs, idOf) && DistinctIds(ys, idOf)
    ensures ReceiptRoot(xs, idOf) == ReceiptRoot(ys, idOf) <==> multiset(xs) == multiset(ys)
  {
    if multiset(xs) == multiset(ys) {
      OrderFree(xs, ys, idOf);
    }
    if ReceiptRoot(xs, idOf) == ReceiptRoot(ys, idOf) {
      forall x ensures multiset(xs)[x] == multiset(ys)[x] {
        SameRootSameCount(xs, ys, idOf, x);
      }
    }
  }

  lemma InsertFirst(x: Receipt, s: seq<Receipt>, idOf: IdOf)
    requires Ascending([x] + s, ById(idOf))
    ensures Insert(x, s, ById(idOf)) == [x] + s
  {
    if |s| > 0 {
      assert ([x] + s)[0] == x && ([x] + s)[1] == s[0];
    }
  }

  lemma {:induction false} SortOfSorted(s: seq<Receipt>, idOf: IdOf)
    requires Ascending(s, ById(idOf))
    ensures Sort(s, ById(idOf)) == s
  {
    if |s| > 0 {
      SortOfSorted(s[1..], idOf);
      assert s == [s[0]] + s[1..];
      InsertFirst(s[0], s[1..], idOf);
    }
  }

  lemma RepeatLastAscends(s: seq<Receipt>, idOf: IdOf)
    requires Ascending(s, ById(idOf)) && |s| > 0
    ensures Ascending(s + [s[|s| - 1]], ById(idOf))
  {
    var last := s[|s| - 1];
    Strings.LeTotal(idOf(last), idOf(last));
    forall i, j | 0 <= i < j < |s| + 1 ensures ById(idOf)((s + [last])[i], (s + [last])[j]) {
      assert i < |s| - 1 ==> ById(idOf)(s[i], last);
    }
  }

  lemma RootOfTwins(a: seq<Digest>, b: seq<Digest>)
    requires |a| > 1 && |b| > 1 && Above(a) == Above(b)
    ensures Root(a) == Root(b)
  {
    assert Root(a) == Root(Above(a));
    assert Root(b) == Root(Above(b));
  }

  lemma SeatsOfOneMore(n: nat, i: nat)
    requires n > 1 && n % 2 == 1
    ensures Tall(n + 1) == Tall(n)
    ensures Seat(n, i) == Min(Seat(n + 1, i), n - 1)
  {
    assert (n + 2) / 2 == (n + 1) / 2;
  }

  lemma TwinSeats(s: seq<Receipt>, t: seq<Receipt>)
    requires |s| > 1 && |s| % 2 == 1 && t == s + [s[|s| - 1]]
    ensures SameSeats(t, s)
  {
    SeatsOfOneMore(|s|, 0);
    forall i: nat | i < Places(Tall(|s|)) ensures AgreeAt(t, s, i) {
      SeatsOfOneMore(|s|, i);
    }
  }

  /**
   * Repeated ids are not told apart: an odd list and the same with its last receipt repeated hold the same at every
   * place.
   */
  lemma RepeatedReceiptUnseen(s: seq<Receipt>, idOf: IdOf)
    requires Ascending(s, ById(idOf)) && |s| > 1 && |s| % 2 == 1
    ensures ReceiptRoot(s + [s[|s| - 1]], idOf) == ReceiptRoot(s, idOf)
  {
    var t := s + [s[|s| - 1]];
    RepeatLastAscends(s, idOf);
    SortOfSorted(s, idOf);
    SortOfSorted(t, idOf);
    TwinSeats(s, t);
    RootsAgreeExactly(t, s, idOf);
  }
}
