/** Results, orders, sorting and sums shared by every engine of the model. */
module Prelude {
  datatype Option<+T> = None | Some(value: T)

  /** The source raises an exception where the model answers Err. */
  datatype Result<+T> = Ok(value: T) | Err(reason: string)

  ghost predicate Distinct<T(!new)>(s: seq<T>) {
    forall i, j :: 0 <= i < j < |s| ==> s[i] != s[j]
  }

  lemma Associative<T>(a: seq<T>, b: seq<T>, c: seq<T>)
    ensures a + (b + c) == a + b + c
  {
  }

  lemma PrefixOfConcat<T>(a: seq<T>, b: seq<T>, n: nat)
    requires |a| <= n <= |a| + |b|
    ensures (a + b)[..n] == a + b[..n - |a|]
  {
  }

  function Max(a: int, b: int): int {
    if a < b then b else a
  }

  function Min(a: int, b: int): int {
    if a < b then a else b
  }
}

/** Python's sorted(): stable insertion by a total preorder. */
module Sorting {
  ghost predicate Ordering<T(!new)>(le: (T, T) -> bool) {
    && (forall a, b :: le(a, b) || le(b, a))
    && (forall a, b, c :: le(a, b) && le(b, c) ==> le(a, c))
  }

  ghost predicate Antisymmetric<T(!new)>(le: (T, T) -> bool) {
    forall a, b :: le(a, b) && le(b, a) ==> a == b
  }

  ghost predicate Ascending<T>(s: seq<T>, le: (T, T) -> bool) {
    forall i, j :: 0 <= i < j < |s| ==> le(s[i], s[j])
  }

  function Insert<T>(x: T, s: seq<T>, le: (T, T) -> bool): (r: seq<T>)
    ensures multiset(r) == multiset(s) + multiset{x}
    ensures |r| == |s| + 1
  {
    if |s| == 0 || le(x, s[0]) then
      [x] + s
    else
      assert s == [s[0]] + s[1..];
      [s[0]] + Insert(x, s[1..], le)
  }

  function Sort<T>(s: seq<T>, le: (T, T) -> bool): (r: seq<T>)
    ensures multiset(r) == multiset(s)
    ensures |r| == |s|
  {
    if |s| == 0 then
      []
    else
      assert s == [s[0]] + s[1..];
      Insert(s[0], Sort(s[1..], le), le)
  }

  lemma SameMembers<T>(s: seq<T>, t: seq<T>, x: T)
    requires multiset(s) == multiset(t)
    ensures x in s <==> x in t
  {
    assert x in s <==> x in multiset(s);
    assert x in t <==> x in multiset(t);
  }

  lemma {:induction false} InsertAscends<T(!new)>(x: T, s: seq<T>, le: (T, T) -> bool)
    requires Ordering(le) && Ascending(s, le)
    ensures Ascending(Insert(x, s, le), le)
  {
    if |s| == 0 || le(x, s[0]) {
      forall j | 0 <= j < |s| ensures le(x, s[j]) {
        assert j > 0 ==> le(s[0], s[j]);
      }
    } else {
      var rest := Insert(x, s[1..], le);
      InsertAscends(x, s[1..], le);
      forall j | 0 <= j < |rest| ensures le(s[0], rest[j]) {
        assert multiset(rest) == multiset([x] + s[1..]);
        SameMembers(rest, [x] + s[1..], rest[j]);
        assert rest[j] in [x] + s[1..];
        assert rest[j] == x || rest[j] in s[1..];
      }
    }
  }

  lemma {:induction false} SortAscends<T(!new)>(s: seq<T>, le: (T, T) -> bool)
    requires Ordering(le)
    ensures Ascending(Sort(s, le), le)
  {
    if |s| > 0 {
      SortAscends(s[1..], le);
      InsertAscends(s[0], Sort(s[1..], le), le);
    }
  }

  /** The members of s that rank equal to x, in their order. */
  function Ties<T>(s: seq<T>, x: T, le: (T, T) -> bool): seq<T> {
    if |s| == 0 then []
    else (if le(s[0], x) && le(x, s[0]) then [s[0]] else []) + Ties(s[1..], x, le)
  }

  lemma TiesCons<T>(first: T, rest: seq<T>, x: T, le: (T, T) -> bool)
    ensures Ties([first] + rest, x, le) == (if le(first, x) && le(x, first) then [first] else []) + Ties(rest, x, le)
  {
    assert ([first] + rest)[1..] == rest;
  }

  lemma {:induction false} InsertStable<T(!new)>(y: T, s: seq<T>, x: T, le: (T, T) -> bool)
    requires Ordering(le)
    ensures Ties(Insert(y, s, le), x, le) == Ties([y] + s, x, le)
  {
    if |s| > 0 && !le(y, s[0]) {
      InsertStable(y, s[1..], x, le);
      assert Insert(y, s, le) == [s[0]] + Insert(y, s[1..], le);
      TiesCons(s[0], Insert(y, s[1..], le), x, le);
      assert !(le(y, x) && le(x, s[0]));
      TiesSwap(y, s[0], s[1..], x, le);
      assert s == [s[0]] + s[1..];
    }
  }

  lemma TiesSwap<T>(a: T, b: T, rest: seq<T>, x: T, le: (T, T) -> bool)
    requires !(le(a, x) && le(x, a) && le(b, x) && le(x, b))
    ensures Ties([a] + ([b] + rest), x, le)
      == (if le(b, x) && le(x, b) then [b] else []) + Ties([a] + rest, x, le)
  {
    TiesCons(a, [b] + rest, x, le);
    TiesCons(b, rest, x, le);
    TiesCons(a, rest, x, le);
  }

  /** Sorting is stable: what ranks equal keeps its order. */
  lemma {:induction false} SortStable<T(!new)>(s: seq<T>, x: T, le: (T, T) -> bool)
    requires Ordering(le)
    ensures Ties(Sort(s, le), x, le) == Ties(s, x, le)
  {
    if |s| > 0 {
      SortStable(s[1..], x, le);
      InsertStable(s[0], Sort(s[1..], le), x, le);
      TiesCons(s[0], Sort(s[1..], le), x, le);
    }
  }

  /** A list without repetitions has as many members as places. */
  lemma {:induction false} MembersCount<T(!new)>(s: seq<T>)
    requires forall i, j :: 0 <= i < j < |s| ==> s[i] != s[j]
    ensures |set x | x in s| == |s|
  {
    if |s| > 0 {
      var last := |s| - 1;
      MembersCount(s[..last]);
      assert (set x | x in s) == (set x | x in s[..last]) + {s[last]};
    }
  }

  /** No two different members of s rank equal. */
  ghost predicate TieFree<T(!new)>(s: seq<T>, le: (T, T) -> bool) {
    forall a, b :: a in s && b in s && le(a, b) && le(b, a) ==> a == b
  }

  lemma FirstIsLeast<T(!new)>(s: seq<T>, t: seq<T>, le: (T, T) -> bool)
    requires Ascending(t, le) && multiset(s) == multiset(t) && |s| > 0 && |t| > 0
    ensures t[0] in s && (t[0] == s[0] || le(t[0], s[0]))
  {
    SameMembers(s, t, s[0]);
    SameMembers(s, t, t[0]);
    var i :| 0 <= i < |t| && t[i] == s[0];
  }

  lemma FirstsAgree<T(!new)>(s: seq<T>, t: seq<T>, le: (T, T) -> bool)
    requires TieFree(s, le) && Ascending(s, le) && Ascending(t, le)
    requires multiset(s) == multiset(t) && |s| > 0 && |t| > 0
    ensures s[0] == t[0]
  {
    FirstIsLeast(s, t, le);
    FirstIsLeast(t, s, le);
  }

  lemma DropAlike<T>(s: seq<T>, t: seq<T>)
    requires |s| > 0 && |t| > 0 && s[0] == t[0] && multiset(s) == multiset(t)
    ensures multiset(s[1..]) == multiset(t[1..])
  {
    assert s == [s[0]] + s[1..] && t == [t[0]] + t[1..];
    assert multiset(s[1..]) == multiset(s) - multiset{s[0]};
    assert multiset(t[1..]) == multiset(t) - multiset{t[0]};
  }

  lemma DropOrder<T(!new)>(s: seq<T>, le: (T, T) -> bool)
    requires |s| > 0 && Ascending(s, le)
    ensures Ascending(s[1..], le)
    ensures TieFree(s, le) ==> TieFree(s[1..], le)
  {
  }

  /** One ascending arrangement only, when nothing ties. */
  lemma {:induction false} AscendingUnique<T(!new)>(s: seq<T>, t: seq<T>, le: (T, T) -> bool)
    requires TieFree(s, le) && Ascending(s, le) && Ascending(t, le)
    requires multiset(s) == multiset(t)
    ensures s == t
  {
    assert |s| == |multiset(s)| == |multiset(t)| == |t|;
    if |s| > 0 {
      FirstsAgree(s, t, le);
      DropAlike(s, t);
      DropOrder(s, le);
      DropOrder(t, le);
      AscendingUnique(s[1..], t[1..], le);
      assert s == [s[0]] + s[1..] && t == [t[0]] + t[1..];
    }
  }

  lemma {:induction false} Least<T(!new)>(s: set<T>, le: (T, T) -> bool) returns (least: T)
    requires Ordering(le) && s != {}
    ensures least in s && forall y :: y in s ==> le(least, y)
  {
    var first :| first in s;
    var rest := s - {first};
    least := first;
    if rest != {} {
      var other := Least(rest, le);
      least := if le(first, other) then first else other;
    }
    forall y | y in s ensures le(least, y) {
      assert y == first || y in rest;
      assert le(first, first);
    }
  }

  /** sorted() over a set or over the keys of a dict. */
  function InOrder<T(==, !new)>(s: set<T>, le: (T, T) -> bool): (r: seq<T>)
    requires Ordering(le) && Antisymmetric(le)
    ensures |r| == |s|
  {
    if s == {} then
      []
    else
      assert exists x :: x in s && forall y :: y in s ==> le(x, y) by {
        var least := Least(s, le);
      }
      var x :| x in s && forall y :: y in s ==> le(x, y);
      [x] + InOrder(s - {x}, le)
  }

  /** Every member once, in order. */
  lemma {:induction false} OrderedOnce<T(!new)>(s: set<T>, le: (T, T) -> bool)
    requires Ordering(le) && Antisymmetric(le)
    ensures var r := InOrder(s, le);
      && Ascending(r, le)
      && (forall x :: x in r <==> x in s)
      && (forall i, j :: 0 <= i < j < |r| ==> r[i] != r[j])
  {
    if s != {} {
      var r := InOrder(s, le);
      assert s - {r[0]} < s;
      OrderedOnce(s - {r[0]}, le);
      assert r[1..] == InOrder(s - {r[0]}, le);
      assert r == [r[0]] + r[1..];
    }
  }
}

/** The code point order of Python strings. */
module Strings {
  import opened Sorting

  predicate Le(a: string, b: string) {
    |a| == 0 || (|b| > 0 && (a[0] < b[0] || (a[0] == b[0] && Le(a[1..], b[1..]))))
  }

  /** They agree up to n, and there a ends or has the lower character. */
  ghost predicate BeforeAt(a: string, b: string, n: nat) {
    n <= |a| && n < |b| && a[..n] == b[..n] && (n < |a| ==> a[n] < b[n])
  }

  /** Strictly first in code points: the lower character where the two first differ, or a proper beginning. */
  ghost predicate Before(a: string, b: string) {
    exists n: nat :: BeforeAt(a, b, n)
  }

  lemma SharedBeginning(a: string, b: string)
    ensures forall n: nat :: n > 0 && BeforeAt(a, b, n) ==> a[0] == b[0]
  {
    forall n: nat | n > 0 && BeforeAt(a, b, n) ensures a[0] == b[0] {
      assert a[..n][0] == b[..n][0];
    }
  }

  /** The recursive comparison is the code point order. */
  lemma {:induction false} LeExactly(a: string, b: string)
    ensures Le(a, b) <==> a == b || Before(a, b)
  {
    if |a| > 0 && |b| > 0 && a[0] == b[0] {
      LeExactly(a[1..], b[1..]);
      assert a == [a[0]] + a[1..] && b == [b[0]] + b[1..];
      BeforeBehind(a, b);
    } else if |b| > 0 {
      assert BeforeAt(a, b, 0) <==> |a| == 0 || a[0] < b[0];
      SharedBeginning(a, b);
    }
  }

  lemma BeforeShifts(a: string, b: string, n: nat)
    requires |a| > 0 && |b| > 0 && a[0] == b[0]
    ensures BeforeAt(a, b, n + 1) <==> BeforeAt(a[1..], b[1..], n)
    ensures !BeforeAt(a, b, 0)
  {
    if n < |a| && n < |b| {
      assert a[..n + 1] == [a[0]] + a[1..][..n] && b[..n + 1] == [b[0]] + b[1..][..n];
      assert a[1..][..n] == a[..n + 1][1..] && b[1..][..n] == b[..n + 1][1..];
    }
  }

  /** An equal first character does not matter. */
  lemma BeforeBehind(a: string, b: string)
    requires |a| > 0 && |b| > 0 && a[0] == b[0]
    ensures Before(a, b) <==> Before(a[1..], b[1..])
  {
    if Before(a, b) {
      var n: nat :| BeforeAt(a, b, n);
      BeforeShifts(a, b, if n > 0 then n - 1 else 0);
      assert BeforeAt(a[1..], b[1..], n - 1);
    }
    if Before(a[1..], b[1..]) {
      var n: nat :| BeforeAt(a[1..], b[1..], n);
      BeforeShifts(a, b, n);
    }
  }

  lemma {:induction false} LeTotal(a: string, b: string)
    ensures Le(a, b) || Le(b, a)
  {
    if |a| > 0 && |b| > 0 && a[0] == b[0] {
      LeTotal(a[1..], b[1..]);
    }
  }

  lemma {:induction false} LeAntisymmetric(a: string, b: string)
    requires Le(a, b) && Le(b, a)
    ensures a == b
  {
    if |a| > 0 && |b| > 0 {
      LeAntisymmetric(a[1..], b[1..]);
      assert a == [a[0]] + a[1..] && b == [b[0]] + b[1..];
    }
  }

  lemma {:induction false} LeTransitive(a: string, b: string, c: string)
    requires Le(a, b) && Le(b, c)
    ensures Le(a, c)
  {
    if |a| > 0 && a[0] == b[0] == c[0] {
      LeTransitive(a[1..], b[1..], c[1..]);
    }
  }

  lemma LeOrdering()
    ensures Ordering(Le) && Antisymmetric(Le)
  {
    forall a, b ensures Le(a, b) || Le(b, a) { LeTotal(a, b); }
    forall a, b | Le(a, b) && Le(b, a) ensures a == b { LeAntisymmetric(a, b); }
    forall a, b, c | Le(a, b) && Le(b, c) ensures Le(a, c) { LeTransitive(a, b, c); }
  }

  /** sorted() over a set of strings. */
  function SortedNames(s: set<string>): (r: seq<string>)
    ensures |r| == |s|
  {
    LeOrdering();
    InOrder(s, Le)
  }

  lemma NamesDistinct(s: set<string>)
    ensures forall i, j :: 0 <= i < j < |SortedNames(s)| ==> SortedNames(s)[i] != SortedNames(s)[j]
  {
    NamesSorted(s);
  }

  lemma NameListed(s: set<string>, name: string)
    ensures name in SortedNames(s) <==> name in s
  {
    NamesSorted(s);
  }

  /** And that order is the one of code points. */
  lemma NamesAscend(s: set<string>, i: nat, j: nat)
    requires i < j < |SortedNames(s)|
    ensures Before(SortedNames(s)[i], SortedNames(s)[j])
  {
    NamesSorted(s);
    LeExactly(SortedNames(s)[i], SortedNames(s)[j]);
  }

  lemma EarlierStands(s: set<string>, a: string, b: string) returns (i: nat, j: nat)
    requires a in s && b in s && Before(a, b)
    ensures i < j < |SortedNames(s)| && SortedNames(s)[i] == a && SortedNames(s)[j] == b
  {
    NameListed(s, a);
    NameListed(s, b);
    i :| 0 <= i < |SortedNames(s)| && SortedNames(s)[i] == a;
    j :| 0 <= j < |SortedNames(s)| && SortedNames(s)[j] == b;
    LeExactly(a, b);
    if j <= i {
      if j < i {
        NamesAscend(s, j, i);
        LeExactly(b, a);
        LeAntisymmetric(a, b);
      }
      NotBeforeItself(a);
    }
  }

  lemma NotBeforeItself(a: string)
    ensures !Before(a, a)
  {
    assert forall n: nat :: !BeforeAt(a, a, n);
  }

  /** Every name once, in order. */
  lemma NamesSorted(s: set<string>)
    ensures var r := SortedNames(s);
      && Ascending(r, Le)
      && (forall x :: x in r <==> x in s)
      && (forall i, j :: 0 <= i < j < |r| ==> r[i] != r[j])
  {
    LeOrdering();
    OrderedOnce(s, Le);
  }
}

/** Exact sums; floating point rounding is not modelled. */
module Sums {
  function Sum<T>(s: seq<T>, f: T -> real): real {
    if |s| == 0 then 0.0 else f(s[0]) + Sum(s[1..], f)
  }

  lemma {:induction false} SumAppend<T>(s: seq<T>, t: seq<T>, f: T -> real)
    ensures Sum(s + t, f) == Sum(s, f) + Sum(t, f)
  {
    if |s| == 0 {
      assert s + t == t;
    } else {
      SumAppend(s[1..], t, f);
      assert (s + t)[1..] == s[1..] + t;
    }
  }

  function Without<T>(s: seq<T>, i: nat): seq<T>
    requires i < |s|
  {
    s[..i] + s[i + 1..]
  }

  lemma WithoutMembers<T>(s: seq<T>, i: nat)
    requires i < |s|
    ensures multiset(Without(s, i)) == multiset(s) - multiset{s[i]}
  {
    assert s == s[..i] + [s[i]] + s[i + 1..];
  }

  lemma WithoutSum<T>(s: seq<T>, i: nat, f: T -> real)
    requires i < |s|
    ensures Sum(s, f) == f(s[i]) + Sum(Without(s, i), f)
  {
    assert s == s[..i] + s[i..] && s[i..][1..] == s[i + 1..];
    SumAppend(s[..i], s[i..], f);
    SumAppend(s[..i], s[i + 1..], f);
  }

  lemma {:induction false} SumPermuted<T>(s: seq<T>, t: seq<T>, f: T -> real)
    requires multiset(s) == multiset(t)
    ensures Sum(s, f) == Sum(t, f)
  {
    if |s| == 0 {
      assert |multiset(t)| == 0;
    } else {
      assert s[0] in multiset(t);
      var i :| 0 <= i < |t| && t[i] == s[0];
      WithoutMembers(t, i);
      WithoutMembers(s, 0);
      assert Without(s, 0) == s[1..];
      SumPermuted(s[1..], Without(t, i), f);
      WithoutSum(t, i, f);
    }
  }

  lemma {:induction false} SumConstant<T>(s: seq<T>, f: T -> real, c: real)
    requires forall i :: 0 <= i < |s| ==> f(s[i]) == c
    ensures Sum(s, f) == c * (|s| as real)
  {
    if |s| > 0 {
      SumConstant(s[1..], f, c);
    }
  }

  lemma {:induction false} SumBounds<T>(s: seq<T>, f: T -> real, low: real, high: real)
    requires forall i :: 0 <= i < |s| ==> low <= f(s[i]) <= high
    ensures low * (|s| as real) <= Sum(s, f) <= high * (|s| as real)
  {
    if |s| > 0 {
      SumBounds(s[1..], f, low, high);
    }
  }

  lemma {:induction false} SumSame<T>(s: seq<T>, f: T -> real, g: T -> real)
    requires forall i :: 0 <= i < |s| ==> f(s[i]) == g(s[i])
    ensures Sum(s, f) == Sum(s, g)
  {
    if |s| > 0 {
      SumSame(s[1..], f, g);
    }
  }
}

/** Small facts about products and quotients of reals. */
module Reals {
  lemma Cancel(x: real, q: real, d: real)
    requires d != 0.0 && x == q * d
    ensures x / d == q
  {
  }

  lemma FactorOrder(a: real, b: real, d: real)
    requires d > 0.0 && a * d <= b * d
    ensures a <= b
  {
  }

  lemma FactorEqual(a: real, b: real, d: real)
    requires d != 0.0 && a * d == b * d
    ensures a == b
  {
  }

  lemma QuotientOrder(v: real, w: real, d: real)
    requires d > 0.0
    ensures v / d >= w / d <==> v >= w
  {
    var q, r := v / d, w / d;
    assert q * d == v && r * d == w;
  }

  lemma QuotientInUnit(x: real, d: real)
    requires 0.0 <= x <= d && d > 0.0
    ensures 0.0 <= x / d <= 1.0
  {
  }

  function Times(a: real, b: real): real {
    a * b
  }

  function Squared(x: real): real {
    Times(x, x)
  }

  lemma SameSign(a: real, b: real)
    requires (a > 0.0 && b > 0.0) || (a < 0.0 && b < 0.0)
    ensures Times(a, b) > 0.0
  {
  }

  lemma SquaredPositive(x: real)
    ensures Squared(x) >= 0.0 && (x != 0.0 ==> Squared(x) > 0.0)
  {
    if x != 0.0 {
      SameSign(x, x);
    }
  }

  lemma QuotientSign(a: real, n: real)
    requires a >= 0.0 && n > 0.0
    ensures a / n >= 0.0 && (a > 0.0 ==> a / n > 0.0)
  {
  }

  lemma ZeroFactor(a: real, b: real)
    requires a > 0.0 && a * b == 0.0
    ensures b == 0.0
  {
  }

  lemma SignOfFactor(a: real, b: real)
    requires a > 0.0
    ensures a * b <= 0.0 <==> b <= 0.0
  {
  }

  lemma PositiveTimes(a: real, b: real)
    requires a > 0.0 && b > 0.0
    ensures a * b > 0.0
  {
  }

  lemma NonNegativeTimes(a: real, b: real)
    requires a >= 0.0 && b >= 0.0
    ensures a * b >= 0.0
  {
  }

  lemma DifferenceOfSquares(a: real, b: real)
    ensures (b - a) * (b + a) == b * b - a * a
  {
  }

  lemma Squares(a: real, b: real)
    requires b >= 0.0
    ensures a * a <= b * b <==> -b <= a <= b
  {
    DifferenceOfSquares(a, b);
    if -b <= a <= b {
      NonNegativeTimes(b - a, b + a);
    } else if a > b {
      PositiveTimes(a - b, b + a);
      assert (a - b) * (b + a) == -((b - a) * (b + a));
    } else {
      PositiveTimes(b - a, -(b + a));
      assert (b - a) * -(b + a) == -((b - a) * (b + a));
    }
  }

  lemma NoSquareRootOfZero(a: real)
    requires a * a == 0.0
    ensures a == 0.0
  {
    Squares(a, 0.0);
  }

  lemma OrderByFactor(a: real, x: real, y: real)
    requires a > 0.0 && a * x <= a * y
    ensures x <= y
  {
  }

  lemma Steps(a: real, x: real, y: real, z: real)
    requires a > 0.0 && x <= y <= z
    ensures a * x <= a * y <= a * z
  {
  }

  lemma SquareOfProduct(z: real, root: real, radicand: real)
    requires root * root == radicand
    ensures (z * root) * (z * root) == Squared(z) * radicand
  {
  }

  lemma Spread(u: real, a: real, b: real)
    ensures u * (a + b) == u * a + u * b
  {
  }

  lemma Portion(u: real, v: real, n: real)
    requires n > 0.0
    ensures u * (v / n) == (u / n) * v
  {
  }

  lemma Fourth(u: real, n: real)
    requires n > 0.0 && Squared(n) > 0.0
    ensures u * (u / (4.0 * Squared(n))) == (u / n) * (u / n) / 4.0
  {
    var q, r := u / n, u / (4.0 * Squared(n));
    assert u == q * n && u == r * (4.0 * Squared(n));
    Fourths(q, r, n);
    assert u * r == q * (n * r);
  }

  lemma Fourths(q: real, r: real, n: real)
    requires n > 0.0 && q * n == r * (4.0 * Squared(n))
    ensures n * r == q / 4.0
  {
    assert r * (4.0 * Squared(n)) == (4.0 * (n * r)) * n;
    FactorEqual(q, 4.0 * (n * r), n);
  }

  lemma HalfOf(u: real, n: real)
    requires n > 0.0
    ensures u / (2.0 * n) == u / n / 2.0
  {
  }

  lemma Undivided(a: real, b: real)
    requires b > 0.0
    ensures b * (a / b) == a
  {
  }

  lemma Reciprocal(x: real)
    requires x != 0.0
    ensures Times(1.0 / x, x) == 1.0
  {
  }

  lemma QuotientOfSelf(a: real)
    requires a != 0.0
    ensures a / a == 1.0
  {
  }

  lemma Quotients(a: real, b: real, whole: real)
    requires whole != 0.0
    ensures a / whole + b / whole == (a + b) / whole
  {
  }

  lemma PositiveQuotient(a: real, whole: real)
    requires a > 0.0 && whole > 0.0
    ensures a / whole > 0.0
  {
  }

  lemma SmallerQuotient(a: real, b: real, whole: real)
    requires a < b && whole > 0.0
    ensures a / whole < b / whole
  {
    Quotients(a, b - a, whole);
    PositiveQuotient(b - a, whole);
  }

  lemma ProductInside(q: real, n: real)
    requires 0.0 <= q <= 1.0 && n >= 0.0
    ensures 0.0 <= q * n <= n
  {
  }

  lemma ShareOf(a: real, b: real, few: real, many: real)
    requires 0.0 <= a <= b * few && b >= 0.0 && 0.0 <= few <= many && many > 0.0
    ensures 0.0 <= a / many <= b
  {
    assert b * few <= b * many;
    assert a / many * many == a;
  }

  lemma OneLess(alpha: real, n: real)
    ensures (1.0 - alpha) * n == n - alpha * n
  {
  }

  lemma CutBelow(amount: real, part: real)
    requires amount >= 0.0 && 0.0 <= part <= 1.0
    ensures 0.0 <= amount * part <= amount
  {
  }

  lemma Below(billing: real, bound: real, rebate: real, share: real)
    requires billing > 0.0 && rebate < 1.0 - share && bound <= billing * rebate
    ensures bound + share * billing < billing
  {
    var slack := 1.0 - share - rebate;
    assert billing * slack > 0.0;
    assert billing * slack == billing - billing * share - billing * rebate;
  }

  lemma One(x: real)
    ensures Times(x, 1.0) == x && Times(x, 0.0) == 0.0
  {
  }

  function Part(value: int, whole: int): real
    requires whole != 0
  {
    value as real / whole as real
  }

  lemma PartsAdd(a: int, b: int, whole: int)
    requires whole != 0
    ensures Part(a, whole) + Part(b, whole) == Part(a + b, whole)
  {
  }

  lemma WholePart(whole: int)
    requires whole > 0
    ensures Part(whole, whole) == 1.0
  {
  }

  lemma PartOrder(a: int, whole: int)
    requires whole > 0 && a >= 0
    ensures Part(a, whole) >= 0.0 && (a > 0 ==> Part(a, whole) > 0.0)
  {
  }

  lemma FloorsInside(x: real, n: int)
    requires 0.0 <= x <= n as real
    ensures 0 <= x.Floor <= Ceil(x) <= n && 0.0 <= x - x.Floor as real <= 1.0
  {
  }

  lemma PartInside(gap: real, part: real)
    requires gap >= 0.0 && 0.0 <= part <= 1.0
    ensures 0.0 <= ShareOfGap(gap, part) <= gap
  {
  }

  function Ceil(x: real): int {
    -((-x).Floor)
  }

  function ShareOfGap(gap: real, part: real): real {
    gap * part
  }

  lemma QuotientComplement(x: real, d: real)
    requires d > 0.0
    ensures (d - x) / d == 1.0 - x / d
    ensures d / 2.0 / d == 0.5
  {
    assert (1.0 - x / d) * d == d - x / d * d;
    Cancel(d - x, 1.0 - x / d, d);
    Cancel(d / 2.0, 0.5, d);
  }
}

/** Small facts about products and quotients of integers. */
module Integers {
  lemma Distribute(w: int, a: int, b: int)
    ensures w * (a + b) == w * a + w * b
  {
  }

  lemma Scale(a: int, b: int, w: int)
    requires a <= b && w >= 0
    ensures a * w <= b * w
  {
  }

  lemma AtMost(whole: int, a: int, b: int)
    requires whole > 0 && whole * a <= b * whole
    ensures a <= b
  {
  }

  lemma ShortStep(serving: int, score: int, scores: int, whole: int, r: int, rs: int, n: int)
    requires serving * score < (r + 1) * whole && whole * (rs + n) >= serving * scores + n
    ensures whole * (r + rs + n + 1) >= serving * (score + scores) + n + 1
  {
    Distribute(serving, score, scores);
    Distribute(whole, r + 1, rs + n);
  }

  lemma MoreThan(whole: int, a: int, b: int)
    requires whole > 0 && whole * a > b * whole
    ensures a > b
  {
  }

  lemma EvenSplit(amount: int, n: int)
    requires amount >= 0 && n > 0
    ensures 0 <= amount / n && amount / n * n <= amount
  {
  }

  lemma ProportionStep(serving: int, score: int, scores: int, whole: int, r: int, rs: int)
    requires r * whole <= serving * score && whole * rs <= serving * scores
    ensures whole * (r + rs) <= serving * (score + scores)
  {
    Distribute(serving, score, scores);
    Distribute(whole, r, rs);
  }
}

/** Dictionaries keyed by name: lookups with a default, and sums of values. */
module Dicts {
  import opened Reals

  function Get<V>(m: map<string, V>, key: string, default: V): V {
    if key in m then m[key] else default
  }

  /** sum(m.values()) */
  ghost function Total(m: map<string, int>): int
    decreases |m|
  {
    if m == map[] then 0 else
      var key := AnyKey(m);
      m[key] + Total(m - {key})
  }

  ghost function RealTotal(m: map<string, real>): real
    decreases |m|
  {
    if m == map[] then 0.0 else
      var key := AnyKey(m);
      m[key] + RealTotal(m - {key})
  }

  ghost function AnyKey<V>(m: map<string, V>): (key: string)
    requires m != map[]
    ensures key in m
  {
    assert m.Keys != {};
    var key :| key in m;
    key
  }

  method SumValues(m: map<string, int>) returns (sum: int)
    ensures sum == Total(m)
  {
    sum := 0;
    var todo := m;
    while todo != map[]
      invariant sum + Total(todo) == Total(m)
      decreases |todo|
    {
      assert todo.Keys != {};
      var key :| key in todo;
      TotalSplit(todo, key);
      sum := sum + todo[key];
      todo := todo - {key};
    }
  }

  lemma {:induction false} TotalSplit(m: map<string, int>, key: string)
    requires key in m
    ensures Total(m) == m[key] + Total(m - {key})
    decreases |m|
  {
    var least := AnyKey(m);
    if least != key {
      TotalSplit(m - {least}, key);
      TotalSplit(m - {key}, least);
      assert m - {least} - {key} == m - {key} - {least};
    }
  }

  lemma {:induction false} RealTotalSplit(m: map<string, real>, key: string)
    requires key in m
    ensures RealTotal(m) == m[key] + RealTotal(m - {key})
    decreases |m|
  {
    var least := AnyKey(m);
    if least != key {
      RealTotalSplit(m - {least}, key);
      RealTotalSplit(m - {key}, least);
      assert m - {least} - {key} == m - {key} - {least};
    }
  }

  lemma TotalUpdate(m: map<string, int>, key: string, value: int)
    ensures Total(m[key := value]) == Total(m) - Get(m, key, 0) + value
  {
    TotalSplit(m[key := value], key);
    if key in m {
      TotalSplit(m, key);
      assert m[key := value] - {key} == m - {key};
    } else {
      assert m[key := value] - {key} == m;
    }
  }

  lemma RealTotalUpdate(m: map<string, real>, key: string, value: real)
    ensures RealTotal(m[key := value]) == RealTotal(m) - Get(m, key, 0.0) + value
  {
    RealTotalSplit(m[key := value], key);
    if key in m {
      RealTotalSplit(m, key);
      assert m[key := value] - {key} == m - {key};
    } else {
      assert m[key := value] - {key} == m;
    }
  }

  /** Values that are never negative sum to at least any one of them, and at least any part of the dict. */
  lemma {:induction false} TotalOfPart(m: map<string, int>, gone: set<string>)
    requires forall key :: key in m ==> m[key] >= 0
    ensures 0 <= Total(m - gone) <= Total(m)
    decreases |m|
  {
    if m != map[] {
      var key := AnyKey(m);
      TotalOfPart(m - {key}, gone);
      if key in gone {
        assert m - gone == m - {key} - gone;
      } else {
        TotalSplit(m - gone, key);
        assert m - gone - {key} == m - {key} - gone;
      }
    } else {
      assert m - gone == m;
    }
  }

  // ---------------------------------------------------------------- dicts of reals

  function RealMerge(a: map<string, real>, b: map<string, real>): map<string, real> {
    map o | o in a.Keys + b.Keys :: Get(a, o, 0.0) + Get(b, o, 0.0)
  }

  function Scaled(m: map<string, real>, factor: real): map<string, real> {
    map o | o in m :: Times(factor, m[o])
  }

  lemma RealMergeOne(a: map<string, real>, b: map<string, real>, o: string)
    requires o in b
    ensures var before := RealMerge(a, b - {o});
      RealMerge(a, b) == before[o := Get(before, o, 0.0) + b[o]]
  {
  }

  lemma RealTotalGrows(before: map<string, real>, after: map<string, real>, o: string, more: real)
    requires after == before[o := Get(before, o, 0.0) + more]
    ensures RealTotal(after) == RealTotal(before) + more
  {
    RealTotalUpdate(before, o, Get(before, o, 0.0) + more);
  }

  lemma RealMergeGrows(a: map<string, real>, b: map<string, real>, o: string)
    requires o in b
    ensures RealTotal(RealMerge(a, b)) == RealTotal(RealMerge(a, b - {o})) + b[o]
  {
    RealMergeOne(a, b, o);
    RealTotalGrows(RealMerge(a, b - {o}), RealMerge(a, b), o, b[o]);
  }

  lemma {:induction false} RealMergeTotal(a: map<string, real>, b: map<string, real>)
    ensures RealTotal(RealMerge(a, b)) == RealTotal(a) + RealTotal(b)
    decreases |b|
  {
    if b == map[] {
      assert RealMerge(a, b) == a;
    } else {
      var o := AnyKey(b);
      RealMergeTotal(a, b - {o});
      RealMergeGrows(a, b, o);
    }
  }

  lemma Distributes(k: real, a: real, b: real)
    ensures Times(k, a + b) == Times(k, a) + Times(k, b)
  {
  }

  lemma ScaledSplit(m: map<string, real>, factor: real, o: string)
    requires o in m
    ensures RealTotal(Scaled(m, factor)) == Times(factor, m[o]) + RealTotal(Scaled(m - {o}, factor))
  {
    assert Scaled(m, factor) - {o} == Scaled(m - {o}, factor);
    RealTotalSplit(Scaled(m, factor), o);
  }

  lemma {:induction false} ScaledTotal(m: map<string, real>, factor: real)
    ensures RealTotal(Scaled(m, factor)) == Times(factor, RealTotal(m))
    decreases |m|
  {
    if m == map[] {
      assert Scaled(m, factor) == map[];
    } else {
      var o := AnyKey(m);
      ScaledTotal(m - {o}, factor);
      ScaledSplit(m, factor, o);
      Distributes(factor, m[o], RealTotal(m - {o}));
    }
  }

  /** Adding b to a, entry by entry. */
  method AddEntries(a: map<string, real>, b: map<string, real>) returns (sum: map<string, real>)
    ensures sum == RealMerge(a, b)
  {
    sum := a;
    var todo := b.Keys;
    assert RealMerge(a, b - todo) == a;
    while todo != {}
      invariant todo <= b.Keys
      invariant sum == RealMerge(a, b - todo)
      decreases todo
    {
      var o :| o in todo;
      ghost var done := b - (todo - {o});
      RealMergeOne(a, done, o);
      assert done - {o} == b - todo;
      sum := sum[o := Get(sum, o, 0.0) + b[o]];
      todo := todo - {o};
    }
    assert b - {} == b;
  }

  ghost predicate RealNonNegative(m: map<string, real>) {
    forall o :: o in m ==> m[o] >= 0.0
  }

  lemma {:induction false} RealTotalBounds(m: map<string, real>)
    requires RealNonNegative(m)
    ensures RealTotal(m) >= 0.0
    ensures forall o :: o in m ==> m[o] <= RealTotal(m)
    decreases |m|
  {
    if m != map[] {
      var key := AnyKey(m);
      var rest := m - {key};
      RealTotalBounds(rest);
      forall o | o in m ensures m[o] <= RealTotal(m) {
        assert o != key ==> o in rest && m[o] == rest[o] <= RealTotal(rest);
      }
    }
  }

  method SumReals(m: map<string, real>) returns (sum: real)
    ensures sum == RealTotal(m)
  {
    sum := 0.0;
    var todo := m;
    while todo != map[]
      invariant sum + RealTotal(todo) == RealTotal(m)
      decreases |todo|
    {
      assert todo.Keys != {};
      var key :| key in todo;
      RealTotalSplit(todo, key);
      sum := sum + todo[key];
      todo := todo - {key};
    }
  }
}
