/** Largest-remainder rounding of weights to the chain's 16-bit integers. */
module ChainWeights {
  import opened Prelude
  import opened Sorting
  import opened Sums
  import opened Reals

  const U16_MAX: int := 65535

  datatype WeightVector = WeightVector(uids: seq<int>, values: seq<int>)

  ghost predicate Wellformed(v: WeightVector) {
    && |v.uids| == |v.values|
    && Distinct(v.uids)
    && (forall i :: 0 <= i < |v.uids| ==> v.uids[i] >= 0)
    && (forall i :: 0 <= i < |v.values| ==> 0 <= v.values[i] <= U16_MAX)
  }

  /** The constructor, with the checks of __post_init__. */
  function Vector(uids: seq<int>, values: seq<int>): (r: Result<WeightVector>)
    ensures r.Ok? <==> Wellformed(WeightVector(uids, values))
    ensures r.Ok? ==> r.value == WeightVector(uids, values)
  {
    if |uids| != |values| then Err("weight vector must pair one value with each uid")
    else if exists i, j :: 0 <= i < j < |uids| && uids[i] == uids[j] then Err("weight vector must not repeat a uid")
    else if exists i :: 0 <= i < |uids| && uids[i] < 0 then Err("uids must not be negative")
    else if exists i :: 0 <= i < |values| && !(0 <= values[i] <= U16_MAX) then Err("weights must fit in u16")
    else Ok(WeightVector(uids, values))
  }

  function Total(values: seq<int>): int {
    if |values| == 0 then 0 else values[0] + Total(values[1..])
  }

  // ---------------------------------------------------------------- quotas

  /** One uid with its exact quota; index is its place among the uids in ascending order. */
  datatype Slot = Slot(index: nat, uid: int, exact: real) {
    function Whole(): int { exact.Floor }
    function Rest(): real { exact - exact.Floor as real }
  }

  predicate IntLe(a: int, b: int) {
    a <= b
  }

  function Positive(weights: map<int, real>): set<int> {
    set uid | uid in weights && weights[uid] > 0.0
  }

  function Uids(weights: map<int, real>): (uids: seq<int>)
    ensures forall i, j :: 0 <= i < j < |uids| ==> uids[i] < uids[j]
    ensures forall uid :: uid in uids <==> uid in Positive(weights)
    ensures |uids| == |Positive(weights)|
  {
    OrderedOnce(Positive(weights), IntLe);
    InOrder(Positive(weights), IntLe)
  }

  function WeightOf(weights: map<int, real>): int -> real {
    (uid: int) => if uid in weights then weights[uid] else 0.0
  }

  function Mass(weights: map<int, real>): real {
    Sum(Uids(weights), WeightOf(weights))
  }

  ghost function AnyUid(weights: map<int, real>): (uid: int)
    requires weights != map[]
    ensures uid in weights
  {
    assert exists uid :: uid in weights by {
      assert (forall uid :: uid !in weights) ==> weights == map[];
    }
    var uid :| uid in weights;
    uid
  }

  /** The sum of all the weights above zero. */
  ghost function MassAbove(weights: map<int, real>): real
    decreases |weights|
  {
    if weights == map[] then 0.0
    else
      var uid := AnyUid(weights);
      (if weights[uid] > 0.0 then weights[uid] else 0.0) + MassAbove(weights - {uid})
  }

  /** Every uid with a weight above zero, once. */
  ghost predicate ListsAbove(uids: seq<int>, weights: map<int, real>) {
    && (forall i, j :: 0 <= i < j < |uids| ==> uids[i] != uids[j])
    && (forall uid :: uid in uids <==> uid in weights && weights[uid] > 0.0)
  }

  lemma ListsWithout(uids: seq<int>, weights: map<int, real>, i: nat)
    requires ListsAbove(uids, weights) && i < |uids|
    ensures ListsAbove(Without(uids, i), weights - {uids[i]})
  {
    var others := Without(uids, i);
    forall u ensures u in others <==> u in uids && u != uids[i] {
      if u in uids && u != uids[i] {
        var j :| 0 <= j < |uids| && uids[j] == u;
        assert j < i ==> others[j] == u;
        assert j > i ==> others[j - 1] == u;
      }
    }
  }

  lemma SumElsewhere(uids: seq<int>, weights: map<int, real>, uid: int)
    requires uid !in uids
    ensures Sum(uids, WeightOf(weights)) == Sum(uids, WeightOf(weights - {uid}))
  {
    forall i | 0 <= i < |uids| ensures WeightOf(weights)(uids[i]) == WeightOf(weights - {uid})(uids[i]) {
      assert uids[i] in uids;
    }
    SumSame(uids, WeightOf(weights), WeightOf(weights - {uid}));
  }

  lemma NoneListed(uids: seq<int>)
    requires ListsAbove(uids, map[])
    ensures uids == []
  {
    MembersCount(uids);
    assert (set uid | uid in uids) == {};
  }

  /** Listed once each, in whatever order, they sum to that. */
  lemma {:induction false} MassIsAbove(weights: map<int, real>, uids: seq<int>)
    requires ListsAbove(uids, weights)
    ensures Sum(uids, WeightOf(weights)) == MassAbove(weights)
    decreases |weights|
  {
    if weights == map[] {
      NoneListed(uids);
    } else {
      var uid := AnyUid(weights);
      if weights[uid] > 0.0 {
        var i :| 0 <= i < |uids| && uids[i] == uid;
        WithoutSum(uids, i, WeightOf(weights));
        ListsWithout(uids, weights, i);
        SumElsewhere(Without(uids, i), weights, uid);
        MassIsAbove(weights - {uid}, Without(uids, i));
      } else {
        SumElsewhere(uids, weights, uid);
        MassIsAbove(weights - {uid}, uids);
      }
    }
  }

  lemma MassExactly(weights: map<int, real>)
    ensures Mass(weights) == MassAbove(weights)
    ensures (exists uid :: uid in weights && weights[uid] > 0.0) <==> Positive(weights) != {}
  {
    MassIsAbove(weights, Uids(weights));
    if uid :| uid in weights && weights[uid] > 0.0 {
      assert uid in Positive(weights);
    }
    if Positive(weights) != {} {
      var uid :| uid in Positive(weights);
    }
  }

  lemma MassPositive(weights: map<int, real>)
    requires Positive(weights) != {}
    ensures Mass(weights) > 0.0
  {
    var uids := Uids(weights);
    assert forall i :: 0 <= i < |uids| ==> uids[i] in uids;
    SumPositive(uids, WeightOf(weights));
  }

  lemma {:induction false} SumPositive(s: seq<int>, f: int -> real)
    requires forall i :: 0 <= i < |s| ==> f(s[i]) > 0.0
    ensures |s| > 0 ==> Sum(s, f) > 0.0
  {
    if |s| > 1 {
      SumPositive(s[1..], f);
    }
  }

  function Quota(w: real, mass: real, total: real): real
    requires mass > 0.0
  {
    w / mass * total
  }

  function SlotsOf(uids: seq<int>, f: int -> real, mass: real, total: real): (slots: seq<Slot>)
    requires mass > 0.0
    ensures |slots| == |uids|
    ensures forall i :: 0 <= i < |slots| ==> slots[i] == Slot(i, uids[i], Quota(f(uids[i]), mass, total))
  {
    seq(|uids|, i requires 0 <= i < |uids| => Slot(i, uids[i], Quota(f(uids[i]), mass, total)))
  }

  function Slots(weights: map<int, real>, total: int): (slots: seq<Slot>)
    requires Mass(weights) > 0.0
    ensures |slots| == |Uids(weights)|
    ensures forall i :: 0 <= i < |slots| ==> slots[i].index == i && slots[i].uid == Uids(weights)[i]
  {
    SlotsOf(Uids(weights), WeightOf(weights), Mass(weights), total as real)
  }

  /** Larger remainder first, then the lower uid. */
  function ByRemainder(): (Slot, Slot) -> bool {
    (a: Slot, b: Slot) => a.Rest() > b.Rest() || (a.Rest() == b.Rest() && a.uid <= b.uid)
  }

  function Order(slots: seq<Slot>): (order: seq<Slot>)
    ensures |order| == |slots| && multiset(order) == multiset(slots)
  {
    Sort(slots, ByRemainder())
  }

  function WholeSum(slots: seq<Slot>): int {
    if |slots| == 0 then 0 else slots[0].Whole() + WholeSum(slots[1..])
  }

  function Shortfall(slots: seq<Slot>, total: int): int {
    total - WholeSum(slots)
  }

  // ---------------------------------------------------------------- the shortfall and who is topped up

  function RestOf(): Slot -> real { (s: Slot) => s.Rest() }
  function ExactOf(): Slot -> real { (s: Slot) => s.exact }

  lemma {:induction false} WholeAndRest(slots: seq<Slot>)
    ensures WholeSum(slots) as real + Sum(slots, RestOf()) == Sum(slots, ExactOf())
  {
    if |slots| > 0 {
      WholeAndRest(slots[1..]);
    }
  }

  lemma QuotaTimesMass(w: real, mass: real, total: real)
    requires mass > 0.0
    ensures Quota(w, mass, total) * mass == w * total
  {
    var q := w / mass;
    assert q * mass == w;
    assert (q * total) * mass == (q * mass) * total;
  }

  lemma {:induction false} SumOfQuotas(slots: seq<Slot>, uids: seq<int>, f: int -> real, mass: real, total: real)
    requires |slots| == |uids| && mass > 0.0
    requires forall i :: 0 <= i < |slots| ==> slots[i].exact * mass == f(uids[i]) * total
    ensures Sum(slots, ExactOf()) * mass == Sum(uids, f) * total
  {
    if |slots| > 0 {
      SumOfQuotas(slots[1..], uids[1..], f, mass, total);
      assert Sum(slots, ExactOf()) == slots[0].exact + Sum(slots[1..], ExactOf());
      assert Sum(uids, f) == f(uids[0]) + Sum(uids[1..], f);
    }
  }

  lemma SlotsTimesMass(uids: seq<int>, f: int -> real, mass: real, total: real)
    requires mass > 0.0
    ensures Sum(SlotsOf(uids, f, mass, total), ExactOf()) * mass == Sum(uids, f) * total
  {
    var slots := SlotsOf(uids, f, mass, total);
    forall i | 0 <= i < |slots| ensures slots[i].exact * mass == f(uids[i]) * total {
      QuotaTimesMass(f(uids[i]), mass, total);
    }
    SumOfQuotas(slots, uids, f, mass, total);
  }

  lemma SlotsOfSum(uids: seq<int>, f: int -> real, mass: real, total: real)
    requires mass > 0.0 && Sum(uids, f) == mass
    ensures Sum(SlotsOf(uids, f, mass, total), ExactOf()) == total
  {
    SlotsTimesMass(uids, f, mass, total);
    FactorEqual(Sum(SlotsOf(uids, f, mass, total), ExactOf()), total, mass);
  }

  lemma QuotasSumToTotal(weights: map<int, real>, total: int)
    requires Mass(weights) > 0.0
    ensures Sum(Slots(weights, total), ExactOf()) == total as real
  {
    SlotsOfSum(Uids(weights), WeightOf(weights), Mass(weights), total as real);
  }

  lemma ByRemainderOrders()
    ensures Ordering(ByRemainder())
  {
  }

  /** From the first whole quota on, nothing is left over. */
  lemma RestsEnd(order: seq<Slot>, k: nat)
    requires Ascending(order, ByRemainder())
    requires k < |order| && order[k].Rest() <= 0.0
    ensures Sum(order, RestOf()) <= k as real
  {
    forall j | k <= j < |order| ensures order[j].Rest() == 0.0 {
      assert j > k ==> ByRemainder()(order[k], order[j]);
    }
    SumBounds(order[..k], RestOf(), 0.0, 1.0);
    SumBounds(order[k..], RestOf(), 0.0, 0.0);
    SumAppend(order[..k], order[k..], RestOf());
    assert order == order[..k] + order[k..];
  }

  /** Handed out in order of remainder, the shortfall reaches only quotas that are not whole. */
  lemma HeadIsFractional(order: seq<Slot>, shortfall: int)
    requires Ascending(order, ByRemainder())
    requires Sum(order, RestOf()) == shortfall as real
    ensures 0 <= shortfall <= |order|
    ensures forall k :: 0 <= k < shortfall ==> order[k].Rest() > 0.0
  {
    SumBounds(order, RestOf(), 0.0, 1.0);
    forall k | 0 <= k < shortfall ensures order[k].Rest() > 0.0 {
      if order[k].Rest() <= 0.0 {
        RestsEnd(order, k);
      }
    }
  }

  lemma ShortfallFacts(weights: map<int, real>, total: int)
    requires Mass(weights) > 0.0
    ensures var slots := Slots(weights, total); var n := Shortfall(slots, total);
      && 0 <= n <= |slots|
      && (forall k :: 0 <= k < n ==> Order(slots)[k].Rest() > 0.0)
  {
    var slots := Slots(weights, total);
    ByRemainderOrders();
    SortAscends(slots, ByRemainder());
    QuotasSumToTotal(weights, total);
    WholeAndRest(slots);
    SumPermuted(Order(slots), slots, RestOf());
    HeadIsFractional(Order(slots), Shortfall(slots, total));
  }

  // ---------------------------------------------------------------- the values

  predicate ToppedUp(slots: seq<Slot>, total: int, slot: Slot) {
    var n := Shortfall(slots, total);
    0 <= n <= |slots| && slot in Order(slots)[..n]
  }

  function Rounded(slots: seq<Slot>, total: int, slot: Slot): int {
    slot.Whole() + if ToppedUp(slots, total, slot) then 1 else 0
  }

  function Values(slots: seq<Slot>, total: int): (values: seq<int>)
    ensures |values| == |slots| && forall i :: 0 <= i < |slots| ==> values[i] == Rounded(slots, total, slots[i])
  {
    seq(|slots|, i requires 0 <= i < |slots| => Rounded(slots, total, slots[i]))
  }

  /** The entries above zero. */
  function KeptUids(slots: seq<Slot>, values: seq<int>): seq<int>
    requires |slots| == |values|
  {
    if |slots| == 0 then []
    else if values[0] > 0 then [slots[0].uid] + KeptUids(slots[1..], values[1..])
    else KeptUids(slots[1..], values[1..])
  }

  function KeptValues(values: seq<int>): seq<int> {
    if |values| == 0 then []
    else if values[0] > 0 then [values[0]] + KeptValues(values[1..])
    else KeptValues(values[1..])
  }

  function Quantised(weights: map<int, real>, total: int): Result<WeightVector> {
    if Positive(weights) == {} || total <= 0 then
      Vector([], [])
    else
      MassPositive(weights);
      var slots := Slots(weights, total);
      var values := Values(slots, total);
      Vector(KeptUids(slots, values), KeptValues(values))
  }

  // ---------------------------------------------------------------- the loop

  method TopUp(slots: seq<Slot>, order: seq<Slot>, floors: array<int>)
    requires floors.Length == |slots| && |order| <= |slots|
    requires forall i :: 0 <= i < |slots| ==> slots[i].index == i && floors[i] == slots[i].Whole()
    requires Distinct(order) && forall k :: 0 <= k < |order| ==> order[k] in slots
    modifies floors
    ensures forall i :: 0 <= i < |slots| ==> floors[i] == slots[i].Whole() + if slots[i] in order then 1 else 0
  {
    var k := 0;
    while k < |order|
      invariant 0 <= k <= |order|
      invariant forall i :: 0 <= i < |slots| ==>
        floors[i] == slots[i].Whole() + if slots[i] in order[..k] then 1 else 0
    {
      var slot := order[k];
      assert slot in slots && slots[slot.index] == slot;
      assert slot !in order[..k] && order[..k + 1] == order[..k] + [slot];
      floors[slot.index] := floors[slot.index] + 1;
      k := k + 1;
    }
    assert order[..k] == order;
  }

  method KeepPositive(slots: seq<Slot>, values: seq<int>) returns (uids: seq<int>, kept: seq<int>)
    requires |slots| == |values|
    ensures uids == KeptUids(slots, values) && kept == KeptValues(values)
  {
    uids, kept := [], [];
    var i := |slots|;
    while i > 0
      invariant 0 <= i <= |slots|
      invariant uids == KeptUids(slots[i..], values[i..]) && kept == KeptValues(values[i..])
    {
      i := i - 1;
      assert slots[i..][1..] == slots[i + 1..] && values[i..][1..] == values[i + 1..];
      if values[i] > 0 {
        uids, kept := [slots[i].uid] + uids, [values[i]] + kept;
      }
    }
    assert slots[0..] == slots && values[0..] == values;
  }

  lemma OrderDistinct(weights: map<int, real>, total: int)
    requires Mass(weights) > 0.0
    ensures var slots := Slots(weights, total);
      Distinct(Order(slots)) && forall k :: 0 <= k < |slots| ==> Order(slots)[k] in slots
  {
    var slots := Slots(weights, total);
    var order := Order(slots);
    forall k | 0 <= k < |slots| ensures order[k] in slots {
      SameMembers(order, slots, order[k]);
    }
    PermutationDistinct(slots, order);
  }

  lemma {:induction false} PermutationDistinct(s: seq<Slot>, t: seq<Slot>)
    requires multiset(s) == multiset(t) && Distinct(s)
    ensures Distinct(t)
  {
    if exists i, j :: 0 <= i < j < |t| && t[i] == t[j] {
      var i, j :| 0 <= i < j < |t| && t[i] == t[j];
      assert t == t[..j] + [t[j]] + t[j + 1..] && t[i] in t[..j];
      assert multiset(t)[t[i]] >= 2;
      DistinctOnce(s, t[i]);
    }
  }

  lemma {:induction false} DistinctOnce(s: seq<Slot>, x: Slot)
    requires Distinct(s)
    ensures multiset(s)[x] <= 1
  {
    if |s| > 0 {
      assert s == [s[0]] + s[1..];
      DistinctOnce(s[1..], x);
    }
  }

  method Floors(slots: seq<Slot>) returns (floors: array<int>)
    ensures fresh(floors) && floors.Length == |slots|
    ensures forall i :: 0 <= i < |slots| ==> floors[i] == slots[i].Whole()
  {
    floors := new int[|slots|](i requires 0 <= i < |slots| => slots[i].Whole());
  }

  method Quantise(weights: map<int, real>, total: int) returns (r: Result<WeightVector>)
    ensures r == Quantised(weights, total)
  {
    if Positive(weights) == {} || total <= 0 {
      return Vector([], []);
    }
    MassPositive(weights);
    var slots := Slots(weights, total);
    var floors := Floors(slots);
    var shortfall := Shortfall(slots, total);
    ShortfallFacts(weights, total);
    OrderDistinct(weights, total);
    TopUp(slots, Order(slots)[..shortfall], floors);
    forall i | 0 <= i < |slots| ensures floors[i] == Values(slots, total)[i] {
      assert ToppedUp(slots, total, slots[i]) <==> slots[i] in Order(slots)[..shortfall];
    }
    assert floors[..] == Values(slots, total);
    var uids, kept := KeepPositive(slots, floors[..]);
    r := Vector(uids, kept);
  }

  // ---------------------------------------------------------------- what the rounding guarantees

  /** The weight a uid ends up with on chain. */
  ghost function Given(uids: seq<int>, values: seq<int>, uid: int): int
    requires |uids| == |values|
  {
    if |uids| == 0 then 0
    else if uids[0] == uid then values[0]
    else Given(uids[1..], values[1..], uid)
  }

  function Membership(head: seq<Slot>): Slot -> real {
    (s: Slot) => if s in head then 1.0 else 0.0
  }

  lemma {:induction false} RoundedTotal(slots: seq<Slot>, head: seq<Slot>, values: seq<int>)
    requires |values| == |slots|
    requires forall i :: 0 <= i < |slots| ==> values[i] == slots[i].Whole() + if slots[i] in head then 1 else 0
    ensures Total(values) as real == WholeSum(slots) as real + Sum(slots, Membership(head))
  {
    if |slots| > 0 {
      RoundedTotal(slots[1..], head, values[1..]);
    }
  }

  lemma {:induction false} AllMembers(s: seq<Slot>, head: seq<Slot>)
    requires forall x :: x in s ==> x in head
    ensures Sum(s, Membership(head)) == |s| as real
  {
    if |s| > 0 {
      AllMembers(s[1..], head);
      assert s[0] in s;
    }
  }

  lemma {:induction false} NoMembers(s: seq<Slot>, head: seq<Slot>)
    requires forall x :: x in s ==> x !in head
    ensures Sum(s, Membership(head)) == 0.0
  {
    if |s| > 0 {
      NoMembers(s[1..], head);
      assert s[0] in s;
    }
  }

  lemma HeadApart(order: seq<Slot>, n: nat)
    requires Distinct(order) && n <= |order|
    ensures forall x :: x in order[n..] ==> x !in order[..n]
  {
    forall x | x in order[n..] ensures x !in order[..n] {
      var j :| 0 <= j < |order[n..]| && order[n..][j] == x;
      assert order[n + j] == x;
    }
  }

  lemma HeadCount(order: seq<Slot>, n: nat)
    requires Distinct(order) && n <= |order|
    ensures Sum(order, Membership(order[..n])) == n as real
  {
    var head, tail := order[..n], order[n..];
    HeadApart(order, n);
    AllMembers(head, head);
    NoMembers(tail, head);
    SumAppend(head, tail, Membership(head));
    assert order == head + tail;
  }

  lemma ValuesTotal(slots: seq<Slot>, total: int)
    requires 0 <= Shortfall(slots, total) <= |slots| && Distinct(Order(slots))
    ensures Total(Values(slots, total)) == total
  {
    var n, order := Shortfall(slots, total), Order(slots);
    RoundedTotal(slots, order[..n], Values(slots, total));
    HeadCount(order, n);
    SumPermuted(order, slots, Membership(order[..n]));
  }

  /** The values add up to the total asked for. */
  lemma ValuesSumToTotal(weights: map<int, real>, total: int)
    requires Mass(weights) > 0.0
    ensures Total(Values(Slots(weights, total), total)) == total
  {
    ShortfallFacts(weights, total);
    OrderDistinct(weights, total);
    ValuesTotal(Slots(weights, total), total);
  }

  /** Each value is the floor or the ceiling of the exact quota. */
  lemma FloorOrCeiling(weights: map<int, real>, total: int, slot: Slot)
    requires Mass(weights) > 0.0 && slot in Slots(weights, total)
    ensures var v := Rounded(Slots(weights, total), total, slot);
      slot.exact - 1.0 < v as real < slot.exact + 1.0
  {
    var slots := Slots(weights, total);
    if ToppedUp(slots, total, slot) {
      ShortfallFacts(weights, total);
      var n := Shortfall(slots, total);
      var k :| 0 <= k < n && Order(slots)[..n][k] == slot;
      assert Order(slots)[k].Rest() > 0.0;
    }
  }

  lemma RanksBefore(order: seq<Slot>, i: nat, j: nat)
    requires i < |order| && j < |order|
    requires Ascending(order, ByRemainder()) && !ByRemainder()(order[j], order[i])
    ensures i < j
  {
  }

  /** A larger quota, or an equal one at a lower uid, never gets less. */
  lemma NeverOvertaken(slots: seq<Slot>, total: int, a: Slot, b: Slot)
    requires a in slots && b in slots
    requires a.exact > b.exact || (a.exact == b.exact && a.uid < b.uid)
    ensures Rounded(slots, total, a) >= Rounded(slots, total, b)
  {
    if a.Whole() == b.Whole() && ToppedUp(slots, total, b) {
      var order, n := Order(slots), Shortfall(slots, total);
      ByRemainderOrders();
      SortAscends(slots, ByRemainder());
      SameMembers(order, slots, a);
      var i :| 0 <= i < |order| && order[i] == a;
      var j :| 0 <= j < n && order[..n][j] == b;
      RanksBefore(order, i, j);
      assert order[..n][i] == a;
    }
  }

  lemma {:induction false} KeptTotal(values: seq<int>)
    requires forall i :: 0 <= i < |values| ==> values[i] >= 0
    ensures Total(KeptValues(values)) == Total(values)
    ensures forall i :: 0 <= i < |KeptValues(values)| ==> 0 < KeptValues(values)[i] <= Total(values)
    ensures Total(values) >= 0
  {
    if |values| > 0 {
      KeptTotal(values[1..]);
      var rest, kept := KeptValues(values[1..]), KeptValues(values);
      if values[0] > 0 {
        assert kept[1..] == rest;
        assert forall i :: 0 < i < |kept| ==> kept[i] == rest[i - 1];
      }
    }
  }

  ghost predicate Rising(slots: seq<Slot>) {
    forall i, j :: 0 <= i < j < |slots| ==> slots[i].uid < slots[j].uid
  }

  ghost predicate FromSlots(uids: seq<int>, slots: seq<Slot>) {
    forall k :: 0 <= k < |uids| ==> exists i :: 0 <= i < |slots| && slots[i].uid == uids[k]
  }

  lemma {:induction false} KeptFromSlots(slots: seq<Slot>, values: seq<int>)
    requires |slots| == |values|
    ensures |KeptUids(slots, values)| == |KeptValues(values)|
    ensures FromSlots(KeptUids(slots, values), slots)
  {
    if |slots| > 0 {
      KeptFromSlots(slots[1..], values[1..]);
      var rest, kept := KeptUids(slots[1..], values[1..]), KeptUids(slots, values);
      forall k | 0 <= k < |kept| ensures exists i :: 0 <= i < |slots| && slots[i].uid == kept[k] {
        if values[0] > 0 && k == 0 {
          assert slots[0].uid == kept[0];
        } else {
          var at := if values[0] > 0 then k - 1 else k;
          assert kept[k] == rest[at];
          var i :| 0 <= i < |slots[1..]| && slots[1..][i].uid == rest[at];
          assert slots[i + 1].uid == rest[at];
        }
      }
    }
  }

  lemma {:induction false} KeptDistinct(slots: seq<Slot>, values: seq<int>)
    requires |slots| == |values| && Rising(slots)
    ensures Distinct(KeptUids(slots, values))
  {
    if |slots| > 0 {
      KeptDistinct(slots[1..], values[1..]);
      KeptFromSlots(slots[1..], values[1..]);
      var rest := KeptUids(slots[1..], values[1..]);
      forall k | 0 <= k < |rest| ensures rest[k] != slots[0].uid {
        var i :| 0 <= i < |slots[1..]| && slots[1..][i].uid == rest[k];
        assert slots[0].uid < slots[i + 1].uid;
      }
    }
  }

  /** Leaving out the zeros changes nobody's weight. */
  lemma {:induction false} KeptGiven(slots: seq<Slot>, values: seq<int>, i: nat)
    requires |slots| == |values| && Rising(slots) && i < |slots|
    requires forall k :: 0 <= k < |values| ==> values[k] >= 0
    ensures |KeptUids(slots, values)| == |KeptValues(values)|
    ensures Given(KeptUids(slots, values), KeptValues(values), slots[i].uid) == values[i]
  {
    KeptFromSlots(slots, values);
    KeptFromSlots(slots[1..], values[1..]);
    var rest, kept := KeptUids(slots[1..], values[1..]), KeptUids(slots, values);
    if i > 0 {
      KeptGiven(slots[1..], values[1..], i - 1);
      assert slots[0].uid != slots[i].uid;
      assert values[0] > 0 ==> kept[1..] == rest && KeptValues(values)[1..] == KeptValues(values[1..]);
    } else if values[0] == 0 {
      forall k | 0 <= k < |rest| ensures rest[k] != slots[0].uid {
        var j :| 0 <= j < |slots[1..]| && slots[1..][j].uid == rest[k];
        assert slots[0].uid < slots[j + 1].uid;
      }
      GivenAbsent(rest, KeptValues(values[1..]), slots[0].uid);
    }
  }

  lemma {:induction false} GivenAbsent(uids: seq<int>, values: seq<int>, uid: int)
    requires |uids| == |values|
    requires forall k :: 0 <= k < |uids| ==> uids[k] != uid
    ensures Given(uids, values, uid) == 0
  {
    if |uids| > 0 {
      GivenAbsent(uids[1..], values[1..], uid);
    }
  }

  lemma QuotaNonNegative(w: real, mass: real, total: real)
    requires w >= 0.0 && mass > 0.0 && total >= 0.0
    ensures Quota(w, mass, total) >= 0.0
  {
    var q := w / mass;
    assert q * mass == w;
    assert q >= 0.0;
  }

  /** Quotas keep the order of the weights. */
  lemma QuotaMonotone(v: real, w: real, mass: real, total: real)
    requires mass > 0.0 && total > 0.0
    ensures v > w ==> Quota(v, mass, total) > Quota(w, mass, total)
  {
    var q, r := v / mass, w / mass;
    assert q * mass == v && r * mass == w;
    if v > w {
      assert q > r;
      assert (q - r) * total > 0.0;
    }
  }

  lemma SlotNonNegative(weights: map<int, real>, total: int, i: nat)
    requires Mass(weights) > 0.0 && total > 0 && i < |Uids(weights)|
    ensures Slots(weights, total)[i].exact >= 0.0
  {
    assert Uids(weights)[i] in Positive(weights);
    QuotaNonNegative(WeightOf(weights)(Uids(weights)[i]), Mass(weights), total as real);
  }

  lemma ValuesNonNegative(weights: map<int, real>, total: int)
    requires Mass(weights) > 0.0 && total > 0
    ensures forall i :: 0 <= i < |Uids(weights)| ==> Values(Slots(weights, total), total)[i] >= 0
  {
    var slots := Slots(weights, total);
    forall i | 0 <= i < |slots| ensures Values(slots, total)[i] >= 0 {
      SlotNonNegative(weights, total, i);
      assert slots[i].Whole() >= 0;
    }
  }

  /** What is kept has a value above zero, and the other way round. */
  lemma {:induction false} KeptFrom(slots: seq<Slot>, values: seq<int>, k: nat) returns (i: nat)
    requires |slots| == |values| && k < |KeptUids(slots, values)|
    ensures |KeptUids(slots, values)| == |KeptValues(values)|
    ensures i < |slots| && values[i] > 0 && slots[i].uid == KeptUids(slots, values)[k]
      && values[i] == KeptValues(values)[k]
  {
    if values[0] > 0 && k == 0 {
      KeptFromSlots(slots, values);
      i := 0;
    } else {
      i := KeptFrom(slots[1..], values[1..], if values[0] > 0 then k - 1 else k);
      i := i + 1;
    }
  }

  lemma {:induction false} KeptTo(slots: seq<Slot>, values: seq<int>, i: nat) returns (k: nat)
    requires |slots| == |values| && i < |slots| && values[i] > 0
    ensures |KeptUids(slots, values)| == |KeptValues(values)|
    ensures k < |KeptUids(slots, values)| && KeptUids(slots, values)[k] == slots[i].uid
      && KeptValues(values)[k] == values[i]
  {
    if i == 0 {
      KeptFromSlots(slots, values);
      k := 0;
    } else {
      k := KeptTo(slots[1..], values[1..], i - 1);
      if values[0] > 0 {
        k := k + 1;
      }
    }
  }

  /** No uid below zero is left with a value, and no value is too wide for the chain. */
  ghost predicate Fits(slots: seq<Slot>, values: seq<int>)
    requires |slots| == |values|
  {
    forall i :: 0 <= i < |values| ==> (slots[i].uid < 0 ==> values[i] == 0) && values[i] <= U16_MAX
  }

  lemma FitsIsWellformed(slots: seq<Slot>, values: seq<int>)
    requires |slots| == |values| && Rising(slots) && Fits(slots, values)
    ensures Wellformed(WeightVector(KeptUids(slots, values), KeptValues(values)))
  {
    KeptFromSlots(slots, values);
    KeptDistinct(slots, values);
    var uids, kept := KeptUids(slots, values), KeptValues(values);
    forall k | 0 <= k < |uids| ensures uids[k] >= 0 && 0 <= kept[k] <= U16_MAX {
      var i := KeptFrom(slots, values, k);
    }
  }

  lemma WellformedFits(slots: seq<Slot>, values: seq<int>)
    requires |slots| == |values| && forall i :: 0 <= i < |values| ==> values[i] >= 0
    requires Wellformed(WeightVector(KeptUids(slots, values), KeptValues(values)))
    ensures Fits(slots, values)
  {
    forall i | 0 <= i < |values| ensures (slots[i].uid < 0 ==> values[i] == 0) && values[i] <= U16_MAX {
      if values[i] > 0 {
        var k := KeptTo(slots, values, i);
        assert WeightVector(KeptUids(slots, values), KeptValues(values)).uids[k] == slots[i].uid;
      }
    }
  }

  function ValuesFor(weights: map<int, real>, total: int): seq<int>
    requires Mass(weights) > 0.0
  {
    Values(Slots(weights, total), total)
  }

  /**
   * Exactly when the vector is built: when no uid below zero is left with a value and every value fits in 16 bits. Then
   * it adds up to the total.
   */
  lemma VectorBuilt(weights: map<int, real>, total: int)
    requires total > 0 && exists uid :: uid in weights && weights[uid] > 0.0
    ensures Mass(weights) == MassAbove(weights) > 0.0
      && (Quantised(weights, total).Ok? <==> Fits(Slots(weights, total), ValuesFor(weights, total)))
    ensures Quantised(weights, total).Ok? ==> Total(Quantised(weights, total).value.values) == total
  {
    MassExactly(weights);
    MassPositive(weights);
    var slots := Slots(weights, total);
    var values := Values(slots, total);
    ValuesNonNegative(weights, total);
    ValuesSumToTotal(weights, total);
    KeptTotal(values);
    if Fits(slots, values) {
      FitsIsWellformed(slots, values);
    }
    if Wellformed(WeightVector(KeptUids(slots, values), KeptValues(values))) {
      WellformedFits(slots, values);
    }
  }

  lemma SmallTotalFits(slots: seq<Slot>, values: seq<int>)
    requires |slots| == |values| && forall i :: 0 <= i < |values| ==> values[i] >= 0
    requires Total(values) <= U16_MAX && forall i :: 0 <= i < |slots| ==> slots[i].uid >= 0
    ensures Fits(slots, values)
  {
    KeptTotal(values);
    forall i | 0 <= i < |values| ensures values[i] <= U16_MAX {
      if values[i] > 0 {
        var k := KeptTo(slots, values, i);
      }
    }
  }

  /** Uids that are not negative, and a total of 16 bits, always fit. */
  lemma OrdinaryFits(weights: map<int, real>, total: int)
    requires 0 < total <= 65535 && exists uid :: uid in weights && weights[uid] > 0.0
    requires forall uid :: uid in weights && weights[uid] > 0.0 ==> uid >= 0
    ensures Quantised(weights, total).Ok?
  {
    VectorBuilt(weights, total);
    var slots := Slots(weights, total);
    ValuesNonNegative(weights, total);
    ValuesSumToTotal(weights, total);
    forall i | 0 <= i < |slots| ensures slots[i].uid >= 0 {
      assert Uids(weights)[i] in Positive(weights);
    }
    SmallTotalFits(slots, Values(slots, total));
  }

  /** Where a uid of positive weight finds its value. */
  lemma GivenIsRounded(weights: map<int, real>, total: int, uid: int) returns (slot: Slot)
    requires total > 0 && uid in weights && weights[uid] > 0.0 && Quantised(weights, total).Ok?
    ensures Mass(weights) == MassAbove(weights) > 0.0 && slot in Slots(weights, total) && slot.uid == uid
    ensures slot.exact == Quota(weights[uid], MassAbove(weights), total as real)
    ensures var v := Quantised(weights, total).value;
      |v.uids| == |v.values| && Given(v.uids, v.values, uid) == Rounded(Slots(weights, total), total, slot)
  {
    assert uid in Positive(weights);
    MassPositive(weights);
    MassExactly(weights);
    ValuesNonNegative(weights, total);
    var slots := Slots(weights, total);
    assert uid in Uids(weights);
    var i :| 0 <= i < |slots| && Uids(weights)[i] == uid;
    slot := slots[i];
    KeptGiven(slots, Values(slots, total), i);
  }

  /**
   * On chain every uid with a weight above zero stays within one unit of its part of the total, the part its weight is
   * of all the weights above zero.
   */
  lemma WithinOneUnit(weights: map<int, real>, total: int, uid: int)
    requires total > 0 && uid in weights && weights[uid] > 0.0 && Quantised(weights, total).Ok?
    ensures MassAbove(weights) > 0.0
    ensures var v := Quantised(weights, total).value;
      |v.uids| == |v.values| &&
      var quota := Quota(weights[uid], MassAbove(weights), total as real);
      quota - 1.0 < Given(v.uids, v.values, uid) as real < quota + 1.0
  {
    var slot := GivenIsRounded(weights, total, uid);
    FloorOrCeiling(weights, total, slot);
  }

  /** On chain nobody is overtaken by a smaller weight, and a tie favours the lower uid. */
  lemma OrderKept(weights: map<int, real>, total: int, a: int, b: int)
    requires total > 0 && Quantised(weights, total).Ok?
    requires a in weights && weights[a] > 0.0 && b in weights && weights[b] > 0.0
    requires weights[a] > weights[b] || (weights[a] == weights[b] && a < b)
    ensures var v := Quantised(weights, total).value;
      |v.uids| == |v.values| && Given(v.uids, v.values, a) >= Given(v.uids, v.values, b)
  {
    var slotA := GivenIsRounded(weights, total, a);
    var slotB := GivenIsRounded(weights, total, b);
    QuotaMonotone(weights[a], weights[b], MassAbove(weights), total as real);
    NeverOvertaken(Slots(weights, total), total, slotA, slotB);
  }

  /** What is left of a number behind the point. */
  function Fraction(x: real): real {
    x - x.Floor as real
  }

  lemma TopUpByRest(slots: seq<Slot>, total: int, a: Slot, b: Slot)
    requires a in slots && b in slots && ToppedUp(slots, total, a) && !ToppedUp(slots, total, b)
    ensures a.Rest() > b.Rest() || (a.Rest() == b.Rest() && a.uid <= b.uid)
  {
    var order, n := Order(slots), Shortfall(slots, total);
    ByRemainderOrders();
    SortAscends(slots, ByRemainder());
    SameMembers(order, slots, b);
    forall j | 0 <= j < n ensures order[j] in order[..n] {
      assert order[..n][j] == order[j];
    }
    var j :| 0 <= j < |order| && order[j] == b;
    var i :| 0 <= i < n && order[..n][i] == a;
    assert order[i] == a && n <= j;
    assert ByRemainder()(order[i], order[j]);
  }

  /** The units that rounding down leaves go to the largest fractions, and on a tie to the lower uids. */
  lemma LargestFractionsFirst(weights: map<int, real>, total: int, a: int, b: int)
    requires total > 0 && Quantised(weights, total).Ok?
    requires a in weights && weights[a] > 0.0 && b in weights && weights[b] > 0.0
    ensures MassAbove(weights) > 0.0
    ensures var v := Quantised(weights, total).value;
      var quotaA := Quota(weights[a], MassAbove(weights), total as real);
      var quotaB := Quota(weights[b], MassAbove(weights), total as real);
      |v.uids| == |v.values| &&
      (Given(v.uids, v.values, a) > quotaA.Floor && Given(v.uids, v.values, b) <= quotaB.Floor ==>
        Fraction(quotaA) > Fraction(quotaB) || (Fraction(quotaA) == Fraction(quotaB) && a < b))
  {
    var slotA := GivenIsRounded(weights, total, a);
    var slotB := GivenIsRounded(weights, total, b);
    var slots := Slots(weights, total);
    if ToppedUp(slots, total, slotA) && !ToppedUp(slots, total, slotB) {
      TopUpByRest(slots, total, slotA, slotB);
    }
  }

  lemma {:induction false} KeptRising(slots: seq<Slot>, values: seq<int>)
    requires |slots| == |values| && Rising(slots)
    ensures var kept := KeptUids(slots, values); forall i, j :: 0 <= i < j < |kept| ==> kept[i] < kept[j]
    ensures forall k :: 0 <= k < |KeptValues(values)| ==> KeptValues(values)[k] > 0
  {
    if |slots| > 0 {
      KeptRising(slots[1..], values[1..]);
      KeptFromSlots(slots[1..], values[1..]);
      var rest := KeptUids(slots[1..], values[1..]);
      forall k | 0 <= k < |rest| ensures slots[0].uid < rest[k] {
        var i :| 0 <= i < |slots[1..]| && slots[1..][i].uid == rest[k];
        assert slots[0].uid < slots[i + 1].uid;
      }
    }
  }

  /**
   * What is on chain, apart from how it is rounded: uids in ascending order, each with a weight above zero and a value
   * above zero; nothing at all exactly if no weight is above zero or nothing is to be given, and otherwise values that
   * come to the total.
   */
  lemma VectorExactly(weights: map<int, real>, total: int)
    requires Quantised(weights, total).Ok?
    ensures var v := Quantised(weights, total).value;
      && |v.uids| == |v.values|
      && (forall i, j :: 0 <= i < j < |v.uids| ==> v.uids[i] < v.uids[j])
      && (forall i :: 0 <= i < |v.uids| ==> v.values[i] > 0 && v.uids[i] in weights && weights[v.uids[i]] > 0.0)
      && (v.uids == [] <==> total <= 0 || forall uid :: uid in weights ==> weights[uid] <= 0.0)
      && (v.uids != [] ==> Total(v.values) == total)
  {
    MassExactly(weights);
    if Positive(weights) != {} && total > 0 {
      VectorBuilt(weights, total);
      var slots := Slots(weights, total);
      var values := Values(slots, total);
      KeptRising(slots, values);
      var v := Quantised(weights, total).value;
      forall k | 0 <= k < |v.uids| ensures v.uids[k] in weights && weights[v.uids[k]] > 0.0 {
        var i := KeptFrom(slots, values, k);
        assert Uids(weights)[i] in Positive(weights);
      }
      assert v.uids == [] ==> v.values == [] && Total(v.values) == 0;
    }
  }

  /** With nothing to give, or to nobody, the vector is always built. */
  lemma NothingGiven(weights: map<int, real>, total: int)
    requires total <= 0 || forall uid :: uid in weights ==> weights[uid] <= 0.0
    ensures Quantised(weights, total) == Ok(WeightVector([], []))
  {
    MassExactly(weights);
  }
}
