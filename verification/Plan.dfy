/** The GPU planner: a greedy divisor method with a margin in favour of what is already held. */
module Planner {
  import opened Prelude
  import opened Reals
  import Strings

  const KEEP_MARGIN: real := 1.5

  /**
   * A catalogue row; wanted is the demand the network publishes, general tells a plain model from a certified system.
   */
  datatype Offer = Offer(
    model: string, digest: string, wanted: real, cold: bool, vramGb: real, servable: bool, general: bool,
    concurrency: int, arena: string, family: string, engine: string, hardwareClass: string)

  datatype Pair = Pair(model: string, digest: string)

  /** What the loop knows when it reaches one GPU. */
  datatype Spot = Spot(current: Option<Pair>, wish: string, counts: map<string, nat>)

  function Count(counts: map<string, nat>, model: string): nat {
    if model in counts then counts[model] else 0
  }

  predicate Keeps(spot: Spot, offer: Offer) {
    spot.current.Some? && spot.current.value.model == offer.model
  }

  function Share(wanted: real, copies: nat): real
    requires copies > 0
  {
    wanted / copies as real
  }

  /** Demand divided by one more copy than is already placed. */
  function Discounted(spot: Spot, offer: Offer): real {
    Share(offer.wanted, Count(spot.counts, offer.model) + 1)
  }

  function Score(spot: Spot, offer: Offer): real {
    Discounted(spot, offer) * if Keeps(spot, offer) then KEEP_MARGIN else 1.0
  }

  predicate Wished(spot: Spot, offer: Offer) {
    spot.wish != "" && offer.model == spot.wish
  }

  // ---------------------------------------------------------------- the sort key

  /** The key tuple of one offer. */
  datatype Key = Key(wished: nat, negScore: real, kept: nat, cold: nat, vram: real, model: string)

  function KeyOf(spot: Spot, offer: Offer): Key {
    Key(if Wished(spot, offer) then 0 else 1,
        -Score(spot, offer),
        if Keeps(spot, offer) then 0 else 1,
        if offer.cold then 0 else 1,
        offer.vramGb,
        offer.model)
  }

  /** Lexicographic <= on keys. */
  predicate KeyLe(a: Key, b: Key) {
    || a.wished < b.wished
    || (a.wished == b.wished &&
        (|| a.negScore < b.negScore
         || (a.negScore == b.negScore &&
             (|| a.kept < b.kept
              || (a.kept == b.kept &&
                  (|| a.cold < b.cold
                   || (a.cold == b.cold &&
                       (|| a.vram < b.vram
                        || (a.vram == b.vram && Strings.Le(a.model, b.model))))))))))
  }

  lemma KeyLeOrders()
    ensures forall a, b :: KeyLe(a, b) || KeyLe(b, a)
    ensures forall a, b, c :: KeyLe(a, b) && KeyLe(b, c) ==> KeyLe(a, c)
  {
    Strings.LeOrdering();
  }

  /** Ahead in the eyes of min(): a strictly smaller key. */
  predicate Ahead(spot: Spot, a: Offer, b: Offer) {
    !KeyLe(KeyOf(spot, b), KeyOf(spot, a))
  }

  /** min(usable, key=key): the first offer none is ahead of. */
  function First(spot: Spot, usable: seq<Offer>): (i: nat)
    requires |usable| > 0
    ensures i < |usable|
    ensures forall j :: 0 <= j < |usable| ==> KeyLe(KeyOf(spot, usable[i]), KeyOf(spot, usable[j]))
    ensures forall j :: 0 <= j < i ==> Ahead(spot, usable[i], usable[j])
  {
    KeyLeOrders();
    if |usable| == 1 then 0
    else
      var rest := First(spot, usable[1..]);
      assert usable[1..][rest] == usable[rest + 1];
      assert forall j :: 1 <= j < |usable| ==> usable[j] == usable[1..][j - 1];
      if KeyLe(KeyOf(spot, usable[0]), KeyOf(spot, usable[rest + 1])) then 0 else rest + 1
  }

  function Choose(spot: Spot, usable: seq<Offer>): Offer
    requires |usable| > 0
  {
    usable[First(spot, usable)]
  }

  method MinByKey(spot: Spot, usable: seq<Offer>) returns (chosen: Offer)
    requires |usable| > 0
    ensures chosen == Choose(spot, usable)
  {
    var best := 0;
    var i := 1;
    KeyLeOrders();
    while i < |usable|
      invariant 1 <= i <= |usable| && 0 <= best < i
      invariant forall j :: 0 <= j < i ==> KeyLe(KeyOf(spot, usable[best]), KeyOf(spot, usable[j]))
      invariant forall j :: 0 <= j < best ==> Ahead(spot, usable[best], usable[j])
    {
      if Ahead(spot, usable[i], usable[best]) {
        best := i;
      }
      i := i + 1;
    }
    chosen := usable[best];
    FirstIsUnique(spot, usable, best);
  }

  lemma FirstIsUnique(spot: Spot, usable: seq<Offer>, best: nat)
    requires best < |usable|
    requires forall j :: 0 <= j < |usable| ==> KeyLe(KeyOf(spot, usable[best]), KeyOf(spot, usable[j]))
    requires forall j :: 0 <= j < best ==> Ahead(spot, usable[best], usable[j])
    ensures best == First(spot, usable)
  {
    var first := First(spot, usable);
    assert KeyLe(KeyOf(spot, usable[best]), KeyOf(spot, usable[first]));
    assert KeyLe(KeyOf(spot, usable[first]), KeyOf(spot, usable[best]));
  }

  // ---------------------------------------------------------------- assign

  type Held = map<string, Pair>

  function SpotFor(gpu: string, held: Held, preferred: map<string, string>, counts: map<string, nat>): Spot {
    Spot(if gpu in held then Some(held[gpu]) else None,
         if gpu in preferred then preferred[gpu] else "",
         counts)
  }

  function Tally(counts: map<string, nat>, model: string): map<string, nat> {
    counts[model := Count(counts, model) + 1]
  }

  /** The offers placed on the GPUs in turn, from given running counts. */
  function Choices(usable: seq<Offer>, gpus: seq<string>, held: Held, preferred: map<string, string>,
                   counts: map<string, nat>): (chosen: seq<Offer>)
    requires |usable| > 0
    ensures |chosen| == |gpus|
    decreases |gpus|
  {
    if |gpus| == 0 then [] else
      var offer := Choose(SpotFor(gpus[0], held, preferred, counts), usable);
      [offer] + Choices(usable, gpus[1..], held, preferred, Tally(counts, offer.model))
  }

  function CountsAfter(counts: map<string, nat>, chosen: seq<Offer>): map<string, nat>
    decreases |chosen|
  {
    if |chosen| == 0 then counts else CountsAfter(Tally(counts, chosen[0].model), chosen[1..])
  }

  /** A dict filled GPU by GPU. */
  function PlaceAll(placed: map<string, Offer>, gpus: seq<string>, chosen: seq<Offer>): map<string, Offer>
    requires |gpus| == |chosen|
    decreases |gpus|
  {
    if |gpus| == 0 then placed else PlaceAll(placed[gpus[0] := chosen[0]], gpus[1..], chosen[1..])
  }

  function Assigned(usable: seq<Offer>, gpus: seq<string>, held: Held,
                    preferred: map<string, string>): map<string, Offer>
  {
    if |usable| == 0 then map[] else PlaceAll(map[], gpus, Choices(usable, gpus, held, preferred, map[]))
  }

  lemma PlaceStep(placed: map<string, Offer>, usable: seq<Offer>, gpus: seq<string>, held: Held,
                  preferred: map<string, string>, counts: map<string, nat>)
    requires |usable| > 0 && |gpus| > 0
    ensures var offer := Choose(SpotFor(gpus[0], held, preferred, counts), usable);
      PlaceAll(placed, gpus, Choices(usable, gpus, held, preferred, counts))
      == PlaceAll(placed[gpus[0] := offer], gpus[1..],
                  Choices(usable, gpus[1..], held, preferred, Tally(counts, offer.model)))
  {
    var offer := Choose(SpotFor(gpus[0], held, preferred, counts), usable);
    var rest := Choices(usable, gpus[1..], held, preferred, Tally(counts, offer.model));
    assert ([offer] + rest)[1..] == rest;
  }

  /** The loop over the GPUs, with its running counts. */
  method Assign(usable: seq<Offer>, gpus: seq<string>, held: Held, preferred: map<string, string>)
    returns (placed: map<string, Offer>)
    ensures placed == Assigned(usable, gpus, held, preferred)
  {
    placed := map[];
    if |usable| == 0 {
      return;
    }
    var counts: map<string, nat> := map[];
    var todo := gpus;
    while |todo| > 0
      invariant PlaceAll(placed, todo, Choices(usable, todo, held, preferred, counts))
        == Assigned(usable, gpus, held, preferred)
      decreases |todo|
    {
      PlaceStep(placed, usable, todo, held, preferred, counts);
      var offer := MinByKey(SpotFor(todo[0], held, preferred, counts), usable);
      placed := placed[todo[0] := offer];
      counts := Tally(counts, offer.model);
      todo := todo[1..];
    }
  }

  // ---------------------------------------------------------------- balance

  lemma MoreCopies(w: real, n: nat, n': nat)
    requires w >= 0.0 && 0 < n <= n'
    ensures 0.0 <= Share(w, n') <= Share(w, n)
  {
    var q, r := Share(w, n), Share(w, n');
    var a, b := n as real, n' as real;
    assert q * a == w && r * b == w;
    QuotientSign(w, b);
    NonNegativeTimes(r, b - a);
    assert r * (b - a) == r * b - r * a;
    FactorOrder(r, q, a);
  }

  ghost predicate Wanted(usable: seq<Offer>) {
    forall b :: b in usable ==> b.wanted >= 0.0
  }

  /** a's demand per copy is at least b's with one copy more, up to the margin. */
  ghost predicate Fair(a: Offer, b: Offer, counts: map<string, nat>, margin: real) {
    && Count(counts, a.model) > 0
    && margin * Share(a.wanted, Count(counts, a.model)) >= Share(b.wanted, Count(counts, b.model) + 1)
  }

  /** No other row of the same model is wanted more. */
  ghost predicate Top(usable: seq<Offer>, a: Offer) {
    a in usable && forall b :: b in usable && b.model == a.model ==> a.wanted >= b.wanted
  }

  ghost predicate Unwished(gpus: seq<string>, preferred: map<string, string>) {
    forall gpu :: gpu in gpus && gpu in preferred ==> preferred[gpu] == ""
  }

  ghost predicate MarginFor(gpus: seq<string>, held: Held, margin: real) {
    margin == KEEP_MARGIN || (margin == 1.0 && forall gpu :: gpu in gpus ==> gpu !in held)
  }

  /** Without a wish the chosen offer has the largest score. */
  lemma ChosenScores(spot: Spot, usable: seq<Offer>, b: Offer)
    requires |usable| > 0 && spot.wish == "" && b in usable
    ensures Score(spot, Choose(spot, usable)) >= Score(spot, b)
  {
    var j :| 0 <= j < |usable| && usable[j] == b;
    assert KeyLe(KeyOf(spot, Choose(spot, usable)), KeyOf(spot, usable[j]));
  }

  lemma ScoreBounds(spot: Spot, b: Offer, margin: real)
    requires b.wanted >= 0.0
    requires margin == KEEP_MARGIN || (margin == 1.0 && spot.current.None?)
    ensures 0.0 <= Discounted(spot, b) <= Score(spot, b) <= margin * Discounted(spot, b)
  {
    MoreCopies(b.wanted, Count(spot.counts, b.model) + 1, Count(spot.counts, b.model) + 1);
  }

  ghost predicate Even(spot: Spot, margin: real) {
    spot.wish == "" && (margin == KEEP_MARGIN || (margin == 1.0 && spot.current.None?))
  }

  lemma ChosenShare(spot: Spot, usable: seq<Offer>, b: Offer, margin: real)
    requires |usable| > 0 && Even(spot, margin) && b in usable && Wanted(usable)
    ensures margin * Discounted(spot, Choose(spot, usable)) >= Discounted(spot, b)
  {
    ChosenScores(spot, usable, b);
    ScoreBounds(spot, Choose(spot, usable), margin);
    ScoreBounds(spot, b, margin);
  }

  lemma ChosenTop(spot: Spot, usable: seq<Offer>)
    requires |usable| > 0 && spot.wish == ""
    ensures Top(usable, Choose(spot, usable))
  {
    var a := Choose(spot, usable);
    forall b | b in usable && b.model == a.model ensures a.wanted >= b.wanted {
      ChosenScores(spot, usable, b);
      assert Discounted(spot, a) >= Discounted(spot, b);
      QuotientOrder(a.wanted, b.wanted, (Count(spot.counts, a.model) + 1) as real);
    }
  }

  lemma ShareChain(v: real, w: real, n: nat, margin: real, x: real, y: real)
    requires n > 0 && margin > 0.0 && v >= w && margin * Share(w, n) >= x >= y
    ensures margin * Share(v, n) >= y
  {
    QuotientOrder(v, w, n as real);
    assert margin * Share(v, n) >= margin * Share(w, n);
  }

  /** The next copy goes to c; it is fair to a row of the same model placed before. */
  lemma FairNow(a: Offer, b: Offer, spot: Spot, usable: seq<Offer>, margin: real)
    requires |usable| > 0 && Even(spot, margin) && Wanted(usable) && b in usable
    requires Top(usable, a) && a.model == Choose(spot, usable).model
    ensures Fair(a, b, Tally(spot.counts, a.model), margin)
  {
    var c := Choose(spot, usable);
    assert c in usable && a.wanted >= c.wanted;
    ChosenShare(spot, usable, b, margin);
    FairStep(a, b, c, spot.counts, margin);
  }

  lemma FairStep(a: Offer, b: Offer, c: Offer, counts: map<string, nat>, margin: real)
    requires margin > 0.0 && b.wanted >= 0.0 && a.model == c.model && a.wanted >= c.wanted
    requires margin * Share(c.wanted, Count(counts, c.model) + 1) >= Share(b.wanted, Count(counts, b.model) + 1)
    ensures Fair(a, b, Tally(counts, a.model), margin)
  {
    var after := Tally(counts, a.model);
    var x, y := Share(b.wanted, Count(counts, b.model) + 1), Share(b.wanted, Count(after, b.model) + 1);
    MoreCopies(b.wanted, Count(counts, b.model) + 1, Count(after, b.model) + 1);
    ShareChain(a.wanted, c.wanted, Count(after, a.model), margin, x, y);
  }

  lemma FairKept(a: Offer, b: Offer, model: string, counts: map<string, nat>, margin: real)
    requires b.wanted >= 0.0 && a.model != model
    requires Fair(a, b, counts, margin)
    ensures Fair(a, b, Tally(counts, model), margin)
  {
    MoreCopies(b.wanted, Count(counts, b.model) + 1, Count(Tally(counts, model), b.model) + 1);
  }

  lemma FirstSpot(gpus: seq<string>, held: Held, preferred: map<string, string>, counts: map<string, nat>, margin: real)
    requires |gpus| > 0 && Unwished(gpus, preferred) && MarginFor(gpus, held, margin)
    ensures Even(SpotFor(gpus[0], held, preferred, counts), margin)
    ensures Unwished(gpus[1..], preferred) && MarginFor(gpus[1..], held, margin)
  {
    assert gpus[0] in gpus;
  }

  lemma {:induction false} StaysFair(usable: seq<Offer>, gpus: seq<string>, held: Held, preferred: map<string, string>,
                                     counts: map<string, nat>, a: Offer, b: Offer, margin: real)
    requires |usable| > 0 && Wanted(usable) && Unwished(gpus, preferred) && MarginFor(gpus, held, margin)
    requires Top(usable, a) && b in usable && Fair(a, b, counts, margin)
    ensures Fair(a, b, CountsAfter(counts, Choices(usable, gpus, held, preferred, counts)), margin)
    decreases |gpus|
  {
    if |gpus| > 0 {
      var spot := SpotFor(gpus[0], held, preferred, counts);
      FirstSpot(gpus, held, preferred, counts, margin);
      var c := Choose(spot, usable);
      if a.model == c.model {
        FairNow(a, b, spot, usable, margin);
      } else {
        FairKept(a, b, c.model, counts, margin);
      }
      StaysFair(usable, gpus[1..], held, preferred, Tally(counts, c.model), a, b, margin);
      CountsStep(usable, gpus, held, preferred, counts);
    }
  }

  lemma CountsCons(counts: map<string, nat>, c: Offer, rest: seq<Offer>)
    ensures CountsAfter(counts, [c] + rest) == CountsAfter(Tally(counts, c.model), rest)
  {
    assert ([c] + rest)[1..] == rest;
  }

  lemma CountsStep(usable: seq<Offer>, gpus: seq<string>, held: Held, preferred: map<string, string>,
                   counts: map<string, nat>)
    requires |usable| > 0 && |gpus| > 0
    ensures var next := Tally(counts, Choose(SpotFor(gpus[0], held, preferred, counts), usable).model);
      CountsAfter(counts, Choices(usable, gpus, held, preferred, counts))
      == CountsAfter(next, Choices(usable, gpus[1..], held, preferred, next))
  {
    var c := Choose(SpotFor(gpus[0], held, preferred, counts), usable);
    CountsCons(counts, c, Choices(usable, gpus[1..], held, preferred, Tally(counts, c.model)));
  }

  lemma {:induction false} BecomesFair(usable: seq<Offer>, gpus: seq<string>, held: Held,
                                       preferred: map<string, string>, counts: map<string, nat>, a: Offer, b: Offer,
                                       margin: real)
    requires |usable| > 0 && Wanted(usable) && Unwished(gpus, preferred) && MarginFor(gpus, held, margin)
    requires a in Choices(usable, gpus, held, preferred, counts) && b in usable
    ensures Fair(a, b, CountsAfter(counts, Choices(usable, gpus, held, preferred, counts)), margin)
    decreases |gpus|
  {
    var spot := SpotFor(gpus[0], held, preferred, counts);
    FirstSpot(gpus, held, preferred, counts, margin);
    var c := Choose(spot, usable);
    var next := Tally(counts, c.model);
    CountsStep(usable, gpus, held, preferred, counts);
    if a == c {
      ChosenTop(spot, usable);
      FairNow(a, b, spot, usable, margin);
      StaysFair(usable, gpus[1..], held, preferred, next, a, b, margin);
    } else {
      BecomesFair(usable, gpus[1..], held, preferred, next, a, b, margin);
    }
  }

  /**
   * The divisor-method optimum: with nothing held and no wishes, the demand per copy of whatever was placed is at least
   * the demand per copy of anything else with one copy more. What is held relaxes this by the margin, never further.
   */
  lemma DivisorOptimal(usable: seq<Offer>, gpus: seq<string>, held: Held, preferred: map<string, string>, a: Offer,
                       b: Offer)
    requires |usable| > 0 && Wanted(usable) && Unwished(gpus, preferred)
    requires a in Choices(usable, gpus, held, preferred, map[]) && b in usable
    ensures var n := CountsAfter(map[], Choices(usable, gpus, held, preferred, map[]));
      && Fair(a, b, n, KEEP_MARGIN)
      && ((forall gpu :: gpu in gpus ==> gpu !in held) ==> Fair(a, b, n, 1.0))
  {
    BecomesFair(usable, gpus, held, preferred, map[], a, b, KEEP_MARGIN);
    if forall gpu :: gpu in gpus ==> gpu !in held {
      BecomesFair(usable, gpus, held, preferred, map[], a, b, 1.0);
    }
  }

  function Holders(placed: map<string, Offer>, model: string): set<string> {
    set gpu | gpu in placed && placed[gpu].model == model
  }

  /** How many GPUs hold a model. */
  function Copies(placed: map<string, Offer>, model: string): nat {
    |Holders(placed, model)|
  }

  lemma CopiesMore(placed: map<string, Offer>, gpu: string, offer: Offer, model: string)
    requires gpu !in placed
    ensures Copies(placed[gpu := offer], model) == Copies(placed, model) + if offer.model == model then 1 else 0
  {
    if offer.model == model {
      assert Holders(placed[gpu := offer], model) == Holders(placed, model) + {gpu};
      assert gpu !in Holders(placed, model);
    } else {
      assert Holders(placed[gpu := offer], model) == Holders(placed, model);
    }
  }

  /** With every GPU listed once, the running counts are those of the assignment. */
  lemma {:induction false} CountsArePlaced(placed: map<string, Offer>, gpus: seq<string>, chosen: seq<Offer>,
                                           counts: map<string, nat>, model: string)
    requires |gpus| == |chosen| && Distinct(gpus) && forall gpu :: gpu in gpus ==> gpu !in placed
    ensures Copies(PlaceAll(placed, gpus, chosen), model) - Copies(placed, model)
      == Count(CountsAfter(counts, chosen), model) - Count(counts, model)
    decreases |gpus|
  {
    if |gpus| > 0 {
      assert gpus[0] in gpus && forall gpu :: gpu in gpus[1..] ==> gpu in gpus;
      CopiesMore(placed, gpus[0], chosen[0], model);
      CountsArePlaced(placed[gpus[0] := chosen[0]], gpus[1..], chosen[1..], Tally(counts, chosen[0].model), model);
    }
  }

  lemma {:induction false} PlacedWasChosen(placed: map<string, Offer>, gpus: seq<string>, chosen: seq<Offer>,
                                           gpu: string)
    requires |gpus| == |chosen| && gpu in PlaceAll(placed, gpus, chosen)
    ensures PlaceAll(placed, gpus, chosen)[gpu] in chosen
      || (gpu in placed && PlaceAll(placed, gpus, chosen)[gpu] == placed[gpu])
    decreases |gpus|
  {
    if |gpus| > 0 {
      PlacedWasChosen(placed[gpus[0] := chosen[0]], gpus[1..], chosen[1..], gpu);
      assert chosen == [chosen[0]] + chosen[1..];
    }
  }

  /** a's demand for each GPU that holds it is at least b's with one GPU more, up to the margin. */
  ghost predicate FairlyPlaced(a: Offer, b: Offer, placed: map<string, Offer>, margin: real) {
    && Copies(placed, a.model) > 0
    && margin * Share(a.wanted, Copies(placed, a.model)) >= Share(b.wanted, Copies(placed, b.model) + 1)
  }

  lemma FairIsPlaced(a: Offer, b: Offer, counts: map<string, nat>, placed: map<string, Offer>, margin: real)
    requires Copies(placed, a.model) == Count(counts, a.model) && Copies(placed, b.model) == Count(counts, b.model)
    requires Fair(a, b, counts, margin)
    ensures FairlyPlaced(a, b, placed, margin)
  {
  }

  /** The same optimum of the assignment itself: counting the GPUs that hold each model, when each is listed once. */
  lemma PlacedOptimal(usable: seq<Offer>, gpus: seq<string>, held: Held, preferred: map<string, string>, gpu: string,
                      b: Offer)
    requires Wanted(usable) && Unwished(gpus, preferred) && Distinct(gpus) && b in usable
    requires gpu in Assigned(usable, gpus, held, preferred)
    ensures var placed := Assigned(usable, gpus, held, preferred);
      && FairlyPlaced(placed[gpu], b, placed, KEEP_MARGIN)
      && ((forall g :: g in gpus ==> g !in held) ==> FairlyPlaced(placed[gpu], b, placed, 1.0))
  {
    var chosen := Choices(usable, gpus, held, preferred, map[]);
    var counts, placed := CountsAfter(map[], chosen), Assigned(usable, gpus, held, preferred);
    var a := placed[gpu];
    PlacedWasChosen(map[], gpus, chosen, gpu);
    CopiesAreCounts(usable, gpus, held, preferred, a.model);
    CopiesAreCounts(usable, gpus, held, preferred, b.model);
    DivisorOptimal(usable, gpus, held, preferred, a, b);
    FairIsPlaced(a, b, counts, placed, KEEP_MARGIN);
    if forall g :: g in gpus ==> g !in held {
      FairIsPlaced(a, b, counts, placed, 1.0);
    }
  }

  lemma CopiesAreCounts(usable: seq<Offer>, gpus: seq<string>, held: Held, preferred: map<string, string>,
                        model: string)
    requires |usable| > 0 && Distinct(gpus)
    ensures Copies(Assigned(usable, gpus, held, preferred), model)
      == Count(CountsAfter(map[], Choices(usable, gpus, held, preferred, map[])), model)
  {
    CountsArePlaced(map[], gpus, Choices(usable, gpus, held, preferred, map[]), map[], model);
    assert Holders(map[], model) == {};
  }

  // ---------------------------------------------------------------- stability

  function PairOf(offer: Offer): Pair {
    Pair(offer.model, offer.digest)
  }

  /** The order of offers in two spots that agree except on what is held there. */
  lemma SameChoice(before: Spot, after: Spot, usable: seq<Offer>)
    requires |usable| > 0 && Wanted(usable)
    requires before.wish == after.wish && before.counts == after.counts
    requires after.current == Some(PairOf(Choose(before, usable)))
    ensures Choose(after, usable) == Choose(before, usable)
  {
    var i := First(before, usable);
    var a := usable[i];
    forall j | 0 <= j < |usable|
      ensures KeyLe(KeyOf(after, a), KeyOf(after, usable[j]))
      ensures j < i ==> Ahead(after, a, usable[j])
    {
      assert usable[j] in usable && a in usable;
      StaysAhead(before, after, a, usable[j]);
    }
    FirstIsUnique(after, usable, i);
  }

  lemma StaysAhead(before: Spot, after: Spot, a: Offer, b: Offer)
    requires a.wanted >= 0.0 && b.wanted >= 0.0
    requires before.wish == after.wish && before.counts == after.counts
    requires after.current == Some(PairOf(a))
    requires KeyLe(KeyOf(before, a), KeyOf(before, b))
    ensures KeyLe(KeyOf(after, a), KeyOf(after, b))
    ensures Ahead(before, a, b) ==> Ahead(after, a, b)
  {
    MoreCopies(a.wanted, Count(before.counts, a.model) + 1, Count(before.counts, a.model) + 1);
    MoreCopies(b.wanted, Count(before.counts, b.model) + 1, Count(before.counts, b.model) + 1);
    var s, t := Discounted(before, a), Discounted(before, b);
    assert s == Discounted(after, a) && t == Discounted(after, b) && s >= 0.0 && t >= 0.0;
    assert Score(after, a) == KEEP_MARGIN * s;
    if a.model != b.model {
      assert Score(after, b) == t;
    } else {
      assert Keeps(before, a) == Keeps(before, b);
      assert Keeps(after, b);
    }
  }

  lemma {:induction false} Untouched(placed: map<string, Offer>, gpus: seq<string>, chosen: seq<Offer>, gpu: string)
    requires |gpus| == |chosen| && gpu !in gpus
    ensures gpu in PlaceAll(placed, gpus, chosen) <==> gpu in placed
    ensures gpu in placed ==> PlaceAll(placed, gpus, chosen)[gpu] == placed[gpu]
    decreases |gpus|
  {
    if |gpus| > 0 {
      assert gpus[0] in gpus;
      Untouched(placed[gpus[0] := chosen[0]], gpus[1..], chosen[1..], gpu);
    }
  }

  lemma {:induction false} PlacedWhere(placed: map<string, Offer>, gpus: seq<string>, chosen: seq<Offer>, i: nat)
    requires |gpus| == |chosen| && i < |gpus| && Distinct(gpus)
    ensures gpus[i] in PlaceAll(placed, gpus, chosen) && PlaceAll(placed, gpus, chosen)[gpus[i]] == chosen[i]
    decreases |gpus|
  {
    var next := placed[gpus[0] := chosen[0]];
    if i == 0 {
      assert gpus[0] !in gpus[1..];
      Untouched(next, gpus[1..], chosen[1..], gpus[0]);
    } else {
      PlacedWhere(next, gpus[1..], chosen[1..], i - 1);
    }
  }

  /** Held as the first run left it, every GPU gets the offer it has. */
  lemma {:induction false} SameChoices(usable: seq<Offer>, gpus: seq<string>, before: Held, after: Held,
                                       preferred: map<string, string>, counts: map<string, nat>)
    requires |usable| > 0 && Wanted(usable)
    requires var chosen := Choices(usable, gpus, before, preferred, counts);
      forall i :: 0 <= i < |gpus| ==> gpus[i] in after && after[gpus[i]] == PairOf(chosen[i])
    ensures Choices(usable, gpus, after, preferred, counts) == Choices(usable, gpus, before, preferred, counts)
    decreases |gpus|
  {
    if |gpus| > 0 {
      var chosen := Choices(usable, gpus, before, preferred, counts);
      var was, now := SpotFor(gpus[0], before, preferred, counts), SpotFor(gpus[0], after, preferred, counts);
      assert chosen[0] == Choose(was, usable);
      SameChoice(was, now, usable);
      forall i | 0 <= i < |gpus[1..]|
        ensures gpus[1..][i] in after && after[gpus[1..][i]] == PairOf(chosen[1..][i])
      {
        assert gpus[1..][i] == gpus[i + 1];
      }
      SameChoices(usable, gpus[1..], before, after, preferred, Tally(counts, chosen[0].model));
    }
  }

  function Pairs(placed: map<string, Offer>): Held {
    map gpu | gpu in placed :: PairOf(placed[gpu])
  }

  /** Assigning again from what was assigned moves nothing. */
  lemma AssignIsStable(usable: seq<Offer>, gpus: seq<string>, held: Held, preferred: map<string, string>)
    requires Wanted(usable) && Distinct(gpus)
    ensures Assigned(usable, gpus, Pairs(Assigned(usable, gpus, held, preferred)), preferred)
      == Assigned(usable, gpus, held, preferred)
  {
    if |usable| > 0 {
      var chosen := Choices(usable, gpus, held, preferred, map[]);
      var placed := PlaceAll(map[], gpus, chosen);
      forall i | 0 <= i < |gpus| ensures gpus[i] in Pairs(placed) && Pairs(placed)[gpus[i]] == PairOf(chosen[i]) {
        PlacedWhere(map[], gpus, chosen, i);
      }
      SameChoices(usable, gpus, held, Pairs(placed), preferred, map[]);
    }
  }

  lemma Outscored(spot: Spot, c: Offer, h: Offer)
    requires spot.wish == "" && Keeps(spot, h) && !Keeps(spot, c) && KeyLe(KeyOf(spot, c), KeyOf(spot, h))
    ensures Discounted(spot, c) > KEEP_MARGIN * Discounted(spot, h)
  {
    assert KeyOf(spot, c).negScore == -Discounted(spot, c);
    assert KeyOf(spot, h).negScore == -(Discounted(spot, h) * KEEP_MARGIN);
  }

  lemma LosesToRival(spot: Spot, usable: seq<Offer>, h: Offer)
    requires |usable| > 0 && spot.wish == "" && h in usable && Keeps(spot, h)
    requires !Keeps(spot, Choose(spot, usable))
    ensures Discounted(spot, Choose(spot, usable)) > KEEP_MARGIN * Discounted(spot, h)
  {
    var j :| 0 <= j < |usable| && usable[j] == h;
    Outscored(spot, Choose(spot, usable), usable[j]);
  }

  lemma KeepsAgainst(spot: Spot, usable: seq<Offer>, r: Offer)
    requires |usable| > 0 && spot.wish == "" && r in usable && !Keeps(spot, r)
    requires Keeps(spot, Choose(spot, usable))
    ensures Discounted(spot, r) <= KEEP_MARGIN * Discounted(spot, Choose(spot, usable))
  {
    ChosenScores(spot, usable, r);
  }

  /** r has more than the margin times the demand of everything that would keep this GPU. */
  ghost predicate Overtakes(spot: Spot, usable: seq<Offer>, r: Offer) {
    !Keeps(spot, r) &&
    forall h :: h in usable && Keeps(spot, h) ==> Discounted(spot, r) > KEEP_MARGIN * Discounted(spot, h)
  }

  /** A held model loses its GPU exactly to a rival whose discounted demand is above the margin times its own. */
  lemma LosesOnlyAboveMargin(spot: Spot, usable: seq<Offer>)
    requires |usable| > 0 && spot.wish == "" && exists h :: h in usable && Keeps(spot, h)
    ensures !Keeps(spot, Choose(spot, usable)) <==> exists r :: r in usable && Overtakes(spot, usable, r)
  {
    var c := Choose(spot, usable);
    assert c in usable;
    if !Keeps(spot, c) {
      forall h | h in usable && Keeps(spot, h) ensures Discounted(spot, c) > KEEP_MARGIN * Discounted(spot, h) {
        LosesToRival(spot, usable, h);
      }
      assert Overtakes(spot, usable, c);
    } else {
      forall r | r in usable ensures !Overtakes(spot, usable, r) {
        if !Keeps(spot, r) {
          KeepsAgainst(spot, usable, r);
        }
      }
    }
  }

  // ---------------------------------------------------------------- who gets a GPU

  /** Demand over one more copy than is placed, half as much again for what the GPU holds. */
  ghost predicate IsScore(spot: Spot, offer: Offer, score: real) {
    var copies := if offer.model in spot.counts then spot.counts[offer.model] + 1 else 1;
    var holds := spot.current.Some? && spot.current.value.model == offer.model;
    score * copies as real == if holds then offer.wanted * 1.5 else offer.wanted
  }

  lemma ScoreExactly(spot: Spot, offer: Offer, score: real)
    ensures IsScore(spot, offer, score) <==> score == Score(spot, offer)
  {
    var copies := (Count(spot.counts, offer.model) + 1) as real;
    var share := Discounted(spot, offer);
    assert share * copies == offer.wanted;
    assert Score(spot, offer) * copies == if Keeps(spot, offer) then offer.wanted * 1.5 else offer.wanted;
    if IsScore(spot, offer, score) {
      FactorEqual(score, Score(spot, offer), copies);
    }
  }

  /**
   * The offer a GPU gets, against any other: it is the one wished for if that one can be had; among those it has the
   * higher score; then it is what the GPU holds, then cold, then the smaller, then the lower name.
   */
  lemma ChosenOver(spot: Spot, usable: seq<Offer>, b: Offer, score: real, other: real)
    requires |usable| > 0 && b in usable
    requires IsScore(spot, Choose(spot, usable), score) && IsScore(spot, b, other)
    ensures var a := Choose(spot, usable);
      var wishedA, wishedB := spot.wish != "" && a.model == spot.wish, spot.wish != "" && b.model == spot.wish;
      var heldA := spot.current.Some? && spot.current.value.model == a.model;
      var heldB := spot.current.Some? && spot.current.value.model == b.model;
      && a in usable
      && (wishedB ==> wishedA)
      && (wishedA == wishedB ==> score >= other)
      && (wishedA == wishedB && score == other ==>
           && (heldB ==> heldA)
           && (heldA == heldB ==>
                && (b.cold ==> a.cold)
                && (a.cold == b.cold ==>
                     && a.vramGb <= b.vramGb
                     && (a.vramGb == b.vramGb ==> a.model == b.model || Strings.Before(a.model, b.model)))))
  {
    var a := Choose(spot, usable);
    ScoreExactly(spot, a, score);
    ScoreExactly(spot, b, other);
    var j :| 0 <= j < |usable| && usable[j] == b;
    assert KeyLe(KeyOf(spot, a), KeyOf(spot, usable[j]));
    Strings.LeExactly(a.model, b.model);
  }

  /** How many of these are copies of a model. */
  function CopiesIn(chosen: seq<Offer>, model: string): nat {
    if |chosen| == 0 then 0 else (if chosen[0].model == model then 1 else 0) + CopiesIn(chosen[1..], model)
  }

  /** These copies more than before. */
  ghost predicate CountsMore(counts: map<string, nat>, more: map<string, nat>, chosen: seq<Offer>) {
    forall model :: Count(more, model) == Count(counts, model) + CopiesIn(chosen, model)
  }

  lemma CountsMoreCons(counts: map<string, nat>, more: map<string, nat>, first: Offer, rest: seq<Offer>)
    requires CountsMore(Tally(counts, first.model), more, rest)
    ensures CountsMore(counts, more, [first] + rest)
  {
    assert ([first] + rest)[1..] == rest;
  }

  lemma LaterChoice(usable: seq<Offer>, gpus: seq<string>, held: Held, preferred: map<string, string>,
                    counts: map<string, nat>, i: nat)
    requires |usable| > 0 && 0 < i < |gpus|
    ensures var first := Choose(SpotFor(gpus[0], held, preferred, counts), usable);
      var rest := Choices(usable, gpus[1..], held, preferred, Tally(counts, first.model));
      && Choices(usable, gpus, held, preferred, counts)[i] == rest[i - 1]
      && Choices(usable, gpus, held, preferred, counts)[..i] == [first] + rest[..i - 1]
  {
    var first := Choose(SpotFor(gpus[0], held, preferred, counts), usable);
    var rest := Choices(usable, gpus[1..], held, preferred, Tally(counts, first.model));
    assert Choices(usable, gpus, held, preferred, counts) == [first] + rest;
  }

  /**
   * In a run over the GPUs each gets its choice, given what it holds, what is wished for it, and the copies placed
   * before it.
   */
  lemma {:induction false} ChoicesExactly(usable: seq<Offer>, gpus: seq<string>, held: Held,
                                          preferred: map<string, string>, counts: map<string, nat>, i: nat)
    returns (spot: Spot)
    requires |usable| > 0 && i < |gpus|
    ensures Choices(usable, gpus, held, preferred, counts)[i] == Choose(spot, usable)
    ensures spot.current == if gpus[i] in held then Some(held[gpus[i]]) else None
    ensures spot.wish == if gpus[i] in preferred then preferred[gpus[i]] else ""
    ensures CountsMore(counts, spot.counts, Choices(usable, gpus, held, preferred, counts)[..i])
  {
    if i == 0 {
      spot := SpotFor(gpus[0], held, preferred, counts);
    } else {
      var first := Choose(SpotFor(gpus[0], held, preferred, counts), usable);
      spot := ChoicesExactly(usable, gpus[1..], held, preferred, Tally(counts, first.model), i - 1);
      LaterChoice(usable, gpus, held, preferred, counts, i);
      CountsMoreCons(counts, spot.counts, first,
                     Choices(usable, gpus[1..], held, preferred, Tally(counts, first.model))[..i - 1]);
    }
  }

  // ---------------------------------------------------------------- build

  datatype Capacity = Capacity(gpus: seq<string>, gpuGb: real, hardwareClass: string, images: set<string>)

  datatype Policy = Policy(
    arenas: set<string>, exclude: set<string>, kinds: set<string>, only: set<string>, families: set<string>,
    acceptLicences: bool)

  predicate Allows(policy: Policy, offer: Offer) {
    && offer.model !in policy.exclude
    && (policy.only == {} || offer.model in policy.only)
    && (policy.kinds == {} || (if offer.general then "model" else "system") in policy.kinds)
    && if offer.general then policy.families == {} || offer.family in policy.families
       else policy.arenas == {} || offer.arena in policy.arenas
  }

  const SERVING_CLASSES: map<string, real> := map["gpu_24gb" := 24.0, "gpu_80gb" := 80.0, "gpu_8x80gb" := 640.0]

  predicate Satisfies(have: string, need: string) {
    need == "" ||
    (have in SERVING_CLASSES && need in SERVING_CLASSES && SERVING_CLASSES[have] >= SERVING_CLASSES[need])
  }

  predicate Runnable(offer: Offer, capacity: Capacity) {
    offer.general ==>
      offer.engine != "" && offer.engine in capacity.images && Satisfies(capacity.hardwareClass, offer.hardwareClass)
  }

  /** Pins and digests in lower case; a pin of fewer than seven characters matches nothing. */
  predicate Pinned(pins: Option<map<string, string>>, offer: Offer) {
    pins.Some? ==>
      offer.model in pins.value && |pins.value[offer.model]| >= 7 && pins.value[offer.model] <= offer.digest
  }

  predicate Usable(offer: Offer, capacity: Capacity, policy: Policy, pins: Option<map<string, string>>) {
    && offer.model != "" && offer.digest != ""
    && Pinned(pins, offer)
    && offer.servable
    && Allows(policy, offer)
    && (offer.general ==> policy.acceptLicences)
    && Runnable(offer, capacity)
    && offer.vramGb <= capacity.gpuGb
  }

  function Filter(rows: seq<Offer>, capacity: Capacity, policy: Policy,
                  pins: Option<map<string, string>>): (usable: seq<Offer>)
    ensures forall o :: o in usable <==> o in rows && Usable(o, capacity, policy, pins)
  {
    if |rows| == 0 then []
    else
      var rest := Filter(rows[1..], capacity, policy, pins);
      if Usable(rows[0], capacity, policy, pins) then [rows[0]] + rest else rest
  }

  /**
   * What can be used: a row that names a model and a digest, that the catalogue serves, that pins, policy and licences
   * allow, and that this host can run.
   */
  lemma UsableExactly(rows: seq<Offer>, capacity: Capacity, policy: Policy, pins: Option<map<string, string>>, o: Offer)
    ensures o in Filter(rows, capacity, policy, pins) <==>
      && o in rows && |o.model| > 0 && |o.digest| > 0 && o.servable
      && (match pins
          case None => true
          case Some(found) =>
            o.model in found && 7 <= |found[o.model]| <= |o.digest| && o.digest[..|found[o.model]|] == found[o.model])
      && o.model !in policy.exclude && (|policy.only| > 0 ==> o.model in policy.only)
      && (|policy.kinds| > 0 ==> (o.general && "model" in policy.kinds) || (!o.general && "system" in policy.kinds))
      && (|policy.families| > 0 && o.general ==> o.family in policy.families)
      && (|policy.arenas| > 0 && !o.general ==> o.arena in policy.arenas)
      && (o.general ==> policy.acceptLicences && |o.engine| > 0 && o.engine in capacity.images)
      && (o.general && o.hardwareClass != "" ==> ClassGb(capacity.hardwareClass) >= ClassGb(o.hardwareClass) > 0.0)
      && o.vramGb <= capacity.gpuGb
  {
    assert |policy.only| > 0 <==> policy.only != {};
    assert |policy.kinds| > 0 <==> policy.kinds != {};
    assert |policy.families| > 0 <==> policy.families != {};
    assert |policy.arenas| > 0 <==> policy.arenas != {};
  }

  /** The memory a serving class stands for; none if it is not one. */
  function ClassGb(name: string): real {
    if name == "gpu_24gb" then 24.0 else if name == "gpu_80gb" then 80.0 else if name == "gpu_8x80gb" then 640.0
      else 0.0
  }

  datatype Holding = Holding(model: string, digest: string, concurrency: int, general: bool)

  /** What each GPU shall hold, which offers to fetch first, and which GPUs to clear, in order of name. */
  datatype Plan = Plan(hold: map<string, Holding>, fetch: seq<Offer>, drop: seq<string>)

  function HoldingOf(offer: Offer): Holding {
    Holding(offer.model, offer.digest, if offer.general then offer.concurrency else 1, offer.general)
  }

  /** Keys of a dict in the order they were first set. */
  function FirstSeen(gpus: seq<string>): (r: seq<string>)
    ensures forall gpu :: gpu in r <==> gpu in gpus
    ensures Distinct(r)
  {
    if |gpus| == 0 then []
    else
      var last := gpus[|gpus| - 1];
      var before := FirstSeen(gpus[..|gpus| - 1]);
      assert gpus == gpus[..|gpus| - 1] + [last];
      if last in before then before else before + [last]
  }

  /** Offers not cached on this host, one for each model. */
  function Fetches(order: seq<string>, placed: map<string, Offer>, cached: set<Pair>, names: set<string>): seq<Offer>
    requires forall gpu :: gpu in order ==> gpu in placed
  {
    if |order| == 0 then []
    else
      var offer := placed[order[0]];
      if offer.model in names || PairOf(offer) in cached then
        Fetches(order[1..], placed, cached, names)
      else
        [offer] + Fetches(order[1..], placed, cached, names + {offer.model})
  }

  /** Only what is placed, not cached and not named before is fetched, every such model, and none twice. */
  lemma {:induction false} FetchedOnce(order: seq<string>, placed: map<string, Offer>, cached: set<Pair>,
                                       names: set<string>)
    requires forall gpu :: gpu in order ==> gpu in placed
    ensures var fetch := Fetches(order, placed, cached, names);
      && (forall o :: o in fetch ==> o.model !in names && PairOf(o) !in cached && o in placed.Values)
      && (forall gpu :: gpu in order && PairOf(placed[gpu]) !in cached && placed[gpu].model !in names ==>
            exists o :: o in fetch && o.model == placed[gpu].model)
      && (forall i, j :: 0 <= i < j < |fetch| ==> fetch[i].model != fetch[j].model)
  {
    if |order| > 0 {
      var offer, rest := placed[order[0]], order[1..];
      assert order[0] in order && order == [order[0]] + rest;
      if offer.model in names || PairOf(offer) in cached {
        FetchedOnce(rest, placed, cached, names);
      } else {
        FetchedOnce(rest, placed, cached, names + {offer.model});
        var fetch, more := Fetches(order, placed, cached, names), Fetches(rest, placed, cached, names + {offer.model});
        assert fetch == [offer] + more && offer in fetch;
        forall gpu | gpu in order && PairOf(placed[gpu]) !in cached && placed[gpu].model !in names
          ensures exists o :: o in fetch && o.model == placed[gpu].model
        {
          if placed[gpu].model != offer.model {
            var o :| o in more && o.model == placed[gpu].model;
            assert o in fetch;
          }
        }
      }
    }
  }

  /** GPUs whose present holding is not wanted any more. */
  function Drops(held: Held, placed: map<string, Offer>): set<string> {
    set gpu | gpu in held && !(gpu in placed && PairOf(placed[gpu]) == held[gpu])
  }

  function PlanFor(placed: map<string, Offer>, gpus: seq<string>, held: Held): Plan {
    Plan(map gpu | gpu in placed :: HoldingOf(placed[gpu]),
         Fetches(SelectPlaced(FirstSeen(gpus), placed), placed, held.Values, {}),
         Strings.SortedNames(Drops(held, placed)))
  }

  function Built(rows: seq<Offer>, capacity: Capacity, held: Held, policy: Policy, pins: Option<map<string, string>>,
                 preferred: map<string, string>): Plan
  {
    PlanFor(Assigned(Filter(rows, capacity, policy, pins), capacity.gpus, held, preferred), capacity.gpus, held)
  }

  /** Offers are fetched in the order of the GPUs that first need them. */
  lemma {:induction false} FetchInOrder(order: seq<string>, placed: map<string, Offer>, cached: set<Pair>,
                                        names: set<string>) returns (at: seq<nat>)
    requires forall gpu :: gpu in order ==> gpu in placed
    ensures |at| == |Fetches(order, placed, cached, names)|
    ensures forall i, j :: 0 <= i < j < |at| ==> at[i] < at[j]
    ensures forall i :: 0 <= i < |at| ==>
      at[i] < |order| && Fetches(order, placed, cached, names)[i] == placed[order[at[i]]]
    decreases |order|
  {
    at := [];
    if |order| > 0 {
      var offer := placed[order[0]];
      var skipped := offer.model in names || PairOf(offer) in cached;
      var rest := FetchInOrder(order[1..], placed, cached, if skipped then names else names + {offer.model});
      at := (if skipped then [] else [0]) + seq(|rest|, i requires 0 <= i < |rest| => rest[i] + 1);
    }
  }

  /** A host that lists each GPU once is gone through in its own order. */
  lemma {:induction false} SeenInOrder(gpus: seq<string>)
    requires Distinct(gpus)
    ensures FirstSeen(gpus) == gpus
  {
    if |gpus| > 0 {
      var last := |gpus| - 1;
      SeenInOrder(gpus[..last]);
      assert gpus == gpus[..last] + [gpus[last]];
    }
  }

  lemma {:induction false} AllSelected(gpus: seq<string>, placed: map<string, Offer>)
    requires forall gpu :: gpu in gpus ==> gpu in placed
    ensures SelectPlaced(gpus, placed) == gpus
  {
    if |gpus| > 0 {
      AllSelected(gpus[1..], placed);
    }
  }

  /**
   * On a host that lists each GPU once, offers are fetched in the order of its GPUs; GPUs are cleared in order of name.
   */
  lemma PlanInOrder(rows: seq<Offer>, capacity: Capacity, held: Held, policy: Policy, pins: Option<map<string, string>>,
                    preferred: map<string, string>) returns (at: seq<nat>)
    ensures var plan := Built(rows, capacity, held, policy, pins, preferred);
      forall i, j :: 0 <= i < j < |plan.drop| ==> Strings.Before(plan.drop[i], plan.drop[j])
    ensures Distinct(capacity.gpus) ==>
      var plan := Built(rows, capacity, held, policy, pins, preferred);
      && |at| == |plan.fetch| && (forall i, j :: 0 <= i < j < |at| ==> at[i] < at[j])
      && forall i :: 0 <= i < |at| ==>
           && at[i] < |capacity.gpus| && capacity.gpus[at[i]] in plan.hold
           && plan.hold[capacity.gpus[at[i]]].model == plan.fetch[i].model
  {
    var usable := Filter(rows, capacity, policy, pins);
    var placed := Assigned(usable, capacity.gpus, held, preferred);
    var plan := Built(rows, capacity, held, policy, pins, preferred);
    forall i, j | 0 <= i < j < |plan.drop| ensures Strings.Before(plan.drop[i], plan.drop[j]) {
      Strings.NamesAscend(Drops(held, placed), i, j);
    }
    at := [];
    if Distinct(capacity.gpus) && |usable| > 0 {
      var chosen := Choices(usable, capacity.gpus, held, preferred, map[]);
      forall gpu | gpu in capacity.gpus ensures gpu in placed {
        PlacedIsChosen(map[], capacity.gpus, chosen, gpu);
      }
      SeenInOrder(capacity.gpus);
      AllSelected(capacity.gpus, placed);
      at := FetchInOrder(capacity.gpus, placed, held.Values, {});
    } else if |usable| == 0 {
      NoneSelected(FirstSeen(capacity.gpus), placed);
    }
  }

  lemma {:induction false} NoneSelected(gpus: seq<string>, placed: map<string, Offer>)
    requires placed == map[]
    ensures SelectPlaced(gpus, placed) == []
  {
    if |gpus| > 0 {
      NoneSelected(gpus[1..], placed);
    }
  }

  lemma {:induction false} PlacedIsChosen(placed: map<string, Offer>, gpus: seq<string>, chosen: seq<Offer>,
                                          gpu: string)
    requires |gpus| == |chosen|
    ensures gpu in PlaceAll(placed, gpus, chosen) <==> gpu in placed || gpu in gpus
    ensures gpu in PlaceAll(placed, gpus, chosen) ==>
      PlaceAll(placed, gpus, chosen)[gpu] in chosen
        || (gpu in placed && PlaceAll(placed, gpus, chosen)[gpu] == placed[gpu])
    decreases |gpus|
  {
    if |gpus| > 0 {
      PlacedIsChosen(placed[gpus[0] := chosen[0]], gpus[1..], chosen[1..], gpu);
      assert forall x :: x in chosen[1..] ==> x in chosen;
      assert gpus == [gpus[0]] + gpus[1..];
    }
  }

  lemma {:induction false} ChoicesUsable(usable: seq<Offer>, gpus: seq<string>, held: Held,
                                         preferred: map<string, string>, counts: map<string, nat>)
    requires |usable| > 0
    ensures forall o :: o in Choices(usable, gpus, held, preferred, counts) ==> o in usable
    decreases |gpus|
  {
    if |gpus| > 0 {
      var offer := Choose(SpotFor(gpus[0], held, preferred, counts), usable);
      ChoicesUsable(usable, gpus[1..], held, preferred, Tally(counts, offer.model));
    }
  }

  /**
   * What a plan says of each GPU: it holds something exactly if it is one of the host's and anything can be used,
     then a
   * usable row, one copy at a time unless it is a plain model; and it is cleared exactly if it held something else.
   */
  lemma PlanExactly(rows: seq<Offer>, capacity: Capacity, held: Held, policy: Policy, pins: Option<map<string, string>>,
                    preferred: map<string, string>, gpu: string)
    ensures var plan, usable := Built(rows, capacity, held, policy, pins, preferred),
      Filter(rows, capacity, policy, pins);
      && (gpu in plan.hold <==> gpu in capacity.gpus && |usable| > 0)
      && (gpu in plan.hold ==>
            exists o :: o in usable && plan.hold[gpu].model == o.model && plan.hold[gpu].digest == o.digest
              && plan.hold[gpu].general == o.general
              && plan.hold[gpu].concurrency == if o.general then o.concurrency else 1)
      && (gpu in plan.drop <==>
            gpu in held &&
            !(gpu in plan.hold && plan.hold[gpu].model == held[gpu].model && plan.hold[gpu].digest == held[gpu].digest))
  {
    var usable := Filter(rows, capacity, policy, pins);
    var placed := Assigned(usable, capacity.gpus, held, preferred);
    if |usable| > 0 {
      var chosen := Choices(usable, capacity.gpus, held, preferred, map[]);
      PlacedIsChosen(map[], capacity.gpus, chosen, gpu);
      ChoicesUsable(usable, capacity.gpus, held, preferred, map[]);
    }
    Strings.NameListed(Drops(held, placed), gpu);
    if gpu in placed {
      assert placed[gpu] in usable;
      assert Built(rows, capacity, held, policy, pins, preferred).hold[gpu] == HoldingOf(placed[gpu]);
    }
  }

  method Build(rows: seq<Offer>, capacity: Capacity, held: Held, policy: Policy, pins: Option<map<string, string>>,
               preferred: map<string, string>) returns (plan: Plan)
    ensures plan == Built(rows, capacity, held, policy, pins, preferred)
  {
    var usable := [];
    var i := |rows|;
    while i > 0
      invariant 0 <= i <= |rows|
      invariant usable == Filter(rows[i..], capacity, policy, pins)
    {
      i := i - 1;
      assert rows[i..][1..] == rows[i + 1..];
      if Usable(rows[i], capacity, policy, pins) {
        usable := [rows[i]] + usable;
      }
    }
    assert rows[0..] == rows;
    var placed := Assign(usable, capacity.gpus, held, preferred);
    var fetch := Fetch(SelectPlaced(FirstSeen(capacity.gpus), placed), placed, held.Values);
    plan := Plan(map gpu | gpu in placed :: HoldingOf(placed[gpu]), fetch, Strings.SortedNames(Drops(held, placed)));
  }

  method Fetch(order: seq<string>, placed: map<string, Offer>, cached: set<Pair>) returns (fetch: seq<Offer>)
    requires forall gpu :: gpu in order ==> gpu in placed
    ensures fetch == Fetches(order, placed, cached, {})
  {
    fetch := [];
    var names: set<string> := {};
    var todo := order;
    while |todo| > 0
      invariant forall gpu :: gpu in todo ==> gpu in placed
      invariant fetch + Fetches(todo, placed, cached, names) == Fetches(order, placed, cached, {})
      decreases |todo|
    {
      var offer := placed[todo[0]];
      if offer.model !in names && PairOf(offer) !in cached {
        Associative(fetch, [offer], Fetches(todo[1..], placed, cached, names + {offer.model}));
        fetch := fetch + [offer];
        names := names + {offer.model};
      }
      todo := todo[1..];
    }
  }

  function SelectPlaced(gpus: seq<string>, placed: map<string, Offer>): (r: seq<string>)
    ensures forall gpu :: gpu in r <==> gpu in gpus && gpu in placed
  {
    if |gpus| == 0 then []
    else if gpus[0] in placed then [gpus[0]] + SelectPlaced(gpus[1..], placed)
    else SelectPlaced(gpus[1..], placed)
  }

  function WantedOf(plan: Plan): Held {
    map gpu | gpu in plan.hold :: Pair(plan.hold[gpu].model, plan.hold[gpu].digest)
  }

  predicate Changed(plan: Plan, held: Held) {
    WantedOf(plan) != held
  }

  lemma {:induction false} NothingToFetch(order: seq<string>, placed: map<string, Offer>, cached: set<Pair>)
    requires forall gpu :: gpu in order ==> gpu in placed && PairOf(placed[gpu]) in cached
    ensures Fetches(order, placed, cached, {}) == []
  {
    if |order| > 0 {
      assert order[0] in order;
      NothingToFetch(order[1..], placed, cached);
    }
  }

  lemma WantedIsPlaced(placed: map<string, Offer>, gpus: seq<string>, held: Held)
    ensures WantedOf(PlanFor(placed, gpus, held)) == Pairs(placed)
  {
  }

  lemma NothingToDo(placed: map<string, Offer>, gpus: seq<string>)
    ensures var plan := PlanFor(placed, gpus, Pairs(placed)); plan.fetch == [] && plan.drop == []
  {
    var order := SelectPlaced(FirstSeen(gpus), placed);
    forall gpu | gpu in order ensures PairOf(placed[gpu]) in Pairs(placed).Values {
      assert Pairs(placed)[gpu] == PairOf(placed[gpu]);
    }
    NothingToFetch(order, placed, Pairs(placed).Values);
    assert Drops(Pairs(placed), placed) == {};
  }

  /** Planning again from what the plan wants changes, fetches and clears nothing. */
  ghost predicate PlanStable(rows: seq<Offer>, capacity: Capacity, held: Held, policy: Policy,
                             pins: Option<map<string, string>>, preferred: map<string, string>)
  {
    var first := Built(rows, capacity, held, policy, pins, preferred);
    var again := Built(rows, capacity, WantedOf(first), policy, pins, preferred);
    again.hold == first.hold && again.fetch == [] && again.drop == [] && !Changed(again, WantedOf(first))
  }

  lemma PlanIsStable(rows: seq<Offer>, capacity: Capacity, held: Held, policy: Policy,
                     pins: Option<map<string, string>>, preferred: map<string, string>)
    requires Wanted(rows) && Distinct(capacity.gpus)
    ensures PlanStable(rows, capacity, held, policy, pins, preferred)
  {
    var usable := Filter(rows, capacity, policy, pins);
    AssignIsStable(usable, capacity.gpus, held, preferred);
    SamePlacingSamePlan(Assigned(usable, capacity.gpus, held, preferred), capacity.gpus, held);
  }

  lemma SamePlacingSamePlan(placed: map<string, Offer>, gpus: seq<string>, held: Held)
    ensures WantedOf(PlanFor(placed, gpus, held)) == Pairs(placed)
    ensures var again := PlanFor(placed, gpus, Pairs(placed));
      && again.hold == PlanFor(placed, gpus, held).hold && again.fetch == [] && again.drop == []
      && !Changed(again, Pairs(placed))
  {
    WantedIsPlaced(placed, gpus, held);
    WantedIsPlaced(placed, gpus, Pairs(placed));
    NothingToDo(placed, gpus);
  }

  // ---------------------------------------------------------------- a GPU listed twice

  ghost predicate StableOn(usable: seq<Offer>, gpus: seq<string>, held: Held, preferred: map<string, string>) {
    var first := Assigned(usable, gpus, held, preferred);
    Assigned(usable, gpus, Pairs(first), preferred) == first
  }

  /** Assigning again changes nothing, whatever is offered, held and preferred. */
  ghost predicate AlwaysStable(gpus: seq<string>) {
    forall usable, held, preferred :: Wanted(usable) ==> StableOn(usable, gpus, held, preferred)
  }

  function Occurs(gpus: seq<string>, gpu: string): nat {
    if |gpus| == 0 then 0 else (if gpus[0] == gpu then 1 else 0) + Occurs(gpus[1..], gpu)
  }

  lemma {:induction false} OccursIn(gpus: seq<string>, gpu: string)
    ensures Occurs(gpus, gpu) > 0 <==> gpu in gpus
  {
    if |gpus| > 0 {
      OccursIn(gpus[1..], gpu);
      assert gpus == [gpus[0]] + gpus[1..];
    }
  }

  lemma {:induction false} OccursTwice(gpus: seq<string>, i: nat, j: nat)
    requires i < j < |gpus| && gpus[i] == gpus[j]
    ensures Occurs(gpus, gpus[i]) >= 2
  {
    if i == 0 {
      assert gpus[1..][j - 1] == gpus[j];
      OccursIn(gpus[1..], gpus[j]);
    } else {
      OccursTwice(gpus[1..], i - 1, j - 1);
    }
  }

  /** A certified system of no size, servable anywhere. */
  function Sample(model: string, wanted: real): Offer {
    Offer(model, "d", wanted, false, 0.0, true, false, 1, "", "", "", "")
  }

  /**
   * For a GPU listed k times: one model wanted a little less than k times as much as another, and one that nobody
   * wants.
   */
  function Much(k: nat): Offer { Sample("a", k as real - 0.6) }
  function Once(): Offer { Sample("b", 1.0) }
  function Idle(): Offer { Sample("p", 0.0) }
  function Rivals(k: nat): seq<Offer> { [Much(k), Once(), Idle()] }

  /** Every other GPU wishes for the model that nobody wants. */
  function Aside(gpus: seq<string>, gpu: string): map<string, string> {
    map other | other in gpus && other != gpu :: "p"
  }

  lemma WishFulfilled(spot: Spot, k: nat)
    requires spot.wish == "p"
    ensures Choose(spot, Rivals(k)) == Idle()
  {
    var usable := Rivals(k);
    var i := First(spot, usable);
    assert KeyLe(KeyOf(spot, usable[i]), KeyOf(spot, usable[2]));
    assert usable[0].model == "a" && usable[1].model == "b";
  }

  lemma BestScoreWins(spot: Spot, k: nat, best: Offer)
    requires spot.wish == "" && best in Rivals(k)
    requires forall o :: o in Rivals(k) && o != best ==> Score(spot, o) < Score(spot, best)
    ensures Choose(spot, Rivals(k)) == best
  {
    ChosenScores(spot, Rivals(k), best);
    assert Choose(spot, Rivals(k)) in Rivals(k);
  }

  lemma ShareAbove(w: real, n: nat, c: real)
    requires n > 0
    ensures Share(w, n) > c <==> w > c * n as real
    ensures Share(w, n) < c <==> w < c * n as real
  {
    var q := Share(w, n);
    assert q * n as real == w;
    if q > c {
      assert (q - c) * n as real > 0.0;
    } else if q < c {
      assert (c - q) * n as real > 0.0;
    }
  }

  /** The scores of the three in one spot, by how often the first two are placed. */
  lemma RivalScores(spot: Spot, k: nat)
    requires spot.current.Some? ==> spot.current.value.model == "b"
    ensures var ca, cb := Count(spot.counts, "a") + 1, Count(spot.counts, "b") + 1;
      && Score(spot, Much(k)) == Share(k as real - 0.6, ca)
      && Score(spot, Once()) == Share(1.0, cb) * (if spot.current.Some? then KEEP_MARGIN else 1.0)
      && Score(spot, Idle()) == 0.0
  {
    ShareZero(Count(spot.counts, "p") + 1);
  }

  lemma ShareZero(n: nat)
    requires n > 0
    ensures Share(0.0, n) == 0.0
  {
  }

  /** With nothing held the first model goes to the GPU until it has it k - 1 times, and then the second. */
  lemma FreshChoice(spot: Spot, k: nat)
    requires k >= 2 && spot.wish == "" && spot.current.None? && Count(spot.counts, "a") < k
      && Count(spot.counts, "b") == 0
    ensures Choose(spot, Rivals(k)) == if Count(spot.counts, "a") < k - 1 then Much(k) else Once()
  {
    var n := Count(spot.counts, "a") + 1;
    RivalScores(spot, k);
    ShareAbove(k as real - 0.6, n, 1.0);
    assert Share(1.0, 1) == 1.0;
    BestScoreWins(spot, k, if n < k then Much(k) else Once());
  }

  /**
   * With the second held it goes once to the GPU, at the last turn but one if not before, and the rest to the first.
   */
  lemma KeptChoice(spot: Spot, k: nat)
    requires k >= 2 && spot.wish == "" && spot.current.Some? && spot.current.value.model == "b"
    requires Count(spot.counts, "a") <= k - 2 && Count(spot.counts, "b") <= 1
    ensures Count(spot.counts, "b") == 1 ==> Choose(spot, Rivals(k)) == Much(k)
    ensures Count(spot.counts, "b") == 0 && Count(spot.counts, "a") == k - 2 ==> Choose(spot, Rivals(k)) == Once()
    ensures Choose(spot, Rivals(k)) == Much(k) || Choose(spot, Rivals(k)) == Once()
  {
    assert Share(1.0, 1) == 1.0 && Share(1.0, 2) == 0.5;
    if Count(spot.counts, "b") == 1 {
      RivalScores(spot, k);
      ShareAbove(k as real - 0.6, Count(spot.counts, "a") + 1, 0.75);
      BestScoreWins(spot, k, Much(k));
    } else {
      NeverIdle(spot, k);
      if Count(spot.counts, "a") == k - 2 {
        RivalScores(spot, k);
        ShareAbove(k as real - 0.6, k - 1, 1.5);
        BestScoreWins(spot, k, Once());
      }
    }
  }

  lemma NeverIdle(spot: Spot, k: nat)
    requires spot.wish == "" && spot.current.Some? && spot.current.value.model == "b" && Count(spot.counts, "b") == 0
    ensures Choose(spot, Rivals(k)) != Idle()
  {
    RivalScores(spot, k);
    assert Share(1.0, 1) == 1.0;
    ChosenScores(spot, Rivals(k), Once());
  }

  /** One GPU of the first run: another one is set aside, and the repeated one takes its turn. */
  lemma FirstRunStep(all: seq<string>, gpus: seq<string>, gpu: string, k: nat, counts: map<string, nat>)
    returns (offer: Offer)
    requires k >= 2 && 0 < Occurs(gpus, gpu) && gpus[0] in all
    requires Count(counts, "a") + Occurs(gpus, gpu) == k && Count(counts, "b") == 0
    ensures offer == Choose(SpotFor(gpus[0], map[], Aside(all, gpu), counts), Rivals(k))
    ensures Occurs(gpus[1..], gpu) > 0 ==>
      Count(Tally(counts, offer.model), "a") + Occurs(gpus[1..], gpu) == k
        && Count(Tally(counts, offer.model), "b") == 0
    ensures Occurs(gpus[1..], gpu) == 0 ==> gpus[0] == gpu && offer == Once()
  {
    var spot := SpotFor(gpus[0], map[], Aside(all, gpu), counts);
    offer := Choose(spot, Rivals(k));
    if gpus[0] != gpu {
      WishFulfilled(spot, k);
    } else {
      FreshChoice(spot, k);
    }
  }

  /** The first run leaves the second model on the GPU. */
  lemma {:induction false} FirstRunEnds(all: seq<string>, gpus: seq<string>, gpu: string, k: nat,
                                        counts: map<string, nat>, placed: map<string, Offer>)
    requires k >= 2 && 0 < Occurs(gpus, gpu) && forall other :: other in gpus ==> other in all
    requires Count(counts, "a") + Occurs(gpus, gpu) == k && Count(counts, "b") == 0
    ensures var last := PlaceAll(placed, gpus, Choices(Rivals(k), gpus, map[], Aside(all, gpu), counts));
      gpu in last && last[gpu] == Once()
    decreases |gpus|
  {
    assert gpus[0] in gpus && forall other :: other in gpus[1..] ==> other in gpus;
    var offer := FirstRunStep(all, gpus, gpu, k, counts);
    PlaceStep(placed, Rivals(k), gpus, map[], Aside(all, gpu), counts);
    if Occurs(gpus[1..], gpu) > 0 {
      FirstRunEnds(all, gpus[1..], gpu, k, Tally(counts, offer.model), placed[gpus[0] := offer]);
    } else {
      LastTurn(gpus[1..], gpu, placed[gpus[0] := offer],
               Choices(Rivals(k), gpus[1..], map[], Aside(all, gpu), Tally(counts, offer.model)));
    }
  }

  /**
   * Between the turns of the second run: so many are left, and the second model had at most one, by the last turn
   * exactly one.
   */
  ghost predicate Turn(counts: map<string, nat>, k: nat, left: nat) {
    && Count(counts, "b") <= 1 && Count(counts, "a") + Count(counts, "b") + left == k
    && (left == 1 ==> Count(counts, "b") == 1)
  }

  lemma TakesTurn(spot: Spot, k: nat, left: nat)
    requires k >= 2 && spot.wish == "" && spot.current.Some? && spot.current.value.model == "b"
    requires left > 0 && Turn(spot.counts, k, left)
    ensures left == 1 ==> Choose(spot, Rivals(k)) == Much(k)
    ensures left > 1 ==> Turn(Tally(spot.counts, Choose(spot, Rivals(k)).model), k, left - 1)
  {
    KeptChoice(spot, k);
  }

  /** One GPU of the second run: another one is set aside, and the repeated one takes its turn. */
  lemma SecondRunStep(all: seq<string>, gpus: seq<string>, gpu: string, k: nat, held: Held, counts: map<string, nat>)
    returns (offer: Offer)
    requires k >= 2 && 0 < Occurs(gpus, gpu) && gpus[0] in all
    requires gpu in held && held[gpu].model == "b" && Turn(counts, k, Occurs(gpus, gpu))
    ensures offer == Choose(SpotFor(gpus[0], held, Aside(all, gpu), counts), Rivals(k))
    ensures Occurs(gpus[1..], gpu) > 0 ==> Turn(Tally(counts, offer.model), k, Occurs(gpus[1..], gpu))
    ensures Occurs(gpus[1..], gpu) == 0 ==> gpus[0] == gpu && offer == Much(k)
  {
    var spot := SpotFor(gpus[0], held, Aside(all, gpu), counts);
    offer := Choose(spot, Rivals(k));
    if gpus[0] != gpu {
      WishFulfilled(spot, k);
    } else {
      TakesTurn(spot, k, Occurs(gpus, gpu));
    }
  }

  /** With that held, the second run leaves the first model on it. */
  lemma {:induction false} SecondRunEnds(all: seq<string>, gpus: seq<string>, gpu: string, k: nat, held: Held,
                                         counts: map<string, nat>, placed: map<string, Offer>)
    requires k >= 2 && 0 < Occurs(gpus, gpu) && forall other :: other in gpus ==> other in all
    requires gpu in held && held[gpu].model == "b" && Turn(counts, k, Occurs(gpus, gpu))
    ensures var last := PlaceAll(placed, gpus, Choices(Rivals(k), gpus, held, Aside(all, gpu), counts));
      gpu in last && last[gpu] == Much(k)
    decreases |gpus|
  {
    assert gpus[0] in gpus && forall other :: other in gpus[1..] ==> other in gpus;
    var offer := SecondRunStep(all, gpus, gpu, k, held, counts);
    PlaceStep(placed, Rivals(k), gpus, held, Aside(all, gpu), counts);
    if Occurs(gpus[1..], gpu) > 0 {
      SecondRunEnds(all, gpus[1..], gpu, k, held, Tally(counts, offer.model), placed[gpus[0] := offer]);
    } else {
      LastTurn(gpus[1..], gpu, placed[gpus[0] := offer],
               Choices(Rivals(k), gpus[1..], held, Aside(all, gpu), Tally(counts, offer.model)));
    }
  }

  /** Behind its last turn nothing touches the GPU. */
  lemma LastTurn(gpus: seq<string>, gpu: string, placed: map<string, Offer>, chosen: seq<Offer>)
    requires |gpus| == |chosen| && Occurs(gpus, gpu) == 0 && gpu in placed
    ensures gpu in PlaceAll(placed, gpus, chosen) && PlaceAll(placed, gpus, chosen)[gpu] == placed[gpu]
  {
    OccursIn(gpus, gpu);
    Untouched(placed, gpus, chosen, gpu);
  }

  lemma FirstAssigned(gpus: seq<string>, gpu: string, k: nat)
    requires k == Occurs(gpus, gpu) >= 2
    ensures var first := Assigned(Rivals(k), gpus, map[], Aside(gpus, gpu)); gpu in first && first[gpu] == Once()
  {
    FirstRunEnds(gpus, gpus, gpu, k, map[], map[]);
  }

  lemma SecondAssigned(gpus: seq<string>, gpu: string, k: nat, held: Held)
    requires k == Occurs(gpus, gpu) >= 2 && gpu in held && held[gpu].model == "b"
    ensures var again := Assigned(Rivals(k), gpus, held, Aside(gpus, gpu)); gpu in again && again[gpu] == Much(k)
  {
    SecondRunEnds(gpus, gpus, gpu, k, held, map[], map[]);
  }

  /** A GPU listed more than once is not left alone: what it ends with first it does not end with again. */
  lemma RepeatedGpuTakesTurns(gpus: seq<string>, gpu: string, k: nat)
    requires k == Occurs(gpus, gpu) >= 2
    ensures var first := Assigned(Rivals(k), gpus, map[], Aside(gpus, gpu));
      var again := Assigned(Rivals(k), gpus, Pairs(first), Aside(gpus, gpu));
      gpu in first && gpu in again && first[gpu].model == "b" && again[gpu].model == "a"
  {
    FirstAssigned(gpus, gpu, k);
    SecondAssigned(gpus, gpu, k, Pairs(Assigned(Rivals(k), gpus, map[], Aside(gpus, gpu))));
  }

  /** Exactly when assigning is stable: for a list that names every GPU once. */
  lemma StableExactly(gpus: seq<string>)
    ensures AlwaysStable(gpus) <==> Distinct(gpus)
  {
    if Distinct(gpus) {
      forall usable, held, preferred | Wanted(usable) ensures StableOn(usable, gpus, held, preferred) {
        AssignIsStable(usable, gpus, held, preferred);
      }
    } else {
      var i, j :| 0 <= i < j < |gpus| && gpus[i] == gpus[j];
      OccursTwice(gpus, i, j);
      var k := Occurs(gpus, gpus[i]);
      RepeatedGpuTakesTurns(gpus, gpus[i], k);
      assert !StableOn(Rivals(k), gpus, map[], Aside(gpus, gpus[i]));
    }
  }

  ghost predicate AlwaysPlanStable(capacity: Capacity) {
    forall rows, held, policy, pins, preferred :: Wanted(rows) ==>
      PlanStable(rows, capacity, held, policy, pins, preferred)
  }

  const ANY_POLICY := Policy({}, {}, {}, {}, {}, false)

  lemma RivalsUsable(k: nat, capacity: Capacity)
    requires capacity.gpuGb >= 0.0
    ensures Filter(Rivals(k), capacity, ANY_POLICY, None) == Rivals(k)
  {
    var rows := Rivals(k);
    assert rows[1..] == [Once(), Idle()] && [Once(), Idle()][1..] == [Idle()] && [Idle()][1..] == [];
    assert Filter([Idle()], capacity, ANY_POLICY, None) == [Idle()];
    assert Filter([Once(), Idle()], capacity, ANY_POLICY, None) == [Once()] + [Idle()];
    assert [Much(k)] + [Once(), Idle()] == rows;
  }

  lemma RepeatedGpuReplans(capacity: Capacity, gpu: string, k: nat)
    requires capacity.gpuGb >= 0.0 && k == Occurs(capacity.gpus, gpu) >= 2
    ensures !PlanStable(Rivals(k), capacity, map[], ANY_POLICY, None, Aside(capacity.gpus, gpu))
  {
    var preferred := Aside(capacity.gpus, gpu);
    RivalsUsable(k, capacity);
    var first := Assigned(Rivals(k), capacity.gpus, map[], preferred);
    var again := Assigned(Rivals(k), capacity.gpus, Pairs(first), preferred);
    RepeatedGpuTakesTurns(capacity.gpus, gpu, k);
    WantedIsPlaced(first, capacity.gpus, map[]);
    HoldsDiffer(first, again, gpu);
  }

  lemma HoldsDiffer(first: map<string, Offer>, again: map<string, Offer>, gpu: string)
    requires gpu in first && gpu in again && first[gpu].model != again[gpu].model
    ensures (map g | g in first :: HoldingOf(first[g])) != (map g | g in again :: HoldingOf(again[g]))
  {
    var x, y := map g | g in first :: HoldingOf(first[g]), map g | g in again :: HoldingOf(again[g]);
    assert x[gpu] != y[gpu];
  }

  lemma RepeatedNotAlwaysStable(capacity: Capacity)
    requires capacity.gpuGb >= 0.0 && !Distinct(capacity.gpus)
    ensures !AlwaysPlanStable(capacity)
  {
    var i, j :| 0 <= i < j < |capacity.gpus| && capacity.gpus[i] == capacity.gpus[j];
    OccursTwice(capacity.gpus, i, j);
    var k := Occurs(capacity.gpus, capacity.gpus[i]);
    assert Wanted(Rivals(k));
    RepeatedGpuReplans(capacity, capacity.gpus[i], k);
    NotAlways(Rivals(k), capacity, Aside(capacity.gpus, capacity.gpus[i]));
  }

  lemma NotAlways(rows: seq<Offer>, capacity: Capacity, preferred: map<string, string>)
    requires Wanted(rows) && !PlanStable(rows, capacity, map[], ANY_POLICY, None, preferred)
    ensures !AlwaysPlanStable(capacity)
  {
  }

  /**
   * Exactly when plans are stable, whatever is offered with no negative demand, held, allowed, pinned and preferred:
   * when the host lists every GPU once.
   */
  lemma PlanStableExactly(capacity: Capacity)
    requires capacity.gpuGb >= 0.0
    ensures AlwaysPlanStable(capacity) <==> Distinct(capacity.gpus)
  {
    if Distinct(capacity.gpus) {
      forall rows, held, policy, pins, preferred | Wanted(rows)
        ensures PlanStable(rows, capacity, held, policy, pins, preferred)
      {
        PlanIsStable(rows, capacity, held, policy, pins, preferred);
      }
    } else {
      RepeatedNotAlwaysStable(capacity);
    }
  }
}
