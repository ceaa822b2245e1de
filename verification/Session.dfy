/** The evaluation run over its journal: which rows are asked for, which are reused, and what a crash may cost. */
module Evaluation {
  import opened Prelude
  import opened JournalFile

  datatype Item = Item(id: string, pools: set<string>, twinOf: string)

  const SLM := "slm"
  const HARNESS := "harness"
  const ESCALATION := "escalation"
  const SYSTEM := "system"
  const MINER := "miner"
  const BARE := "B0"
  const REPAIR := "repair"

  /**
   * What one run is asked to do: conditions holds B1, B2, ... for the reference trees, floors one name for each floor.
   */
  datatype Job = Job(
    items: seq<Item>, limit: nat, has: set<string>, drafts: set<string>, conditions: seq<string>, floors: seq<string>)

  // ---------------------------------------------------------------- the items of a pool

  function InPool(items: seq<Item>, name: string): seq<Item> {
    if |items| == 0 then []
    else if name in items[0].pools then [items[0]] + InPool(items[1..], name)
    else InPool(items[1..], name)
  }

  /** The first limit items of a pool, all of them when the limit is zero. */
  function Pool(job: Job, name: string): seq<Item> {
    var chosen := InPool(job.items, name);
    if job.limit > 0 && job.limit < |chosen| then chosen[..job.limit] else chosen
  }

  /** Originals when twins is false, twins when it is true. */
  function Twins(items: seq<Item>, twins: bool): seq<Item> {
    if |items| == 0 then []
    else if (items[0].twinOf != "") == twins then [items[0]] + Twins(items[1..], twins)
    else Twins(items[1..], twins)
  }

  function Drafted(job: Job, items: seq<Item>): seq<Item> {
    if |items| == 0 then []
    else if items[0].id in job.drafts then [items[0]] + Drafted(job, items[1..])
    else Drafted(job, items[1..])
  }

  function KeysFor(pool: string, condition: string, items: seq<Item>): (keys: seq<Key>)
    ensures |keys| == |items|
    ensures forall i :: 0 <= i < |items| ==> keys[i] == (pool, condition, items[i].id)
  {
    seq(|items|, i requires 0 <= i < |items| => (pool, condition, items[i].id))
  }

  function KeysForAll(pool: string, conditions: seq<string>, items: seq<Item>): seq<Key> {
    if |conditions| == 0 then []
    else KeysFor(pool, conditions[0], items) + KeysForAll(pool, conditions[1..], items)
  }

  /** Every row a run asks for, in the order in which it asks. */
  function RunKeys(job: Job): seq<Key> {
    var slm, harness, system := Pool(job, SLM), Pool(job, HARNESS), Pool(job, SYSTEM);
    KeysFor(SLM, MINER, Twins(slm, false) + Twins(slm, true))
    + (if HARNESS in job.has then KeysFor(HARNESS, MINER, harness) else [])
    + KeysFor(HARNESS, BARE, harness)
    + KeysForAll(HARNESS, job.conditions, harness)
    + (if ESCALATION in job.has then KeysFor(ESCALATION, REPAIR, Drafted(job, Pool(job, ESCALATION))) else [])
    + KeysForAll(SYSTEM, job.floors, system)
  }

  function PlannedRepairs(job: Job): nat {
    if ESCALATION !in job.has then 0 else CountDrafted(job, Pool(job, ESCALATION))
  }

  function CountDrafted(job: Job, items: seq<Item>): nat {
    if |items| == 0 then 0 else (if items[0].id in job.drafts then 1 else 0) + CountDrafted(job, items[1..])
  }

  /** The number of rows announced before the run starts. */
  function Planned(job: Job): nat {
    var conditions := 1 + |job.conditions| + if HARNESS in job.has then 1 else 0;
    |Pool(job, SLM)| + |Pool(job, HARNESS)| * conditions + PlannedRepairs(job) + |Pool(job, SYSTEM)| * |job.floors|
  }

  lemma {:induction false} TwinsSplit(items: seq<Item>)
    ensures |Twins(items, false)| + |Twins(items, true)| == |items|
  {
    if |items| > 0 {
      TwinsSplit(items[1..]);
    }
  }

  lemma {:induction false} DraftedCount(job: Job, items: seq<Item>)
    ensures |Drafted(job, items)| == CountDrafted(job, items)
  {
    if |items| > 0 {
      DraftedCount(job, items[1..]);
    }
  }

  lemma {:induction false} KeysForAllLength(pool: string, conditions: seq<string>, items: seq<Item>)
    ensures |KeysForAll(pool, conditions, items)| == |items| * |conditions|
  {
    if |conditions| > 0 {
      KeysForAllLength(pool, conditions[1..], items);
      assert |items| * |conditions| == |items| + |items| * |conditions[1..]|;
    }
  }

  /** The run asks for exactly as many rows as were planned. */
  lemma PlanCountsRows(job: Job)
    ensures |RunKeys(job)| == Planned(job)
  {
    var harness := Pool(job, HARNESS);
    TwinsSplit(Pool(job, SLM));
    DraftedCount(job, Pool(job, ESCALATION));
    KeysForAllLength(HARNESS, job.conditions, harness);
    KeysForAllLength(SYSTEM, job.floors, Pool(job, SYSTEM));
    var extra := if HARNESS in job.has then 1 else 0;
    assert |harness| * (1 + |job.conditions| + extra) == |harness| + |harness| * |job.conditions| + |harness| * extra;
  }

  // ---------------------------------------------------------------- which rows, by the items themselves

  /** How many of the items carry a pool. */
  function CountIn(items: seq<Item>, name: string): nat {
    if |items| == 0 then 0 else (if name in items[0].pools then 1 else 0) + CountIn(items[1..], name)
  }

  lemma {:induction false} InPoolAt(items: seq<Item>, name: string, i: nat)
    requires i < |items| && name in items[i].pools
    ensures var k := CountIn(items[..i], name); k < |InPool(items, name)| && InPool(items, name)[k] == items[i]
  {
    if i > 0 {
      InPoolAt(items[1..], name, i - 1);
      assert items[..i][1..] == items[1..][..i - 1];
    }
  }

  lemma {:induction false} InPoolCount(items: seq<Item>, name: string)
    ensures |InPool(items, name)| == CountIn(items, name)
  {
    if |items| > 0 {
      InPoolCount(items[1..], name);
    }
  }

  /**
   * The items of a pool are the ones that carry it, in the order of the items, and no more than the limit, if there is
   * one.
   */
  lemma PoolExactly(job: Job, name: string, i: nat)
    requires i < |job.items|
    ensures var pool, k, all := Pool(job, name), CountIn(job.items[..i], name), CountIn(job.items, name);
      && |pool| == (if job.limit == 0 then all else Min(job.limit, all))
      && (name in job.items[i].pools && (job.limit == 0 || k < job.limit) ==> k < |pool| && pool[k] == job.items[i])
  {
    InPoolCount(job.items, name);
    if name in job.items[i].pools {
      InPoolAt(job.items, name, i);
    }
  }

  /** How many of the items are twins, or are not. */
  function CountTwins(items: seq<Item>, twins: bool): nat {
    if |items| == 0 then 0 else (if twins == (|items[0].twinOf| > 0) then 1 else 0) + CountTwins(items[1..], twins)
  }

  /** Originals and twins keep their order, each among their own. */
  lemma {:induction false} TwinsAt(items: seq<Item>, i: nat)
    requires i < |items|
    ensures var twins := |items[i].twinOf| > 0; var k := CountTwins(items[..i], twins);
      k < |Twins(items, twins)| && Twins(items, twins)[k] == items[i]
  {
    if i > 0 {
      TwinsAt(items[1..], i - 1);
      assert items[..i][1..] == items[1..][..i - 1];
    }
  }

  /** And those with a draft. */
  lemma {:induction false} DraftedAt(job: Job, items: seq<Item>, i: nat)
    requires i < |items| && items[i].id in job.drafts
    ensures var k := CountDrafted(job, items[..i]);
      k < |Drafted(job, items)| && Drafted(job, items)[k] == items[i]
  {
    if i > 0 {
      DraftedAt(job, items[1..], i - 1);
      assert items[..i][1..] == items[1..][..i - 1];
    }
  }

  /** An item of this pool has this id. */
  ghost predicate HasItem(items: seq<Item>, id: string) {
    exists i :: 0 <= i < |items| && items[i].id == id
  }

  lemma KeysForExactly(pool: string, condition: string, items: seq<Item>, key: Key)
    ensures key in KeysFor(pool, condition, items) <==> key.0 == pool && key.1 == condition && HasItem(items, key.2)
  {
    if HasItem(items, key.2) {
      var i :| 0 <= i < |items| && items[i].id == key.2;
      assert KeysFor(pool, condition, items)[i] == (pool, condition, key.2);
    }
  }

  lemma {:induction false} KeysForAllExactly(pool: string, conditions: seq<string>, items: seq<Item>, key: Key)
    ensures key in KeysForAll(pool, conditions, items) <==>
      key.0 == pool && key.1 in conditions && HasItem(items, key.2)
  {
    if |conditions| > 0 {
      KeysForExactly(pool, conditions[0], items, key);
      KeysForAllExactly(pool, conditions[1..], items, key);
      assert conditions == [conditions[0]] + conditions[1..];
    }
  }

  lemma {:induction false} TwinsMembers(items: seq<Item>, id: string)
    ensures HasItem(Twins(items, false) + Twins(items, true), id) <==> HasItem(items, id)
  {
    var parted := Twins(items, false) + Twins(items, true);
    if HasItem(items, id) {
      var i :| 0 <= i < |items| && items[i].id == id;
      TwinsAt(items, i);
      var k := CountTwins(items[..i], |items[i].twinOf| > 0);
      assert parted[if |items[i].twinOf| > 0 then |Twins(items, false)| + k else k] == items[i];
    }
    if HasItem(parted, id) {
      var i :| 0 <= i < |parted| && parted[i].id == id;
      TwinsFrom(items, false, parted[i]);
      TwinsFrom(items, true, parted[i]);
      assert parted[i] in items;
    }
  }

  lemma {:induction false} TwinsFrom(items: seq<Item>, twins: bool, item: Item)
    ensures item in Twins(items, twins) <==> item in items && (|item.twinOf| > 0) == twins
  {
    if |items| > 0 {
      TwinsFrom(items[1..], twins, item);
      assert items == [items[0]] + items[1..];
    }
  }

  lemma {:induction false} DraftedMembers(job: Job, items: seq<Item>, id: string)
    ensures HasItem(Drafted(job, items), id) <==> HasItem(items, id) && id in job.drafts
  {
    var drafted := Drafted(job, items);
    if HasItem(items, id) && id in job.drafts {
      var i :| 0 <= i < |items| && items[i].id == id;
      DraftedAt(job, items, i);
    }
    if HasItem(drafted, id) {
      var i :| 0 <= i < |drafted| && drafted[i].id == id;
      DraftedFrom(job, items, drafted[i]);
      assert drafted[i] in items;
    }
  }

  lemma {:induction false} DraftedFrom(job: Job, items: seq<Item>, item: Item)
    ensures item in Drafted(job, items) <==> item in items && item.id in job.drafts
  {
    if |items| > 0 {
      DraftedFrom(job, items[1..], item);
      assert items == [items[0]] + items[1..];
    }
  }

  /** Every row a run asks for, pool by pool and condition by condition, and no other. */
  lemma KeyAskedExactly(job: Job, key: Key)
    ensures key in RunKeys(job) <==>
      || (key.0 == "slm" && key.1 == "miner" && HasItem(Pool(job, "slm"), key.2))
      || (key.0 == "harness" && HasItem(Pool(job, "harness"), key.2)
          && (key.1 == "B0" || key.1 in job.conditions || ("harness" in job.has && key.1 == "miner")))
      || (key.0 == "escalation" && "escalation" in job.has && key.1 == "repair"
          && HasItem(Pool(job, "escalation"), key.2) && key.2 in job.drafts)
      || (key.0 == "system" && key.1 in job.floors && HasItem(Pool(job, "system"), key.2))
  {
    var slm, harness := Pool(job, SLM), Pool(job, HARNESS);
    KeysForExactly(SLM, MINER, Twins(slm, false) + Twins(slm, true), key);
    TwinsMembers(slm, key.2);
    KeysForExactly(HARNESS, MINER, harness, key);
    KeysForExactly(HARNESS, BARE, harness, key);
    KeysForAllExactly(HARNESS, job.conditions, harness, key);
    KeysForExactly(ESCALATION, REPAIR, Drafted(job, Pool(job, ESCALATION)), key);
    DraftedMembers(job, Pool(job, ESCALATION), key.2);
    KeysForAllExactly(SYSTEM, job.floors, Pool(job, SYSTEM), key);
  }

  /** Where the row of one condition and one item stands: condition by condition, item by item. */
  lemma {:induction false} KeysForAllAt(pool: string, conditions: seq<string>, items: seq<Item>, c: nat, k: nat)
    requires c < |conditions| && k < |items|
    ensures var keys := KeysForAll(pool, conditions, items); var at := |items| * c + k;
      at < |keys| && keys[at] == (pool, conditions[c], items[k].id)
  {
    KeysForAllLength(pool, conditions[1..], items);
    if c > 0 {
      KeysForAllAt(pool, conditions[1..], items, c - 1, k);
      assert |items| * c + k == |items| + (|items| * (c - 1) + k);
    }
  }

  /** The order of the loops: a row's pool and condition tell in which of the six it is asked for. */
  function Stage(key: Key): nat {
    if key.0 == "slm" then 0
    else if key.0 == "harness" then (if key.1 == "miner" then 1 else if key.1 == "B0" then 2 else 3)
    else if key.0 == "escalation" then 4
    else 5
  }

  ghost predicate AllIn(keys: seq<Key>, stage: nat) {
    forall i :: 0 <= i < |keys| ==> Stage(keys[i]) == stage
  }

  ghost predicate Staged(keys: seq<Key>, last: nat) {
    && (forall i, j :: 0 <= i < j < |keys| ==> Stage(keys[i]) <= Stage(keys[j]))
    && (forall i :: 0 <= i < |keys| ==> Stage(keys[i]) <= last)
  }

  lemma StageMore(keys: seq<Key>, more: seq<Key>, last: nat, stage: nat)
    requires Staged(keys, last) && AllIn(more, stage) && last <= stage
    ensures Staged(keys + more, stage)
  {
  }

  lemma {:induction false} KeysForAllIn(pool: string, conditions: seq<string>, items: seq<Item>, stage: nat)
    requires forall condition, id :: condition in conditions ==> Stage((pool, condition, id)) == stage
    ensures AllIn(KeysForAll(pool, conditions, items), stage)
  {
    if |conditions| > 0 {
      assert conditions[0] in conditions;
      KeysForAllIn(pool, conditions[1..], items, stage);
    }
  }

  /** Unless a reference is named like the miner or the bare model, the loops run one after the other in this order. */
  lemma StagesInOrder(job: Job, i: nat, j: nat)
    requires "miner" !in job.conditions && "B0" !in job.conditions && i < j < |RunKeys(job)|
    ensures Stage(RunKeys(job)[i]) <= Stage(RunKeys(job)[j])
  {
    var slm, harness := Pool(job, SLM), Pool(job, HARNESS);
    var a := KeysFor(SLM, MINER, Twins(slm, false) + Twins(slm, true));
    var b := if HARNESS in job.has then KeysFor(HARNESS, MINER, harness) else [];
    var c := KeysFor(HARNESS, BARE, harness);
    var d := KeysForAll(HARNESS, job.conditions, harness);
    var e := if ESCALATION in job.has then KeysFor(ESCALATION, REPAIR, Drafted(job, Pool(job, ESCALATION))) else [];
    var f := KeysForAll(SYSTEM, job.floors, Pool(job, SYSTEM));
    KeysForAllIn(HARNESS, job.conditions, harness, 3);
    KeysForAllIn(SYSTEM, job.floors, Pool(job, SYSTEM), 5);
    StageMore(a, b, 0, 1);
    StageMore(a + b, c, 1, 2);
    StageMore(a + b + c, d, 2, 3);
    StageMore(a + b + c + d, e, 3, 4);
    StageMore(a + b + c + d + e, f, 4, 5);
    assert RunKeys(job) == a + b + c + d + e + f;
  }

  /** The rows of the original questions come first of all, before those of their twins. */
  lemma OriginalsFirst(job: Job, k: nat)
    requires k < |Pool(job, "slm")|
    ensures var slm := Pool(job, "slm"); var n := CountTwins(slm, false);
      && |RunKeys(job)| >= |slm|
      && (k < n ==> k < |Twins(slm, false)| && RunKeys(job)[k] == ("slm", "miner", Twins(slm, false)[k].id))
      && (k >= n ==> k - n < |Twins(slm, true)| && RunKeys(job)[k] == ("slm", "miner", Twins(slm, true)[k - n].id))
  {
    var slm := Pool(job, SLM);
    TwinsSplit(slm);
    TwinsCount(slm, false);
  }

  lemma {:induction false} TwinsCount(items: seq<Item>, twins: bool)
    ensures |Twins(items, twins)| == CountTwins(items, twins)
  {
    if |items| > 0 {
      TwinsCount(items[1..], twins);
    }
  }

  // ---------------------------------------------------------------- one run

  /** Produces the row for a key, or None when it gives up and the run ends with an error. */
  type Engine = Key -> Option<Json>

  ghost predicate Answers(c: Codec, engine: Engine) {
    forall key :: engine(key).Some? ==> engine(key).value.Object? && RowKey(c, engine(key).value) == key
  }

  /** Every row is filed under its own key. */
  ghost predicate WellKeyed(c: Codec, rows: map<Key, Json>) {
    forall key :: key in rows ==> rows[key].Object? && RowKey(c, rows[key]) == key
  }

  /** Where a run stands: rows known, rows executed so far, rows of the transcript so far, and whether it gave up. */
  datatype Run = Run(rows: map<Key, Json>, executed: seq<Json>, entries: seq<Json>, failed: bool)

  function Step(run: Run, key: Key, engine: Engine): Run {
    if run.failed then run
    else if key in run.rows then run.(entries := run.entries + [run.rows[key]])
    else match engine(key)
      case None => run.(failed := true)
      case Some(row) => Run(run.rows[key := row], run.executed + [row], run.entries + [row], false)
  }

  function Steps(run: Run, keys: seq<Key>, engine: Engine): Run
    decreases |keys|
  {
    if |keys| == 0 then run else Steps(Step(run, keys[0], engine), keys[1..], engine)
  }

  lemma {:induction false} StepsAppend(run: Run, keys: seq<Key>, more: seq<Key>, engine: Engine)
    ensures Steps(run, keys + more, engine) == Steps(Steps(run, keys, engine), more, engine)
    decreases |keys|
  {
    if |keys| == 0 {
      assert keys + more == more;
    } else {
      StepsAppend(Step(run, keys[0], engine), keys[1..], more, engine);
      assert (keys + more)[1..] == keys[1..] + more;
    }
  }

  lemma {:induction false} FailedStays(run: Run, keys: seq<Key>, engine: Engine)
    requires run.failed
    ensures Steps(run, keys, engine) == run
    decreases |keys|
  {
    if |keys| > 0 {
      FailedStays(run, keys[1..], engine);
    }
  }

  /** A session: the loops of run_pools over a journal. */
  class Session {
    const job: Job
    const engine: Engine
    const journal: Journal
    var entries: seq<Json>
    var failed: bool
    ghost var executed: seq<Json>
    ghost const base: Bytes // the journal file as this session found it

    /** On disk, what was found is followed by one line for each row executed. */
    ghost predicate Valid()
      reads this, journal
    {
      Answers(journal.codec, engine) && journal.Valid() && journal.file == base + Lines(journal.codec, executed)
    }

    ghost function State(): Run
      reads this, journal
    {
      Run(journal.rows, executed, entries, failed)
    }

    constructor (job: Job, engine: Engine, journal: Journal)
      requires Answers(journal.codec, engine) && journal.Valid()
      ensures this.job == job && this.engine == engine && this.journal == journal && base == journal.file
      ensures Valid() && State() == Run(journal.rows, [], [], false)
    {
      this.job, this.engine, this.journal := job, engine, journal;
      this.entries, this.executed, this.failed := [], [], false;
      this.base := journal.file;
      new;
      assert journal.file == base + [];
    }

    /** reused, else generate or run_main, then finish. */
    method One(key: Key)
      requires Valid()
      modifies this, journal
      ensures Valid() && State() == Step(old(State()), key, engine)
    {
      if failed {
        return;
      }
      var kept := journal.Take(key.0, key.1, key.2);
      if kept.Some? {
        entries := entries + [kept.value];
      } else {
        var row := engine(key);
        if row.None? {
          failed := true;
        } else {
          journal.Add(row.value);
          LinesAppend(journal.codec, executed, [row.value]);
          assert Lines(journal.codec, [row.value]) == Line(journal.codec, row.value);
          Associative(base, Lines(journal.codec, executed), Line(journal.codec, row.value));
          executed := executed + [row.value];
          entries := entries + [row.value];
        }
      }
    }

    /** One pool under one condition. */
    method Each(pool: string, condition: string, items: seq<Item>)
      requires Valid()
      modifies this, journal
      ensures Valid() && State() == Steps(old(State()), KeysFor(pool, condition, items), engine)
    {
      ghost var keys := KeysFor(pool, condition, items);
      var i := 0;
      assert keys[0..] == keys;
      while i < |items|
        invariant 0 <= i <= |items| && Valid()
        invariant Steps(State(), keys[i..], engine) == Steps(old(State()), keys, engine)
      {
        assert keys[i..][0] == keys[i] && keys[i..][1..] == keys[i + 1..];
        One((pool, condition, items[i].id));
        i := i + 1;
      }
    }

    /** One pool under each of several conditions. */
    method EachOf(pool: string, conditions: seq<string>, items: seq<Item>)
      requires Valid()
      modifies this, journal
      ensures Valid() && State() == Steps(old(State()), KeysForAll(pool, conditions, items), engine)
    {
      var i := 0;
      assert conditions[0..] == conditions;
      while i < |conditions|
        invariant 0 <= i <= |conditions| && Valid()
        invariant Steps(State(), KeysForAll(pool, conditions[i..], items), engine)
          == Steps(old(State()), KeysForAll(pool, conditions, items), engine)
      {
        assert conditions[i..][0] == conditions[i] && conditions[i..][1..] == conditions[i + 1..];
        StepsAppend(State(), KeysFor(pool, conditions[i], items), KeysForAll(pool, conditions[i + 1..], items), engine);
        Each(pool, conditions[i], items);
        i := i + 1;
      }
    }

    /** An engine that gives up ends the run; here the remaining loops then pass without effect. */
    method RunPools()
      requires Valid()
      modifies this, journal
      ensures Valid() && State() == Steps(old(State()), RunKeys(job), engine)
    {
      ghost var start := State();
      var slm, harness := Pool(job, SLM), Pool(job, HARNESS);
      ghost var keys := KeysFor(SLM, MINER, Twins(slm, false) + Twins(slm, true));
      Each(SLM, MINER, Twins(slm, false) + Twins(slm, true));
      if HARNESS in job.has {
        StepsAppend(start, keys, KeysFor(HARNESS, MINER, harness), engine);
        keys := keys + KeysFor(HARNESS, MINER, harness);
        Each(HARNESS, MINER, harness);
      } else {
        assert keys + [] == keys;
      }
      StepsAppend(start, keys, KeysFor(HARNESS, BARE, harness), engine);
      keys := keys + KeysFor(HARNESS, BARE, harness);
      Each(HARNESS, BARE, harness);
      StepsAppend(start, keys, KeysForAll(HARNESS, job.conditions, harness), engine);
      keys := keys + KeysForAll(HARNESS, job.conditions, harness);
      EachOf(HARNESS, job.conditions, harness);
      if ESCALATION in job.has {
        var drafted := Drafted(job, Pool(job, ESCALATION));
        StepsAppend(start, keys, KeysFor(ESCALATION, REPAIR, drafted), engine);
        keys := keys + KeysFor(ESCALATION, REPAIR, drafted);
        Each(ESCALATION, REPAIR, drafted);
      } else {
        assert keys + [] == keys;
      }
      StepsAppend(start, keys, KeysForAll(SYSTEM, job.floors, Pool(job, SYSTEM)), engine);
      keys := keys + KeysForAll(SYSTEM, job.floors, Pool(job, SYSTEM));
      EachOf(SYSTEM, job.floors, Pool(job, SYSTEM));
      assert keys == RunKeys(job);
    }
  }

  // ---------------------------------------------------------------- what one run promises

  function KeysOf(c: Codec, entries: seq<Json>): (keys: seq<Key>)
    ensures |keys| == |entries| && forall i :: 0 <= i < |keys| ==> keys[i] == RowKey(c, entries[i])
  {
    seq(|entries|, i requires 0 <= i < |entries| => RowKey(c, entries[i]))
  }

  /** Nothing known is lost or executed again. */
  ghost predicate KnownKept(c: Codec, known: map<Key, Json>, run: Run) {
    && (forall key :: key in known ==> key in run.rows && run.rows[key] == known[key])
    && (forall row :: row in run.executed ==> row.Object? && RowKey(c, row) !in known && RowKey(c, row) in run.rows)
  }

  /** The transcript so far: for each key asked for, the row filed under it. */
  ghost predicate Filed(run: Run, keys: seq<Key>) {
    |run.entries| == |keys| && forall i :: 0 <= i < |keys| ==>
      keys[i] in run.rows && run.entries[i] == run.rows[keys[i]]
  }

  /** A run that started from known rows, has asked for keys, and has not lost or repeated anything. */
  ghost predicate Sound(c: Codec, known: map<Key, Json>, run: Run, keys: seq<Key>) {
    && WellKeyed(c, run.rows)
    && run.rows == Overlay(c, known, run.executed)
    && KnownKept(c, known, run)
    && Distinct(KeysOf(c, run.executed))
    && (!run.failed ==> Filed(run, keys))
  }

  lemma DistinctLast(c: Codec, executed: seq<Json>, row: Json)
    requires Distinct(KeysOf(c, executed))
    requires forall r :: r in executed ==> RowKey(c, r) != RowKey(c, row)
    ensures Distinct(KeysOf(c, executed + [row]))
  {
    var keys := KeysOf(c, executed + [row]);
    forall i, j | 0 <= i < j < |keys| ensures keys[i] != keys[j] {
      assert keys[i] == KeysOf(c, executed)[i] && executed[i] in executed;
      assert j < |executed| ==> keys[j] == KeysOf(c, executed)[j];
    }
  }

  lemma ExecuteSound(c: Codec, known: map<Key, Json>, run: Run, keys: seq<Key>, key: Key, row: Json)
    requires Sound(c, known, run, keys) && !run.failed && key !in run.rows && row.Object? && RowKey(c, row) == key
    ensures Sound(c, known, Run(run.rows[key := row], run.executed + [row], run.entries + [row], false), keys + [key])
  {
    var next := Run(run.rows[key := row], run.executed + [row], run.entries + [row], false);
    OverlayLast(c, known, run.executed, row);
    DistinctLast(c, run.executed, row);
    assert KnownKept(c, known, next);
    assert Filed(next, keys + [key]);
  }

  lemma StepSound(c: Codec, known: map<Key, Json>, run: Run, keys: seq<Key>, key: Key, engine: Engine)
    requires Answers(c, engine) && Sound(c, known, run, keys)
    ensures Sound(c, known, Step(run, key, engine), keys + [key])
  {
    if !run.failed {
      if key in run.rows {
        assert Filed(Step(run, key, engine), keys + [key]);
      } else if engine(key).Some? {
        ExecuteSound(c, known, run, keys, key, engine(key).value);
      }
    }
  }

  lemma {:induction false} StepsSound(c: Codec, known: map<Key, Json>, run: Run, done: seq<Key>, keys: seq<Key>,
                                      engine: Engine)
    requires Answers(c, engine) && Sound(c, known, run, done)
    ensures Sound(c, known, Steps(run, keys, engine), done + keys)
    decreases |keys|
  {
    if |keys| == 0 {
      assert done + keys == done;
    } else {
      StepSound(c, known, run, done, keys[0], engine);
      StepsSound(c, known, Step(run, keys[0], engine), done + [keys[0]], keys[1..], engine);
      assert done + keys == done + [keys[0]] + keys[1..];
    }
  }

  function Fresh(known: map<Key, Json>): Run {
    Run(known, [], [], false)
  }

  /** A whole run over known rows. */
  function WholeRun(job: Job, known: map<Key, Json>, engine: Engine): Run {
    Steps(Fresh(known), RunKeys(job), engine)
  }

  lemma WholeRunSound(c: Codec, job: Job, known: map<Key, Json>, engine: Engine)
    requires Answers(c, engine) && WellKeyed(c, known)
    ensures Sound(c, known, WholeRun(job, known, engine), RunKeys(job))
  {
    StepsSound(c, known, Fresh(known), [], RunKeys(job), engine);
    assert [] + RunKeys(job) == RunKeys(job);
  }

  lemma {:induction false} OverlayWellKeyed(c: Codec, rows: map<Key, Json>, more: seq<Json>)
    requires WellKeyed(c, rows) && Objects(more)
    ensures WellKeyed(c, Overlay(c, rows, more))
    decreases |more|
  {
    if |more| > 0 {
      OverlayWellKeyed(c, rows[RowKey(c, more[0]) := more[0]], more[1..]);
    }
  }

  lemma {:induction false} RowsAreObjects(c: Codec, raw: Bytes)
    ensures Objects(RowsIn(c, raw))
    decreases |raw|
  {
    if FirstGood(c, raw).Some? {
      RowsAreObjects(c, raw[FirstGood(c, raw).value.0 + 1..]);
    }
  }

  function RowsOnDisk(c: Codec, identity: Json, raw: Bytes): map<Key, Json> {
    ByKey(c, Found(c, identity, raw))
  }

  lemma DiskWellKeyed(c: Codec, identity: Json, raw: Bytes)
    ensures WellKeyed(c, RowsOnDisk(c, identity, raw))
  {
    RowsAreObjects(c, raw[HeaderBytes(c, identity, raw)..]);
    OverlayWellKeyed(c, map[], Found(c, identity, raw));
  }

  /**
   * Whatever bytes an earlier life left on disk, a run that completes gives the rows asked for, in order,
   * as many as were planned; a row found on disk is used as it is and not executed again, and no key is executed twice.
   */
  lemma AnyDiskAnyRun(c: Codec, identity: Json, job: Job, raw: Bytes, engine: Engine)
    requires Answers(c, engine)
    ensures var known := RowsOnDisk(c, identity, raw); var run := WholeRun(job, known, engine);
      && (!run.failed ==> KeysOf(c, run.entries) == RunKeys(job) && |run.entries| == Planned(job))
      && (forall i :: 0 <= i < |run.entries| && !run.failed && RunKeys(job)[i] in known ==>
            run.entries[i] == known[RunKeys(job)[i]])
      && (forall i :: 0 <= i < |run.executed| ==> RowKey(c, run.executed[i]) !in known)
      && Distinct(KeysOf(c, run.executed))
  {
    var known := RowsOnDisk(c, identity, raw);
    DiskWellKeyed(c, identity, raw);
    WholeRunSound(c, job, known, engine);
    PlanCountsRows(job);
    var run := WholeRun(job, known, engine);
    if !run.failed {
      assert forall i :: 0 <= i < |RunKeys(job)| ==> RowKey(c, run.entries[i]) == RunKeys(job)[i];
    }
  }

  // ---------------------------------------------------------------- many lives

  /** One life of the program: its engine, and how many bytes the disk holds when it is over. */
  datatype Life = Life(engine: Engine, left: nat)

  function Take(raw: Bytes, n: nat): Bytes {
    if n < |raw| then raw[..n] else raw
  }

  /** The disk after one life. */
  function After(c: Codec, identity: Json, job: Job, raw: Bytes, life: Life): Bytes {
    var run := WholeRun(job, RowsOnDisk(c, identity, raw), life.engine);
    Take(Kept(c, identity, raw) + Lines(c, run.executed), life.left)
  }

  function Lives(c: Codec, identity: Json, job: Job, raw: Bytes, lives: seq<Life>): Bytes
    decreases |lives|
  {
    if |lives| == 0 then raw else Lives(c, identity, job, After(c, identity, job, raw, lives[0]), lives[1..])
  }

  /** The disk holds the first bytes of a journal of these rows. */
  ghost predicate Holds(c: Codec, identity: Json, raw: Bytes, rows: seq<Json>) {
    Objects(rows) && raw <= Written(c, identity, rows)
  }

  /** One life reads back some leading rows, executes others, and leaves a prefix of both together. */
  lemma OneLife(c: Codec, identity: Json, job: Job, raw: Bytes, rows: seq<Json>, life: Life) returns (k: nat)
    requires Faithful(c) && Answers(c, life.engine) && Holds(c, identity, raw, rows)
    ensures k <= |rows| && Found(c, identity, raw) == rows[..k]
      && Kept(c, identity, raw) == Written(c, identity, rows[..k])
    ensures var run := WholeRun(job, RowsOnDisk(c, identity, raw), life.engine);
      && Sound(c, RowsOnDisk(c, identity, raw), run, RunKeys(job))
      && After(c, identity, job, raw, life) == Take(Written(c, identity, rows[..k] + run.executed), life.left)
      && Holds(c, identity, After(c, identity, job, raw, life), rows[..k] + run.executed)
  {
    assert raw == Written(c, identity, rows)[..|raw|];
    k := CrashRecovery(c, identity, rows, |raw|);
    DiskWellKeyed(c, identity, raw);
    WholeRunSound(c, job, RowsOnDisk(c, identity, raw), life.engine);
    var run := WholeRun(job, RowsOnDisk(c, identity, raw), life.engine);
    WrittenMore(c, identity, rows[..k], run.executed);
  }

  // ---------------------------------------------------------------- equal transcripts

  /** The engine gives the row f gives, or gives up. */
  ghost predicate Follows(c: Codec, engine: Engine, f: Key -> Json) {
    forall key :: engine(key).Some? ==> engine(key).value == f(key)
  }

  ghost predicate Produces(c: Codec, f: Key -> Json) {
    forall key :: f(key).Object? && RowKey(c, f(key)) == key
  }

  ghost predicate AllFrom(c: Codec, rows: seq<Json>, f: Key -> Json) {
    forall i :: 0 <= i < |rows| ==> rows[i] == f(RowKey(c, rows[i]))
  }

  ghost predicate MapFrom(rows: map<Key, Json>, f: Key -> Json) {
    forall key :: key in rows ==> rows[key] == f(key)
  }

  lemma {:induction false} OverlayFrom(c: Codec, rows: map<Key, Json>, more: seq<Json>, f: Key -> Json)
    requires MapFrom(rows, f) && AllFrom(c, more, f)
    ensures MapFrom(Overlay(c, rows, more), f)
    decreases |more|
  {
    if |more| > 0 {
      OverlayFrom(c, rows[RowKey(c, more[0]) := more[0]], more[1..], f);
    }
  }

  lemma {:induction false} StepsFrom(c: Codec, run: Run, keys: seq<Key>, engine: Engine, f: Key -> Json)
    requires Follows(c, engine, f) && Produces(c, f) && MapFrom(run.rows, f) && AllFrom(c, run.executed, f)
    ensures MapFrom(Steps(run, keys, engine).rows, f) && AllFrom(c, Steps(run, keys, engine).executed, f)
    decreases |keys|
  {
    if |keys| > 0 {
      StepsFrom(c, Step(run, keys[0], engine), keys[1..], engine, f);
    }
  }

  /** The transcript of a run that nothing interrupts. */
  function Uninterrupted(job: Job, f: Key -> Json): seq<Json> {
    WholeRun(job, map[], (key: Key) => Some(f(key))).entries
  }

  lemma {:induction false} NeverFails(run: Run, keys: seq<Key>, f: Key -> Json)
    requires !run.failed
    ensures !Steps(run, keys, (key: Key) => Some(f(key))).failed
    decreases |keys|
  {
    if |keys| > 0 {
      NeverFails(Step(run, keys[0], (key: Key) => Some(f(key))), keys[1..], f);
    }
  }

  ghost predicate EntriesFrom(entries: seq<Json>, keys: seq<Key>, f: Key -> Json) {
    |entries| == |keys| && forall i :: 0 <= i < |keys| ==> entries[i] == f(keys[i])
  }

  lemma CompletedIsFrom(c: Codec, job: Job, known: map<Key, Json>, engine: Engine, f: Key -> Json)
    requires Answers(c, engine) && Follows(c, engine, f) && Produces(c, f) && WellKeyed(c, known) && MapFrom(known, f)
    requires !WholeRun(job, known, engine).failed
    ensures EntriesFrom(WholeRun(job, known, engine).entries, RunKeys(job), f)
  {
    WholeRunSound(c, job, known, engine);
    StepsFrom(c, Fresh(known), RunKeys(job), engine, f);
  }

  ghost predicate AllFollow(c: Codec, lives: seq<Life>, f: Key -> Json) {
    forall i :: 0 <= i < |lives| ==> Answers(c, lives[i].engine) && Follows(c, lives[i].engine, f)
  }

  lemma {:induction false} LivesFrom(c: Codec, identity: Json, job: Job, raw: Bytes, rows: seq<Json>, lives: seq<Life>,
                                     f: Key -> Json)
    returns (rows': seq<Json>)
    requires Faithful(c) && Produces(c, f) && AllFollow(c, lives, f)
    requires Holds(c, identity, raw, rows) && AllFrom(c, rows, f)
    ensures Holds(c, identity, Lives(c, identity, job, raw, lives), rows') && AllFrom(c, rows', f)
    decreases |lives|
  {
    if |lives| == 0 {
      rows' := rows;
    } else {
      var life := lives[0];
      var k := OneLife(c, identity, job, raw, rows, life);
      OverlayFrom(c, map[], rows[..k], f);
      StepsFrom(c, Fresh(RowsOnDisk(c, identity, raw)), RunKeys(job), life.engine, f);
      var run := WholeRun(job, RowsOnDisk(c, identity, raw), life.engine);
      rows' := LivesFrom(c, identity, job, After(c, identity, job, raw, life), rows[..k] + run.executed, lives[1..], f);
    }
  }

  /** However often the program dies, and wherever, the life that completes leaves the transcript of an unbroken run. */
  lemma ResumeEquivalence(c: Codec, identity: Json, job: Job, lives: seq<Life>, last: Engine, f: Key -> Json)
    requires Faithful(c) && Produces(c, f) && AllFollow(c, lives, f) && Answers(c, last) && Follows(c, last, f)
    ensures var run := WholeRun(job, RowsOnDisk(c, identity, Lives(c, identity, job, [], lives)), last);
      !run.failed ==> run.entries == Uninterrupted(job, f)
  {
    var rows := LivesFrom(c, identity, job, [], [], lives, f);
    var raw := Lives(c, identity, job, [], lives);
    var known := RowsOnDisk(c, identity, raw);
    var k := OneLife(c, identity, job, raw, rows, Life(last, 0));
    OverlayFrom(c, map[], rows[..k], f);
    DiskWellKeyed(c, identity, raw);
    var always := (key: Key) => Some(f(key));
    NeverFails(Fresh(map[]), RunKeys(job), f);
    CompletedIsFrom(c, job, map[], always, f);
    if !WholeRun(job, known, last).failed {
      CompletedIsFrom(c, job, known, last, f);
    }
  }

  // ---------------------------------------------------------------- durable rows

  lemma {:induction false} OverlayKeeps(c: Codec, rows: map<Key, Json>, more: seq<Json>, key: Key)
    requires key in rows && forall i :: 0 <= i < |more| ==> RowKey(c, more[i]) != key
    ensures key in Overlay(c, rows, more) && Overlay(c, rows, more)[key] == rows[key]
    decreases |more|
  {
    if |more| > 0 {
      OverlayKeeps(c, rows[RowKey(c, more[0]) := more[0]], more[1..], key);
    }
  }

  lemma {:induction false} OverlayAppend(c: Codec, rows: map<Key, Json>, some: seq<Json>, more: seq<Json>)
    ensures Overlay(c, rows, some + more) == Overlay(c, Overlay(c, rows, some), more)
    decreases |some|
  {
    if |some| == 0 {
      assert some + more == more;
    } else {
      OverlayAppend(c, rows[RowKey(c, some[0]) := some[0]], some[1..], more);
      assert (some + more)[1..] == some[1..] + more;
    }
  }

  lemma WrittenGrows(c: Codec, identity: Json, rows: seq<Json>, k: nat)
    requires k <= |rows|
    ensures |Written(c, identity, rows[..k])| <= |Written(c, identity, rows)|
  {
    LinesAppend(c, rows[..k], rows[k..]);
    assert rows == rows[..k] + rows[k..];
  }

  /** A prefix that holds all the lines of some rows gives back those rows, and of the rows after them the first n. */
  lemma SyncedSurvives(c: Codec, identity: Json, found: seq<Json>, more: seq<Json>, size: nat) returns (n: nat)
    requires Faithful(c) && Objects(found + more)
    requires |Written(c, identity, found)| <= size <= |Written(c, identity, found + more)|
    ensures n <= |more| && Found(c, identity, Written(c, identity, found + more)[..size]) == found + more[..n]
  {
    var all := found + more;
    var l := CrashRecovery(c, identity, all, size);
    if l < |found| {
      assert all[..l + 1] == found[..l + 1];
      WrittenGrows(c, identity, found, l + 1);
    }
    n := l - |found|;
    assert all[..l] == found + more[..n];
  }

  /** The bytes a life found, once synced, outlast it; what it adds may be lost. */
  lemma DurableOneLife(c: Codec, identity: Json, job: Job, raw: Bytes, rows: seq<Json>, life: Life, key: Key)
    requires Faithful(c) && Answers(c, life.engine) && Holds(c, identity, raw, rows)
    requires |Kept(c, identity, raw)| <= life.left
    requires key in RowsOnDisk(c, identity, raw)
    ensures var after := RowsOnDisk(c, identity, After(c, identity, job, raw, life));
      key in after && after[key] == RowsOnDisk(c, identity, raw)[key]
  {
    var k := OneLife(c, identity, job, raw, rows, life);
    var found := rows[..k];
    var run := WholeRun(job, RowsOnDisk(c, identity, raw), life.engine);
    var all := found + run.executed;
    var after := After(c, identity, job, raw, life);
    assert after == Written(c, identity, all)[..|after|];
    WrittenGrows(c, identity, all, |found|);
    assert all[..|found|] == found;
    var n := SyncedSurvives(c, identity, found, run.executed, |after|);
    OverlayAppend(c, map[], found, run.executed[..n]);
    OverlayKeeps(c, RowsOnDisk(c, identity, raw), run.executed[..n], key);
  }

  /** No life loses the bytes it started from. */
  ghost predicate Synced(c: Codec, identity: Json, job: Job, raw: Bytes, lives: seq<Life>)
    decreases |lives|
  {
    |lives| == 0 ||
    (|Kept(c, identity, raw)| <= lives[0].left
     && Synced(c, identity, job, After(c, identity, job, raw, lives[0]), lives[1..]))
  }

  /** A row read back once is read back, unchanged, in every later life; so no later life executes it. */
  lemma {:induction false} DurableForever(c: Codec, identity: Json, job: Job, raw: Bytes, rows: seq<Json>,
                                          lives: seq<Life>, key: Key)
    requires Faithful(c) && Holds(c, identity, raw, rows) && Synced(c, identity, job, raw, lives)
    requires forall i :: 0 <= i < |lives| ==> Answers(c, lives[i].engine)
    requires key in RowsOnDisk(c, identity, raw)
    ensures var known := RowsOnDisk(c, identity, Lives(c, identity, job, raw, lives));
      && key in known && known[key] == RowsOnDisk(c, identity, raw)[key]
      && forall engine :: Answers(c, engine) ==>
           forall row :: row in WholeRun(job, known, engine).executed ==> RowKey(c, row) != key
    decreases |lives|
  {
    if |lives| == 0 {
      DiskWellKeyed(c, identity, raw);
      forall engine | Answers(c, engine)
        ensures forall row :: row in WholeRun(job, RowsOnDisk(c, identity, raw), engine).executed ==>
          RowKey(c, row) != key
      {
        WholeRunSound(c, job, RowsOnDisk(c, identity, raw), engine);
      }
    } else {
      var k := OneLife(c, identity, job, raw, rows, lives[0]);
      var run := WholeRun(job, RowsOnDisk(c, identity, raw), lives[0].engine);
      DurableOneLife(c, identity, job, raw, rows, lives[0], key);
      DurableForever(c, identity, job, After(c, identity, job, raw, lives[0]), rows[..k] + run.executed, lives[1..],
                     key);
    }
  }
}
