/** The weights a validator keeps: burned as a round opens, submitted as it settles, sent again while due. */
module WeightsKeeper {
  import opened Prelude

  const WEIGHTS_GAP_BLOCKS := 100
  const WEIGHTS_REFRESH_BLOCKS := 300

  type Vector = map<string, real>

  /** The state file. It is replaced whole, so it is either absent or one of these. */
  datatype Kept = Kept(block: int, weights: Vector, rounds: set<string>)

  /**
   * What the chain answers while weights are submitted: the hotkeys it knows, whether it took them, its head
   * afterwards.
   */
  datatype Chain = Chain(hotkeys: Result<set<string>>, taken: Result<bool>, head: Result<int>)

  datatype Reason = Burn(name: string) | Settle | Again(head: int, lastStep: Option<Result<int>>)

  /**
   * One submission: what was offered and why, whether the chain took it, and what block was written down, if the file
   * was reached.
   */
  datatype Entry = Entry(reason: Reason, weights: Vector, landed: bool, block: int, recorded: bool)

  /** The file, and everything submitted so far. */
  datatype State = State(file: Option<Kept>, log: seq<Entry>)

  // ---------------------------------------------------------------- one submission

  function KeptRounds(file: Option<Kept>): set<string> {
    if file.Some? then file.value.rounds else {}
  }

  /** The kept weights and the block they were sent at, when there are any weights. */
  function KeptWeights(file: Option<Kept>): Option<(Vector, int)> {
    if file.Some? && file.value.weights != map[] then Some((file.value.weights, file.value.block)) else None
  }

  function Remember(file: Option<Kept>, weights: Vector, block: int, rounds: set<string>): Kept {
    Kept(block, weights, KeptRounds(file) + rounds)
  }

  /** The chain takes the weights: it can be read, knows one of the hotkeys, and accepts. */
  function Landed(weights: Vector, chain: Chain): bool {
    chain.hotkeys.Ok? && weights.Keys * chain.hotkeys.value != {} && chain.taken.Ok? && chain.taken.value
  }

  /** The block written down: the head if the weights landed and it can be read, otherwise zero. */
  function BlockOf(weights: Vector, chain: Chain): int {
    if Landed(weights, chain) && chain.head.Ok? then chain.head.value else 0
  }

  function EntryFor(reason: Reason, weights: Vector, chain: Chain): Entry {
    Entry(reason, weights, Landed(weights, chain), BlockOf(weights, chain), true)
  }

  function Submitted(s: State, reason: Reason, weights: Vector, rounds: set<string>, chain: Chain): State {
    State(Some(Remember(s.file, weights, BlockOf(weights, chain), rounds)), s.log + [EntryFor(reason, weights, chain)])
  }

  /**
   * Long enough since the last send, and the chain has stepped since then or cannot say and the refresh interval is
   * over.
   */
  function Due(head: int, since: int, lastStep: Option<Result<int>>): bool {
    if head - since < WEIGHTS_GAP_BLOCKS then false
    else if lastStep.Some? && lastStep.value.Ok? then since <= lastStep.value.value
    else head - since >= WEIGHTS_REFRESH_BLOCKS
  }

  // ---------------------------------------------------------------- the three operations

  datatype Action =
    | SubmitWeights(weights: Vector, rounds: set<string>)
    | BurnForRound(name: string, owner: string)
    | RefreshWeights(head: Result<int>, lastStep: Option<Result<int>>)

  function Do(s: State, action: Action, chain: Chain): State {
    match action
    case SubmitWeights(weights, rounds) => Submitted(s, Settle, weights, rounds, chain)
    case BurnForRound(name, owner) =>
      if name in KeptRounds(s.file) || owner == "" then s
      else Submitted(s, Burn(name), map[owner := 1.0], {name}, chain)
    case RefreshWeights(head, lastStep) =>
      var kept := KeptWeights(s.file);
      if kept.None? || head.Err? || !Due(head.value, kept.value.1, lastStep) then s
      else Submitted(s, Again(head.value, lastStep), kept.value.0, {}, chain)
  }

  /** The operations as they run, each under the lock. */
  class Keeper {
    var file: Option<Kept>
    ghost var log: seq<Entry>

    ghost function Now(): State
      reads this
    {
      State(file, log)
    }

    constructor (file: Option<Kept>)
      ensures Now() == State(file, [])
    {
      this.file := file;
      this.log := [];
    }

    method RememberWeights(weights: Vector, block: int, rounds: set<string>)
      modifies this`file
      ensures file == Some(Remember(old(file), weights, block, rounds))
    {
      var known := KeptRounds(file) + rounds;
      file := Some(Kept(block, weights, known));
    }

    method Submit(ghost reason: Reason, weights: Vector, rounds: set<string>, chain: Chain)
      returns (sent: bool, why: string)
      modifies this
      ensures Now() == Submitted(old(Now()), reason, weights, rounds, chain)
      ensures sent <==> Landed(weights, chain)
    {
      sent, why := false, "none of the weights is on the metagraph";
      var block := 0;
      if chain.hotkeys.Err? {
        why := chain.hotkeys.reason;
      } else if weights.Keys * chain.hotkeys.value != {} {
        if chain.taken.Err? {
          why := chain.taken.reason;
        } else {
          sent, why := chain.taken.value, "";
          if sent && chain.head.Ok? {
            block := chain.head.value;
          }
        }
      }
      log := log + [Entry(reason, weights, sent, block, true)];
      RememberWeights(weights, block, rounds);
    }

    method SubmitWeights(weights: Vector, rounds: set<string>, chain: Chain) returns (sent: bool, why: string)
      modifies this
      ensures Now() == Do(old(Now()), Action.SubmitWeights(weights, rounds), chain)
      ensures sent <==> Landed(weights, chain)
    {
      sent, why := Submit(Settle, weights, rounds, chain);
    }

    /** Whether the round was burned for by this call. */
    method BurnForRound(name: string, owner: string, chain: Chain) returns (burned: bool)
      modifies this
      ensures Now() == Do(old(Now()), Action.BurnForRound(name, owner), chain)
      ensures burned <==> |log| > |old(log)|
    {
      if name in KeptRounds(file) {
        return false;
      }
      if owner == "" {
        return false;
      }
      var _, _ := Submit(Burn(name), map[owner := 1.0], {name}, chain);
      burned := true;
    }

    /** Fails when the head cannot be read while there is something to send again. */
    method RefreshWeights(head: Result<int>, lastStep: Option<Result<int>>, chain: Chain) returns (r: Result<bool>)
      modifies this
      ensures Now() == Do(old(Now()), Action.RefreshWeights(head, lastStep), chain)
      ensures r.Err? <==> KeptWeights(old(file)).Some? && head.Err?
      ensures r.Ok? ==> (r.value <==> |log| > |old(log)|)
    {
      var kept := KeptWeights(file);
      if kept.None? {
        return Ok(false);
      }
      if head.Err? {
        return Err(head.reason);
      }
      var (weights, since) := kept.value;
      if !Due(head.value, since, lastStep) {
        return Ok(false);
      }
      var _, _ := Submit(Again(head.value, lastStep), weights, {}, chain);
      r := Ok(true);
    }
  }

  // ---------------------------------------------------------------- runs

  /** One operation of a run; a killed one stops after the chain answered and before the file is replaced. */
  datatype Event = Event(action: Action, chain: Chain, killed: bool)

  function Unrecorded(before: seq<Entry>, after: seq<Entry>): seq<Entry> {
    if |after| > |before| then before + [after[|after| - 1].(recorded := false)] else before
  }

  function Step(s: State, e: Event): State {
    var next := Do(s, e.action, e.chain);
    if e.killed then State(s.file, Unrecorded(s.log, next.log)) else next
  }

  function Run(s: State, events: seq<Event>): State
    decreases |events|
  {
    if |events| == 0 then s else Run(Step(s, events[0]), events[1..])
  }

  /** Burns for a round that were submitted, or of those only the ones the chain took. */
  function Burns(log: seq<Entry>, name: string, taken: bool): nat {
    if |log| == 0 then 0
    else
      var last := log[|log| - 1];
      Burns(log[..|log| - 1], name, taken) + if last.reason == Burn(name) && (taken ==> last.landed) then 1 else 0
  }

  lemma BurnsMore(log: seq<Entry>, entry: Entry, name: string, taken: bool)
    ensures Burns(log + [entry], name, taken)
      == Burns(log, name, taken) + if entry.reason == Burn(name) && (taken ==> entry.landed) then 1 else 0
  {
    assert (log + [entry])[..|log|] == log;
  }

  /** A call that writes the round down: a burn for it, or a settlement, that runs to its end. */
  predicate Records(e: Event, name: string) {
    !e.killed && match e.action
      case SubmitWeights(_, rounds) => name in rounds
      case BurnForRound(round, owner) => round == name && owner != ""
      case RefreshWeights(_, _) => false
  }

  /** A call that submits a burn for a round that is not written down. */
  predicate BurnsFor(e: Event, name: string, taken: bool) {
    && e.action.BurnForRound? && e.action.name == name && e.action.owner != ""
    && (taken ==> Landed(map[e.action.owner := 1.0], e.chain))
  }

  /** How many burns for the round are cut off before any call writes it down. */
  function CutOff(events: seq<Event>, name: string, taken: bool): nat {
    if |events| == 0 || Records(events[0], name) then 0
    else (if BurnsFor(events[0], name, taken) then 1 else 0) + CutOff(events[1..], name, taken)
  }

  /** Whether the call that first writes the round down is a burn. */
  predicate RecordedByBurn(events: seq<Event>, name: string, taken: bool) {
    |events| > 0 &&
    if Records(events[0], name) then BurnsFor(events[0], name, taken) else RecordedByBurn(events[1..], name, taken)
  }

  // ---------------------------------------------------------------- rounds and burns over whole runs

  /**
   * When kept weights go out again: a hundred blocks on, and the chain has stepped since, or three hundred if it cannot
   * say.
   */
  lemma DueExactly(head: int, since: int, lastStep: Option<Result<int>>)
    ensures Due(head, since, lastStep) <==>
      head >= since + 100
      && match lastStep
         case Some(Ok(step)) => step >= since
         case _ => head >= since + 300
  {
  }

  /** A burn is offered once, the whole weight to the owner, and writes the round down. */
  lemma BurnExactly(s: State, name: string, owner: string, chain: Chain)
    requires name !in KeptRounds(s.file) && owner != ""
    ensures var next := Do(s, Action.BurnForRound(name, owner), chain);
      && |next.log| == |s.log| + 1 && next.log[..|s.log|] == s.log
      && next.log[|s.log|].weights == map[owner := 1.0] && next.log[|s.log|].reason == Burn(name)
      && next.file.Some? && next.file.value.weights == map[owner := 1.0]
      && next.file.value.rounds == KeptRounds(s.file) + {name}
    ensures Burns([], name, false) == 0 == Burns([], name, true)
  {
  }

  /** What was written down as landing is what the chain took: some of the hotkeys known, and the offer accepted. */
  lemma LandedExactly(weights: Vector, chain: Chain)
    ensures Landed(weights, chain) <==>
      chain.hotkeys.Ok? && (exists h :: h in weights && h in chain.hotkeys.value) && chain.taken == Ok(true)
    ensures BlockOf(weights, chain) == 0 || (chain.taken == Ok(true) && chain.head == Ok(BlockOf(weights, chain)))
    ensures Landed(weights, chain) && chain.head.Ok? ==> chain.head == Ok(BlockOf(weights, chain))
  {
    if h :| h in weights && chain.hotkeys.Ok? && h in chain.hotkeys.value {
      assert h in weights.Keys * chain.hotkeys.value;
    }
    if Landed(weights, chain) {
      var h :| h in weights.Keys * chain.hotkeys.value;
      assert h in weights;
    }
  }

  /** What one step does to the burns of a round and to whether it is written down. */
  lemma StepBurns(s: State, e: Event, name: string, taken: bool)
    ensures var next := Step(s, e); var open := name !in KeptRounds(s.file);
      && KeptRounds(s.file) <= KeptRounds(next.file)
      && Burns(next.log, name, taken) == Burns(s.log, name, taken) + (if open && BurnsFor(e, name, taken) then 1 else 0)
      && (open ==> (name in KeptRounds(next.file) <==> Records(e, name)))
  {
    var done := Do(s, e.action, e.chain);
    if |done.log| > |s.log| {
      var entry := done.log[|s.log|];
      BurnsMore(s.log, entry, name, taken);
      BurnsMore(s.log, entry.(recorded := false), name, taken);
      assert Step(s, e).log == s.log + [if e.killed then entry.(recorded := false) else entry];
    }
  }

  /** Recorded rounds only grow. */
  lemma {:induction false} RoundsOnlyGrow(s: State, events: seq<Event>)
    ensures KeptRounds(s.file) <= KeptRounds(Run(s, events).file)
    decreases |events|
  {
    if |events| > 0 {
      StepBurns(s, events[0], "", false);
      RoundsOnlyGrow(Step(s, events[0]), events[1..]);
    }
  }

  /**
   * Over any run the burns for a round are those cut off while it was not written down, and one more exactly if the
   * call that wrote it down was a burn; none once it was written down. The same counts the burns the chain took.
   */
  lemma {:induction false} BurnsExactly(s: State, events: seq<Event>, name: string, taken: bool)
    ensures Burns(Run(s, events).log, name, taken) - Burns(s.log, name, taken)
      == if name in KeptRounds(s.file) then 0
         else CutOff(events, name, taken) + if RecordedByBurn(events, name, taken) then 1 else 0
    decreases |events|
  {
    if |events| > 0 {
      StepBurns(s, events[0], name, taken);
      BurnsExactly(Step(s, events[0]), events[1..], name, taken);
    }
  }

  lemma {:induction false} NothingCutOff(events: seq<Event>, name: string, taken: bool)
    requires forall e :: e in events && e.killed ==> !BurnsFor(e, name, false)
    ensures CutOff(events, name, taken) == 0
  {
    if |events| > 0 {
      assert events[0] in events;
      NothingCutOff(events[1..], name, taken);
    }
  }

  /**
   * A round is burned for at most once exactly when no burn for it was cut off before it was written down, or just one
   * and no burn wrote it down after.
   */
  lemma BurnedOnce(s: State, events: seq<Event>, name: string, taken: bool)
    requires name !in KeptRounds(s.file)
    ensures var more := Burns(Run(s, events).log, name, taken) - Burns(s.log, name, taken);
      && (more <= 1 <==> CutOff(events, name, taken) == 0
                         || (CutOff(events, name, taken) == 1 && !RecordedByBurn(events, name, taken)))
      && ((forall e :: e in events && e.killed ==> !BurnsFor(e, name, false)) ==> more <= 1)
  {
    BurnsExactly(s, events, name, taken);
    if forall e :: e in events && e.killed ==> !BurnsFor(e, name, false) {
      NothingCutOff(events, name, taken);
    }
  }

  // ---------------------------------------------------------------- refreshing over whole runs

  ghost predicate OnlyRefreshes(events: seq<Event>) {
    forall i :: 0 <= i < |events| ==> events[i].action.RefreshWeights?
  }

  ghost predicate SameKept(a: Option<Kept>, b: Option<Kept>) {
    a.Some? == b.Some? && (a.Some? ==> a.value.weights == b.value.weights && a.value.rounds == b.value.rounds)
  }

  /**
   * However often weights are sent again, which weights and which rounds are kept does not change: after a burn they
   * stay the burn until something else is submitted.
   */
  lemma {:induction false} RefreshKeepsWeights(s: State, events: seq<Event>)
    requires OnlyRefreshes(events)
    ensures SameKept(s.file, Run(s, events).file)
    decreases |events|
  {
    if |events| > 0 {
      assert events[0].action.RefreshWeights?;
      RefreshKeepsWeights(Step(s, events[0]), events[1..]);
    }
  }

  ghost predicate HeadsBefore(events: seq<Event>, block: int) {
    forall i :: 0 <= i < |events| ==>
      events[i].action.RefreshWeights? && (events[i].action.head.Ok? ==> events[i].action.head.value < block)
  }

  /** No refresh sends anything for a hundred blocks after a send was written down. */
  lemma {:induction false} QuietAfterSend(s: State, events: seq<Event>)
    requires s.file.Some? && HeadsBefore(events, s.file.value.block + WEIGHTS_GAP_BLOCKS)
    ensures Run(s, events) == s
    decreases |events|
  {
    if |events| > 0 {
      assert events[0].action.RefreshWeights?;
      QuietAfterSend(s, events[1..]);
    }
  }

  /** The last submission that was written down. */
  function LastRecorded(log: seq<Entry>): Option<Entry> {
    if |log| == 0 then None
    else if log[|log| - 1].recorded then Some(log[|log| - 1])
    else LastRecorded(log[..|log| - 1])
  }

  /**
   * A submission that sends again what was sent before: the very weights written down last, and when they are due since
   * the block written down with them.
   */
  ghost predicate Repeats(entry: Entry, last: Option<Entry>) {
    entry.reason.Again? && last.Some? ==>
      entry.weights == last.value.weights && Due(entry.reason.head, last.value.block, entry.reason.lastStep)
  }

  /** The file holds what was written down last, and every resend of the log was due. */
  ghost predicate Invariant(s: State) {
    && (LastRecorded(s.log).Some? ==>
          s.file.Some? && s.file.value.weights == LastRecorded(s.log).value.weights
          && s.file.value.block == LastRecorded(s.log).value.block)
    && forall i :: 0 <= i < |s.log| ==> Repeats(s.log[i], LastRecorded(s.log[..i]))
  }

  lemma InvariantMore(s: State, entry: Entry, file: Option<Kept>)
    requires Invariant(s) && Repeats(entry, LastRecorded(s.log))
    requires entry.recorded ==> file.Some? && file.value.weights == entry.weights && file.value.block == entry.block
    requires !entry.recorded ==> file == s.file
    ensures Invariant(State(file, s.log + [entry]))
  {
    var log := s.log + [entry];
    assert log[..|s.log|] == s.log;
    forall i | 0 <= i < |log| ensures Repeats(log[i], LastRecorded(log[..i])) {
      if i < |s.log| {
        assert log[..i] == s.log[..i];
        assert Repeats(s.log[i], LastRecorded(s.log[..i]));
      }
    }
  }

  lemma StepKeepsInvariant(s: State, e: Event)
    requires Invariant(s)
    ensures Invariant(Step(s, e))
  {
    var done := Do(s, e.action, e.chain);
    if done != s {
      var entry := done.log[|s.log|];
      assert done.log == s.log + [entry];
      InvariantMore(s, if e.killed then entry.(recorded := false) else entry, if e.killed then s.file else done.file);
    }
  }

  lemma {:induction false} RunKeepsInvariant(s: State, events: seq<Event>)
    requires Invariant(s)
    ensures Invariant(Run(s, events))
    decreases |events|
  {
    if |events| > 0 {
      StepKeepsInvariant(s, events[0]);
      RunKeepsInvariant(Step(s, events[0]), events[1..]);
    }
  }

  /**
   * Over any run from any file, every resend offers the weights written down last, at least a hundred blocks past the
   * block written down with them, and not before the chain stepped at or after it; where the step cannot be read, at
   * least three hundred past.
   */
  lemma ResendsKeepTheirDistance(file: Option<Kept>, events: seq<Event>, i: nat)
    requires i < |Run(State(file, []), events).log|
    ensures var log := Run(State(file, []), events).log; var last := LastRecorded(log[..i]);
      && Repeats(log[i], last)
      && (log[i].reason.Again? && last.Some? ==>
            && log[i].reason.head - last.value.block >= WEIGHTS_GAP_BLOCKS
            && (Read(log[i]) ==> Stepped(log[i]) >= last.value.block)
            && (!Read(log[i]) ==> log[i].reason.head - last.value.block >= WEIGHTS_REFRESH_BLOCKS))
  {
    RunKeepsInvariant(State(file, []), events);
  }

  /** The chain could say when it last stepped, as a resend was decided. */
  predicate Read(entry: Entry) {
    entry.reason.Again? && entry.reason.lastStep.Some? && entry.reason.lastStep.value.Ok?
  }

  function Stepped(entry: Entry): int
    requires Read(entry)
  {
    entry.reason.lastStep.value.value
  }

  /**
   * A chain that can always be read and never runs backwards: every submission was written down, at blocks that never
   * fall, and every resend saw a step no later than the head, and the head no later than its block.
   */
  ghost predicate Orderly(log: seq<Entry>) {
    && (forall i :: 0 <= i < |log| ==> log[i].recorded)
    && (forall i, j :: 0 <= i <= j < |log| ==> log[i].block <= log[j].block)
    && (forall i :: 0 <= i < |log| && log[i].reason.Again? ==>
          Read(log[i]) && Stepped(log[i]) <= log[i].reason.head <= log[i].block)
  }

  lemma LastOfOrderly(log: seq<Entry>, j: nat)
    requires Orderly(log) && 0 < j < |log|
    ensures LastRecorded(log[..j]) == Some(log[j - 1])
  {
  }

  /** Between any send and a later resend the chain has stepped, no earlier than the block of that send. */
  lemma SteppedBetween(file: Option<Kept>, events: seq<Event>, i: nat, j: nat)
    requires var log := Run(State(file, []), events).log; Orderly(log) && i < j < |log| && log[j].reason.Again?
    ensures var log := Run(State(file, []), events).log;
      log[i].block <= Stepped(log[j]) <= log[j].block && log[i].block + WEIGHTS_GAP_BLOCKS <= log[j].block
  {
    var log := Run(State(file, []), events).log;
    ResendsKeepTheirDistance(file, events, j);
    LastOfOrderly(log, j);
    assert log[i].block <= log[j - 1].block;
  }

  /**
   * One resend a chain step: of two resends the later saw a later step, unless the earlier was written down at the very
   * block of the step it saw; and no three see one step.
   */
  lemma OncePerChainEpoch(file: Option<Kept>, events: seq<Event>, i: nat, j: nat)
    requires var log := Run(State(file, []), events).log;
      Orderly(log) && i < j < |log| && log[i].reason.Again? && log[j].reason.Again?
    ensures var log := Run(State(file, []), events).log;
      && Stepped(log[i]) <= Stepped(log[j])
      && (Stepped(log[i]) == Stepped(log[j]) ==> Stepped(log[i]) == log[i].block)
      && forall k :: j < k < |log| && log[k].reason.Again? ==> Stepped(log[i]) < Stepped(log[k])
  {
    var log := Run(State(file, []), events).log;
    SteppedBetween(file, events, i, j);
    forall k | j < k < |log| && log[k].reason.Again? ensures Stepped(log[i]) < Stepped(log[k]) {
      SteppedBetween(file, events, j, k);
    }
  }

  // ---------------------------------------------------------------- retries

  ghost predicate Unread(lastStep: Option<Result<int>>) {
    lastStep.None? || lastStep.value.Err?
  }

  /** Refreshes while the chain cannot say when it last stepped, all at heads below the refresh interval. */
  ghost predicate EarlyUnread(events: seq<Event>) {
    forall i :: 0 <= i < |events| ==>
      && events[i].action.RefreshWeights? && Unread(events[i].action.lastStep)
      && (events[i].action.head.Ok? ==> events[i].action.head.value < WEIGHTS_REFRESH_BLOCKS)
  }

  /**
   * A submission that did not land, or whose block could not be read, is written down at block zero. While the chain
   * cannot say when it last stepped, nothing is sent before block 300; the first refresh from there on sends the same
   * weights again.
   */
  lemma {:induction false} FailedSendIsRetried(
      s: State, reason: Reason, weights: Vector, rounds: set<string>, chain: Chain, early: seq<Event>, retry: Event)
    requires weights != map[] && (!Landed(weights, chain) || chain.head.Err?)
    requires EarlyUnread(early) && !retry.killed && retry.action.RefreshWeights? && Unread(retry.action.lastStep)
    requires retry.action.head.Ok? && retry.action.head.value >= WEIGHTS_REFRESH_BLOCKS
    ensures var failed := Submitted(s, reason, weights, rounds, chain);
      && Run(failed, early) == failed
      && Run(failed, early + [retry]).log
           == failed.log + [EntryFor(Again(retry.action.head.value, retry.action.lastStep), weights, retry.chain)]
    decreases |early|
  {
    var failed := Submitted(s, reason, weights, rounds, chain);
    if |early| > 0 {
      assert early[0].action.RefreshWeights?;
      assert (early + [retry])[1..] == early[1..] + [retry];
      FailedSendIsRetried(s, reason, weights, rounds, chain, early[1..], retry);
    } else {
      assert early + [retry] == [retry];
      assert Run(failed, [retry]) == Run(Step(failed, retry), []);
    }
  }

  lemma {:induction false} LogGrows(s: State, events: seq<Event>)
    ensures |Run(s, events).log| >= |s.log|
    decreases |events|
  {
    if |events| > 0 {
      LogGrows(Step(s, events[0]), events[1..]);
    }
  }

  /** A refresh that finds kept weights due, if they were written down at this block. */
  predicate DueFrom(e: Event, since: int) {
    e.action.RefreshWeights? && e.action.head.Ok? && Due(e.action.head.value, since, e.action.lastStep)
  }

  /** Refreshes leave everything as it is exactly when none of them is due from the block written down. */
  lemma {:induction false} SilentExactly(s: State, refreshes: seq<Event>)
    requires s.file.Some? && s.file.value.weights != map[] && OnlyRefreshes(refreshes)
    ensures Run(s, refreshes) == s <==>
      forall i :: 0 <= i < |refreshes| ==> !DueFrom(refreshes[i], s.file.value.block)
    decreases |refreshes|
  {
    if |refreshes| > 0 {
      assert refreshes[0].action.RefreshWeights?;
      if DueFrom(refreshes[0], s.file.value.block) {
        LogGrows(Step(s, refreshes[0]), refreshes[1..]);
        assert |Step(s, refreshes[0]).log| > |s.log|;
      } else {
        SilentExactly(s, refreshes[1..]);
        assert forall i :: 0 < i < |refreshes| ==> refreshes[i] == refreshes[1..][i - 1];
      }
    }
  }

  /**
   * After weights landed at a head, the refreshes of the next hundred blocks are silent exactly when that head could be
   * read, or none of them is due from block zero.
   */
  lemma SilentAfterLanding(s: State, reason: Reason, weights: Vector, rounds: set<string>, chain: Chain, head: int,
                           refreshes: seq<Event>)
    requires Landed(weights, chain) && (chain.head.Ok? ==> chain.head.value == head)
    requires HeadsBefore(refreshes, head + WEIGHTS_GAP_BLOCKS)
    ensures var sent := Submitted(s, reason, weights, rounds, chain);
      Run(sent, refreshes) == sent <==>
      chain.head.Ok? || forall i :: 0 <= i < |refreshes| ==> !DueFrom(refreshes[i], 0)
  {
    var sent := Submitted(s, reason, weights, rounds, chain);
    SilentExactly(sent, refreshes);
    if chain.head.Ok? {
      QuietAfterSend(sent, refreshes);
    }
  }

  /** A refresh that can read the head and the last step of the chain. */
  predicate SeesStep(e: Event, step: int) {
    e.action.RefreshWeights? && e.action.head.Ok? && e.action.lastStep == Some(Ok(step))
  }

  /**
   * The exception does occur: weights sent again at the block of a step are sent once more for that step, a hundred
   * blocks on; sent later than the step, they are not.
   */
  lemma SameStepAgain(s: State, step: int, refreshes: seq<Event>)
    requires s.file.Some? && s.file.value.weights != map[] && step <= s.file.value.block
    requires forall i :: 0 <= i < |refreshes| ==> SeesStep(refreshes[i], step)
    ensures Run(s, refreshes) == s <==>
      step < s.file.value.block || HeadsBefore(refreshes, s.file.value.block + WEIGHTS_GAP_BLOCKS)
  {
    SilentExactly(s, refreshes);
    forall i | 0 <= i < |refreshes|
      ensures DueFrom(refreshes[i], s.file.value.block) <==>
        step == s.file.value.block && refreshes[i].action.head.value >= s.file.value.block + WEIGHTS_GAP_BLOCKS
    {
      assert SeesStep(refreshes[i], step);
    }
  }
}
