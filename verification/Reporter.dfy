/** The progress reporter: publishers, one worker and a settle barrier, in every interleaving. */
module Progress {
  import opened Prelude

  const QUEUE_LIMIT: nat := 256

  /** A result posted for a miner. */
  type Body = string

  /** A progress note, or a body the worker treats as one. */
  type Note = string

  /** Where the worker is: not started, asleep or about to look, out of the lock with a call in flight, or gone. */
  datatype Worker =
    | Unborn
    | Looking
    | SendingResult(miner: string, body: Body)
    | SendingNote(note: Note)
    | Exited

  /** The fields of Reporter, the worker's program counter, and what was accepted, taken and sent so far. */
  datatype State = State(
    pending: seq<Note>,
    results: seq<(string, Body)>, // a dict, in insertion order
    sending: set<string>,
    settled: set<string>,
    closed: bool,
    worker: Worker,
    accepted: map<string, Body>,  // history: the last body accepted for each miner
    taken: map<string, Body>,     // history: the last body the worker took for each miner
    offered: seq<(string, Body)>, // history: every body accepted, with its miner
    noted: seq<Note>,             // history: every note accepted
    sent: map<string, Body>,      // history: the last body that was in flight for each miner
    told: seq<Note>)              // history: every note that was in flight

  const INITIAL := State([], [], {}, {}, false, Unborn, map[], map[], [], [], map[], [])

  // ---------------------------------------------------------------- dict and deque

  /** d[miner] = body: an existing key keeps its place. */
  function Put(results: seq<(string, Body)>, miner: string, body: Body): seq<(string, Body)> {
    if |results| == 0 then [(miner, body)]
    else if results[0].0 == miner then [(miner, body)] + results[1..]
    else [results[0]] + Put(results[1..], miner, body)
  }

  /** d.pop(miner, None) */
  function Pop(results: seq<(string, Body)>, miner: string): seq<(string, Body)> {
    if |results| == 0 then []
    else if results[0].0 == miner then results[1..]
    else [results[0]] + Pop(results[1..], miner)
  }

  function Miners(results: seq<(string, Body)>): (miners: seq<string>)
    ensures |miners| == |results| && forall i :: 0 <= i < |results| ==> miners[i] == results[i].0
  {
    seq(|results|, i requires 0 <= i < |results| => results[i].0)
  }

  /** deque(maxlen=QUEUE_LIMIT).append: the oldest note falls out. */
  function Push(pending: seq<Note>, note: Note): seq<Note> {
    var longer := pending + [note];
    if |longer| > QUEUE_LIMIT then longer[1..] else longer
  }

  function Started(worker: Worker): Worker {
    if worker.Unborn? then Looking else worker
  }

  // ---------------------------------------------------------------- the critical sections

  function Publish(s: State, miner: string, body: Body): State {
    if s.closed || miner in s.settled then s
    else s.(results := Put(s.results, miner, body), worker := Started(s.worker), accepted := s.accepted[miner := body],
            offered := s.offered + [(miner, body)])
  }

  /** A note that is not throttled. */
  function Enqueue(s: State, note: Note): State {
    if s.closed then s
    else s.(pending := Push(s.pending, note), worker := Started(s.worker), noted := s.noted + [note])
  }

  /** The part of settle before it waits. */
  function SettleBegin(s: State, miner: string): State {
    s.(settled := s.settled + {miner}, results := Pop(s.results, miner))
  }

  /** settle returns without having timed out. */
  predicate MaySettle(s: State, miner: string) {
    miner in s.settled && miner !in s.sending
  }

  function Close(s: State): State {
    s.(closed := true)
  }

  predicate Awake(s: State) {
    s.worker.Looking? && (|s.pending| > 0 || |s.results| > 0 || s.closed)
  }

  /** The critical section of _drain, and the branch after it: an empty name goes out as a note. */
  function Drain(s: State): State
    requires Awake(s)
  {
    if |s.results| > 0 then
      var (miner, body) := s.results[0];
      s.(results := s.results[1..],
         sending := s.sending + {miner},
         taken := s.taken[miner := body],
         worker := if miner != "" then SendingResult(miner, body) else SendingNote(body))
    else if |s.pending| > 0 then
      s.(pending := s.pending[1..], worker := SendingNote(s.pending[0]))
    else
      s.(worker := Exited)
  }

  /** The call returned or failed; a result leaves the set of those in flight either way. */
  function Sent(s: State): State
    requires s.worker.SendingResult? || s.worker.SendingNote?
  {
    if s.worker.SendingResult? then
      s.(sending := s.sending - {s.worker.miner}, worker := Looking, sent := s.sent[s.worker.miner := s.worker.body])
    else
      s.(worker := Looking, told := s.told + [s.worker.note])
  }

  // ---------------------------------------------------------------- the object

  /** Each method is one critical section under the condition variable. */
  class Reporter {
    var pending: seq<Note>
    var results: seq<(string, Body)>
    var sending: set<string>
    var settled: set<string>
    var closed: bool
    var worker: Worker
    ghost var accepted: map<string, Body>
    ghost var taken: map<string, Body>
    ghost var offered: seq<(string, Body)>
    ghost var noted: seq<Note>
    ghost var sent: map<string, Body>
    ghost var told: seq<Note>

    ghost function Now(): State
      reads this
    {
      State(pending, results, sending, settled, closed, worker, accepted, taken, offered, noted, sent, told)
    }

    constructor ()
      ensures Now() == INITIAL
    {
      pending, results, sending, settled := [], [], {}, {};
      closed, worker, accepted, taken := false, Unborn, map[], map[];
      offered, noted, sent, told := [], [], map[], [];
    }

    method Start()
      modifies this`worker
      ensures worker == Started(old(worker))
    {
      if worker.Unborn? {
        worker := Looking;
      }
    }

    method DoPublish(miner: string, body: Body)
      modifies this
      ensures Now() == Publish(old(Now()), miner, body)
    {
      if closed || miner in settled {
        return;
      }
      results := Put(results, miner, body);
      accepted := accepted[miner := body];
      offered := offered + [(miner, body)];
      Start();
    }

    method DoEnqueue(note: Note)
      modifies this
      ensures Now() == Enqueue(old(Now()), note)
    {
      if closed {
        return;
      }
      pending := pending + [note];
      if |pending| > QUEUE_LIMIT {
        pending := pending[1..];
      }
      noted := noted + [note];
      Start();
    }

    method DoSettleBegin(miner: string)
      modifies this
      ensures Now() == SettleBegin(old(Now()), miner)
    {
      settled := settled + {miner};
      results := Pop(results, miner);
    }

    method DoClose()
      modifies this
      ensures Now() == Close(old(Now()))
    {
      closed := true;
    }

    method DoDrain()
      requires Awake(Now())
      modifies this
      ensures Now() == Drain(old(Now()))
    {
      if |results| > 0 {
        var miner, result := results[0].0, results[0].1;
        results := results[1..];
        sending := sending + {miner};
        taken := taken[miner := result];
        worker := if miner != "" then SendingResult(miner, result) else SendingNote(result);
      } else if |pending| > 0 {
        worker := SendingNote(pending[0]);
        pending := pending[1..];
      } else {
        worker := Exited;
      }
    }

    method DoSent()
      requires worker.SendingResult? || worker.SendingNote?
      modifies this
      ensures Now() == Sent(old(Now()))
    {
      if worker.SendingResult? {
        sending := sending - {worker.miner};
        sent := sent[worker.miner := worker.body];
      } else {
        told := told + [worker.note];
      }
      worker := Looking;
    }
  }

  // ---------------------------------------------------------------- runs

  datatype Action =
    | APublish(miner: string, body: Body)
    | AEnqueue(note: Note)
    | ASettleBegin(miner: string)
    | AClose
    | ADrain
    | ASent

  predicate Enabled(s: State, a: Action) {
    match a
    case ADrain => Awake(s)
    case ASent => s.worker.SendingResult? || s.worker.SendingNote?
    case _ => true
  }

  function Do(s: State, a: Action): State
    requires Enabled(s, a)
  {
    match a
    case APublish(miner, body) => Publish(s, miner, body)
    case AEnqueue(note) => Enqueue(s, note)
    case ASettleBegin(miner) => SettleBegin(s, miner)
    case AClose => Close(s)
    case ADrain => Drain(s)
    case ASent => Sent(s)
  }

  /** Any interleaving of the threads' critical sections. */
  ghost predicate IsRun(trace: seq<State>) {
    && |trace| > 0 && trace[0] == INITIAL
    && forall i :: 0 <= i < |trace| - 1 ==> Next(trace[i], trace[i + 1])
  }

  ghost predicate Next(s: State, t: State) {
    exists a :: Enabled(s, a) && t == Do(s, a)
  }

  /** What every step keeps. */
  ghost predicate Invariant(s: State) {
    && Distinct(Miners(s.results))
    && (forall e :: e in s.results ==> e.0 !in s.settled)
    // in flight: exactly the worker's miner, and the empty name once it was ever taken
    && (forall m :: m in s.sending && m != "" ==> s.worker.SendingResult? && s.worker.miner == m)
    && (s.worker.SendingResult? ==> s.worker.miner != "" && s.worker.miner in s.sending)
    && ("" in s.sending <==> "" in s.taken)
    && (s.worker.Unborn? ==> |s.results| == 0 && |s.pending| == 0)
    && (s.worker.Exited? ==> s.closed && |s.results| == 0 && |s.pending| == 0)
    && |s.pending| <= QUEUE_LIMIT
    && (forall e :: e in s.results ==> e.0 in s.accepted && s.accepted[e.0] == e.1)
    // nothing accepted is lost: it waits with its last body, or that body was taken, or its miner was settled
    && (forall m :: m in s.accepted && m !in s.settled ==>
          (m, s.accepted[m]) in s.results || (m in s.taken && s.taken[m] == s.accepted[m]))
  }

  lemma {:induction false} PutFacts(results: seq<(string, Body)>, miner: string, body: Body)
    requires Distinct(Miners(results))
    ensures Distinct(Miners(Put(results, miner, body)))
    ensures forall e :: e in Put(results, miner, body) <==> e == (miner, body) || (e in results && e.0 != miner)
  {
    if |results| > 0 {
      TailDistinct(results);
      if results[0].0 == miner {
        ConsDistinct((miner, body), results[1..]);
      } else {
        PutFacts(results[1..], miner, body);
        ConsDistinct(results[0], Put(results[1..], miner, body));
      }
    }
  }

  lemma {:induction false} PopFacts(results: seq<(string, Body)>, miner: string)
    requires Distinct(Miners(results))
    ensures Distinct(Miners(Pop(results, miner)))
    ensures forall e :: e in Pop(results, miner) <==> e in results && e.0 != miner
  {
    if |results| > 0 {
      TailDistinct(results);
      PopFacts(results[1..], miner);
      var rest := Pop(results[1..], miner);
      if results[0].0 != miner {
        forall e | e in rest ensures e.0 != results[0].0 {
          assert e in results[1..];
        }
        ConsDistinct(results[0], rest);
      }
    }
  }

  lemma TailDistinct(results: seq<(string, Body)>)
    requires |results| > 0 && Distinct(Miners(results))
    ensures Distinct(Miners(results[1..]))
    ensures forall e :: e in results[1..] ==> e.0 != results[0].0
    ensures forall e :: e in results <==> e == results[0] || e in results[1..]
  {
    var tail := results[1..];
    assert results == [results[0]] + tail;
    forall i, j | 0 <= i < j < |tail| ensures Miners(tail)[i] != Miners(tail)[j] {
      assert Miners(results)[i + 1] != Miners(results)[j + 1];
    }
    forall e | e in tail ensures e.0 != results[0].0 {
      var k :| 0 <= k < |tail| && tail[k] == e;
      assert Miners(results)[0] != Miners(results)[k + 1];
    }
  }

  lemma ConsDistinct(first: (string, Body), rest: seq<(string, Body)>)
    requires Distinct(Miners(rest)) && forall e :: e in rest ==> e.0 != first.0
    ensures Distinct(Miners([first] + rest))
  {
    var all := [first] + rest;
    forall i, j | 0 <= i < j < |all| ensures Miners(all)[i] != Miners(all)[j] {
      assert all[j] in rest;
      assert i > 0 ==> Miners(rest)[i - 1] != Miners(rest)[j - 1];
    }
  }

  /** Every critical section keeps the invariant. */
  lemma StepKeepsInvariant(s: State, a: Action)
    requires Invariant(s) && Enabled(s, a)
    ensures Invariant(Do(s, a))
  {
    match a
    case APublish(miner, body) =>
      PutFacts(s.results, miner, body);
    case ASettleBegin(miner) =>
      PopFacts(s.results, miner);
    case ADrain =>
      if |s.results| > 0 {
        TailDistinct(s.results);
      }
    case _ =>
  }

  lemma {:induction false} RunInvariant(trace: seq<State>, i: nat)
    requires IsRun(trace) && i < |trace|
    ensures Invariant(trace[i])
  {
    if i > 0 {
      RunInvariant(trace, i - 1);
      assert Next(trace[i - 1], trace[i]);
      var a :| Enabled(trace[i - 1], a) && trace[i] == Do(trace[i - 1], a);
      StepKeepsInvariant(trace[i - 1], a);
    }
  }

  // ---------------------------------------------------------------- the settle barrier

  ghost predicate SameFor<T>(m: string, a: map<string, T>, b: map<string, T>) {
    (m in a <==> m in b) && (m in a ==> a[m] == b[m])
  }

  /** A settled miner is not queued, no further result of it is taken, and none newly goes out. */
  lemma SettledStepsAside(s: State, a: Action, m: string)
    requires Invariant(s) && Enabled(s, a) && m in s.settled
    ensures var t := Do(s, a);
      && m in t.settled
      && (forall e :: e in t.results ==> e.0 != m)
      && (m in t.sending ==> m in s.sending)
      && SameFor(m, s.taken, t.taken) && SameFor(m, s.accepted, t.accepted)
  {
    StepKeepsInvariant(s, a);
    if a.ADrain? && |s.results| > 0 {
      assert s.results[0] in s.results;
    }
  }

  ghost predicate NotTouched(s: State, m: string) {
    && MaySettle(s, m)
    && !(s.worker.SendingResult? && s.worker.miner == m)
    && forall e :: e in s.results ==> e.0 != m
  }

  lemma SettledUntouched(s: State, m: string)
    requires Invariant(s) && MaySettle(s, m)
    ensures NotTouched(s, m)
  {
  }

  lemma NextUntouched(s: State, t: State, m: string)
    requires Invariant(s) && Next(s, t) && MaySettle(s, m)
    ensures MaySettle(t, m) && SameFor(m, s.taken, t.taken)
  {
    var a :| Enabled(s, a) && t == Do(s, a);
    SettledStepsAside(s, a, m);
  }

  /** Once settle has returned for a miner, no partial result of it is queued, in flight or ever taken again. */
  lemma {:induction false} SettleBarrier(trace: seq<State>, i: nat, j: nat, m: string)
    requires IsRun(trace) && i <= j < |trace| && MaySettle(trace[i], m)
    ensures NotTouched(trace[j], m) && SameFor(m, trace[i].taken, trace[j].taken)
    decreases j - i
  {
    if i < j {
      SettleBarrier(trace, i, j - 1, m);
      RunInvariant(trace, j - 1);
      assert Next(trace[j - 1], trace[j]);
      NextUntouched(trace[j - 1], trace[j], m);
    }
    RunInvariant(trace, j);
    SettledUntouched(trace[j], m);
  }

  /**
   * settle can return, at once or when the call in flight ends, exactly when the name is not the empty name of a taken
   * result.
   */
  lemma SettleReturns(s: State, m: string)
    requires Invariant(s) && m in s.settled
    ensures (MaySettle(s, m) || (s.worker.SendingResult? && MaySettle(Sent(s), m))) <==> (m != "" || "" !in s.taken)
  {
  }

  lemma TakenStays(s: State, t: State)
    requires Next(s, t) && "" in s.taken
    ensures "" in t.taken
  {
  }

  lemma {:induction false} TakenForEver(trace: seq<State>, i: nat, j: nat)
    requires IsRun(trace) && i <= j < |trace| && "" in trace[i].taken
    ensures "" in trace[j].taken
    decreases j - i
  {
    if i < j {
      TakenForEver(trace, i, j - 1);
      assert Next(trace[j - 1], trace[j]);
      TakenStays(trace[j - 1], trace[j]);
    }
  }

  /** The empty name stays in flight for ever. */
  lemma EmptyNameStuck(trace: seq<State>, i: nat, j: nat)
    requires IsRun(trace) && i <= j < |trace| && "" in trace[i].taken
    ensures "" in trace[j].sending && !MaySettle(trace[j], "")
  {
    TakenForEver(trace, i, j);
    RunInvariant(trace, j);
  }

  // ---------------------------------------------------------------- the worker

  /**
   * The worker leaves only when closed with nothing queued; then nothing is queued again, and every accepted body was
   * taken.
   */
  lemma {:induction false} WorkerExit(trace: seq<State>, i: nat, j: nat)
    requires IsRun(trace) && i <= j < |trace| && trace[i].worker.Exited?
    ensures trace[j].worker.Exited? && trace[j].closed && trace[j].results == [] && trace[j].pending == []
    ensures forall m :: m in trace[j].accepted && m !in trace[j].settled ==>
      m in trace[j].taken && trace[j].taken[m] == trace[j].accepted[m]
    decreases j - i
  {
    RunInvariant(trace, j);
    if i < j {
      WorkerExit(trace, i, j - 1);
      assert Next(trace[j - 1], trace[j]);
      var a :| Enabled(trace[j - 1], a) && trace[j] == Do(trace[j - 1], a);
    }
  }

  /** When a critical section can run: the worker's when it looks and there is something to do or the end has come. */
  lemma WhenEnabled(s: State)
    ensures Enabled(s, ADrain) <==> s.worker == Looking && (s.results != [] || s.pending != [] || s.closed)
    ensures Enabled(s, ASent) <==> s.worker.SendingResult? || s.worker.SendingNote?
    ensures forall a: Action :: !a.ADrain? && !a.ASent? ==> Enabled(s, a)
  {
    assert |s.results| > 0 <==> s.results != [];
    assert |s.pending| > 0 <==> s.pending != [];
  }

  lemma RunsStart()
    ensures IsRun([INITIAL])
  {
  }

  /** Runs are what the initial state and the enabled sections make. */
  lemma RunsGrow(trace: seq<State>, a: Action)
    requires IsRun(trace) && Enabled(trace[|trace| - 1], a)
    ensures IsRun(trace + [Do(trace[|trace| - 1], a)])
  {
    var longer := trace + [Do(trace[|trace| - 1], a)];
    forall i | 0 <= i < |longer| - 1 ensures Next(longer[i], longer[i + 1]) {
      if i < |trace| - 1 {
        assert Next(trace[i], trace[i + 1]);
      }
    }
  }

  /** A note joins behind the others, in the place of the oldest only when 256 wait already. */
  lemma NoteJoins(s: State, note: Note)
    requires Invariant(s) && !s.closed
    ensures var t := Enqueue(s, note);
      && t.noted == s.noted + [note]
      && t.pending == (if |s.pending| < 256 then s.pending else s.pending[1..]) + [note]
  {
  }

  // ---------------------------------------------------------------- what is sent

  /** The last body among these for a miner. */
  function LastFor(offered: seq<(string, Body)>, m: string): Option<Body> {
    if |offered| == 0 then None
    else if offered[|offered| - 1].0 == m then Some(offered[|offered| - 1].1)
    else LastFor(offered[..|offered| - 1], m)
  }

  /** Results that wait, are in flight or were sent, are bodies accepted for their miner. */
  ghost predicate HonestResults(s: State) {
    && (forall e :: e in s.results ==> e in s.offered)
    && (s.worker.SendingResult? ==> (s.worker.miner, s.worker.body) in s.offered)
    && (forall m :: m in s.sent ==> (m, s.sent[m]) in s.offered)
  }

  /** Notes are notes, or bodies of the empty name; those that wait are the last that came, in their order. */
  ghost predicate HonestNotes(s: State) {
    && (forall e :: e in s.results ==> e in s.offered)
    && (s.worker.SendingNote? ==> s.worker.note in s.noted || ("", s.worker.note) in s.offered)
    && (forall note :: note in s.told ==> note in s.noted || ("", note) in s.offered)
    && |s.pending| <= |s.noted| && s.pending == s.noted[|s.noted| - |s.pending|..]
  }

  ghost predicate AcceptedLast(s: State) {
    forall m :: LastFor(s.offered, m) == if m in s.accepted then Some(s.accepted[m]) else None
  }

  /**
   * The last body accepted for a miner waits, is in flight, or was the last to be sent; that of the empty name goes out
   * as a note.
   */
  ghost predicate OnItsWay(s: State, m: string)
    requires m in s.accepted
  {
    || (m, s.accepted[m]) in s.results
    || (m != "" && s.worker == SendingResult(m, s.accepted[m]))
    || (m != "" && m in s.sent && s.sent[m] == s.accepted[m] && !(s.worker.SendingResult? && s.worker.miner == m))
    || (m == "" && (s.worker == SendingNote(s.accepted[m]) || s.accepted[m] in s.told))
  }

  ghost predicate Delivers(s: State) {
    forall m :: m in s.accepted && m !in s.settled ==> OnItsWay(s, m)
  }

  lemma ResultsStayHonest(s: State, a: Action)
    requires Invariant(s) && HonestResults(s) && Enabled(s, a)
    ensures HonestResults(Do(s, a))
  {
    match a
    case APublish(miner, body) =>
      PutFacts(s.results, miner, body);
    case ASettleBegin(miner) =>
      PopFacts(s.results, miner);
    case ADrain =>
      if |s.results| > 0 {
        assert s.results[0] in s.results;
      }
    case _ =>
  }

  lemma NotesStayHonest(s: State, a: Action)
    requires Invariant(s) && HonestNotes(s) && Enabled(s, a)
    ensures HonestNotes(Do(s, a))
  {
    match a
    case APublish(miner, body) =>
      PutFacts(s.results, miner, body);
    case ASettleBegin(miner) =>
      PopFacts(s.results, miner);
    case ADrain =>
      NotesTaken(s);
    case _ =>
  }

  lemma NotesTaken(s: State)
    requires HonestNotes(s) && Awake(s)
    ensures HonestNotes(Drain(s))
  {
    if |s.results| > 0 {
      assert s.results[0] in s.results && s.results[0] == (s.results[0].0, s.results[0].1);
    } else if |s.pending| > 0 {
      assert s.pending[0] == s.noted[|s.noted| - |s.pending|];
    }
  }

  lemma AcceptedStaysLast(s: State, a: Action)
    requires AcceptedLast(s) && Enabled(s, a)
    ensures AcceptedLast(Do(s, a))
  {
    if a.APublish? {
      assert (s.offered + [(a.miner, a.body)])[..|s.offered|] == s.offered;
    }
  }

  lemma StepDelivers(s: State, a: Action)
    requires Invariant(s) && Delivers(s) && Enabled(s, a)
    ensures Delivers(Do(s, a))
  {
    match a
    case APublish(miner, body) =>
      PutFacts(s.results, miner, body);
    case ASettleBegin(miner) =>
      PopFacts(s.results, miner);
    case ADrain =>
      if |s.results| > 0 {
        TailDistinct(s.results);
        assert s.results[0] in s.results;
      }
    case _ =>
  }

  lemma {:induction false} RunDelivers(trace: seq<State>, i: nat)
    requires IsRun(trace) && i < |trace|
    ensures HonestResults(trace[i]) && HonestNotes(trace[i]) && AcceptedLast(trace[i]) && Delivers(trace[i])
  {
    if i > 0 {
      RunDelivers(trace, i - 1);
      RunInvariant(trace, i - 1);
      assert Next(trace[i - 1], trace[i]);
      var a :| Enabled(trace[i - 1], a) && trace[i] == Do(trace[i - 1], a);
      ResultsStayHonest(trace[i - 1], a);
      NotesStayHonest(trace[i - 1], a);
      AcceptedStaysLast(trace[i - 1], a);
      StepDelivers(trace[i - 1], a);
    }
  }

  /** Whatever is in flight or was sent for a miner is a body that was accepted for that miner. */
  lemma SentWasAccepted(trace: seq<State>, i: nat)
    requires IsRun(trace) && i < |trace|
    ensures var s := trace[i];
      && (s.worker.SendingResult? ==> (s.worker.miner, s.worker.body) in s.offered)
      && (forall m :: m in s.sent ==> (m, s.sent[m]) in s.offered)
      && (forall note :: note in s.told ==> note in s.noted || ("", note) in s.offered)
  {
    RunDelivers(trace, i);
  }

  lemma {:induction false} PutKeepsPlaces(results: seq<(string, Body)>, miner: string, body: Body)
    ensures |results| <= |Put(results, miner, body)|
    ensures forall k :: 0 <= k < |results| ==> Put(results, miner, body)[k].0 == results[k].0
    ensures forall k :: |results| <= k < |Put(results, miner, body)| ==> Put(results, miner, body)[k] == (miner, body)
  {
    if |results| > 0 && results[0].0 != miner {
      PutKeepsPlaces(results[1..], miner, body);
    }
  }

  lemma {:induction false} PlaceAfterPop(results: seq<(string, Body)>, miner: string, j: nat) returns (l: nat)
    requires j < |results| && results[j].0 != miner
    ensures l < |Pop(results, miner)| && Pop(results, miner)[l] == results[j]
  {
    if results[0].0 == miner {
      l := j - 1;
    } else if j == 0 {
      l := 0;
    } else {
      l := PlaceAfterPop(results[1..], miner, j - 1);
      l := l + 1;
    }
  }

  lemma PopCons(results: seq<(string, Body)>, miner: string)
    requires |results| > 0 && results[0].0 != miner
    ensures Pop(results, miner) == [results[0]] + Pop(results[1..], miner)
  {
  }

  /** Where two of them stand after another was popped. */
  lemma {:induction false} PopKeepsOrder(results: seq<(string, Body)>, miner: string, i: nat, j: nat)
    returns (k: nat, l: nat)
    requires i < j < |results| && results[i].0 != miner && results[j].0 != miner
    ensures k < l < |Pop(results, miner)|
    ensures Pop(results, miner)[k] == results[i] && Pop(results, miner)[l] == results[j]
  {
    if results[0].0 == miner {
      k, l := i - 1, j - 1;
    } else if i == 0 {
      l := PlaceAfterPop(results[1..], miner, j - 1);
      k, l := 0, l + 1;
      PopCons(results, miner);
    } else {
      k, l := PopKeepsOrder(results[1..], miner, i - 1, j - 1);
      k, l := k + 1, l + 1;
      PopCons(results, miner);
    }
  }

  /** One miner's result stands before another's. */
  ghost predicate StandsBefore(results: seq<(string, Body)>, m: string, n: string) {
    forall k, l :: 0 <= k < |results| && 0 <= l < |results| && results[k].0 == m && results[l].0 == n ==> k < l
  }

  lemma SamePlace(results: seq<(string, Body)>, k: nat, i: nat)
    requires Distinct(Miners(results)) && k < |results| && i < |results| && results[k].0 == results[i].0
    ensures k == i
  {
    assert Miners(results)[k] == Miners(results)[i];
  }

  /** With every miner once, its place is the only one. */
  lemma OnlyPlaces(results: seq<(string, Body)>, i: nat, j: nat)
    requires Distinct(Miners(results)) && i < j < |results|
    ensures StandsBefore(results, results[i].0, results[j].0)
  {
    forall k, l | 0 <= k < |results| && 0 <= l < |results| && results[k].0 == results[i].0
      && results[l].0 == results[j].0
      ensures k < l
    {
      SamePlace(results, k, i);
      SamePlace(results, l, j);
    }
  }

  lemma OrderAfterPublish(results: seq<(string, Body)>, miner: string, body: Body, i: nat, j: nat)
    requires Distinct(Miners(results)) && i < j < |results|
    ensures StandsBefore(Put(results, miner, body), results[i].0, results[j].0)
  {
    PutFacts(results, miner, body);
    PutKeepsPlaces(results, miner, body);
    OnlyPlaces(Put(results, miner, body), i, j);
  }

  lemma OrderAfterSettle(results: seq<(string, Body)>, miner: string, i: nat, j: nat)
    requires Distinct(Miners(results)) && i < j < |results|
    ensures StandsBefore(Pop(results, miner), results[i].0, results[j].0)
  {
    PopFacts(results, miner);
    if results[i].0 != miner && results[j].0 != miner {
      var k, l := PopKeepsOrder(results, miner, i, j);
      OnlyPlaces(Pop(results, miner), k, l);
    } else {
      assert forall k :: 0 <= k < |Pop(results, miner)| ==> Pop(results, miner)[k] in Pop(results, miner);
    }
  }

  lemma OrderAfterTaking(results: seq<(string, Body)>, i: nat, j: nat)
    requires Distinct(Miners(results)) && i < j < |results|
    ensures results[1..][j - 1] == results[j]
    ensures StandsBefore(results[1..], results[i].0, results[j].0)
  {
    TailDistinct(results);
    if i > 0 {
      OnlyPlaces(results[1..], i - 1, j - 1);
    } else {
      assert forall k :: 0 <= k < |results[1..]| ==> results[1..][k] in results[1..];
    }
  }

  /**
   * First come, first served: while one miner's result waits ahead of another's, no step takes the later one, and
   * neither a new body nor a settled miner changes their order.
   */
  lemma FirstComeFirstServed(s: State, a: Action, i: nat, j: nat)
    requires Invariant(s) && Enabled(s, a) && i < j < |s.results|
    ensures a.ADrain? ==> s.results[j] in Do(s, a).results
    ensures StandsBefore(Do(s, a).results, s.results[i].0, s.results[j].0)
  {
    OnlyPlaces(s.results, i, j);
    match a
    case APublish(miner, body) =>
      OrderAfterPublish(s.results, miner, body, i, j);
    case ASettleBegin(miner) =>
      OrderAfterSettle(s.results, miner, i, j);
    case ADrain =>
      OrderAfterTaking(s.results, i, j);
    case _ =>
  }

  /** With no result waiting, the worker takes the oldest note that waits, and the later ones keep their order. */
  lemma OldestNoteFirst(trace: seq<State>, i: nat)
    requires IsRun(trace) && i < |trace| && Awake(trace[i])
    requires trace[i].results == [] && trace[i].pending != []
    ensures var s, t := trace[i], Drain(trace[i]);
      && |s.pending| <= |s.noted|
      && t.worker == SendingNote(s.noted[|s.noted| - |s.pending|])
      && t.pending == s.noted[|s.noted| - |s.pending| + 1..]
  {
    RunDelivers(trace, i);
  }

  /**
   * Once the worker has left, the last body accepted for each miner that was not settled is the last that was sent for
   * it; that of the empty name was sent as a note.
   */
  lemma AllSentOnExit(trace: seq<State>, i: nat, m: string)
    requires IsRun(trace) && i < |trace| && trace[i].worker.Exited? && m !in trace[i].settled
    ensures var s := trace[i];
      match LastFor(s.offered, m)
      case None => true
      case Some(body) => if m != "" then m in s.sent && s.sent[m] == body else body in s.told
  {
    RunDelivers(trace, i);
    RunInvariant(trace, i);
    assert m in trace[i].accepted ==> OnItsWay(trace[i], m);
  }

  /** Work left for the worker. */
  function Work(s: State): nat {
    2 * (|s.results| + |s.pending|)
    + match s.worker
      case Looking => 1
      case SendingResult(_, _) => 2
      case SendingNote(_) => 2
      case _ => 0
  }

  lemma {:induction false} PopShrinks(results: seq<(string, Body)>, miner: string)
    ensures |Pop(results, miner)| <= |results|
  {
    if |results| > 0 {
      PopShrinks(results[1..], miner);
    }
  }

  /** After close the worker always has a step to take, each of its steps leaves less work, and nothing adds any. */
  lemma ClosedDrains(s: State, a: Action)
    requires Invariant(s) && s.closed && Enabled(s, a)
    ensures Work(Do(s, a)) <= Work(s)
    ensures a.ADrain? || a.ASent? ==> Work(Do(s, a)) < Work(s)
    ensures s.worker.Looking? ==> Enabled(s, ADrain)
    ensures s.worker.SendingResult? || s.worker.SendingNote? ==> Enabled(s, ASent)
  {
    if a.ASettleBegin? {
      PopShrinks(s.results, a.miner);
    }
  }

}
