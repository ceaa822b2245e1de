/** The publication ladder, on scores counted in millionths, and the standings made from what it publishes. */
module Publication {
  import opened Prelude
  import opened Emission

  const UNIT := 1_000_000
  const LADDER_STEP := 10_000

  function Ladder(previous: Option<int>, score: int, step: int): int {
    if previous.None? then score
    else if score > previous.value + step then score
    else previous.value
  }

  // ---------------------------------------------------------------- whole runs of epochs

  /** What is published after each of the scores, epoch by epoch, each against what was published before it. */
  function Published(previous: Option<int>, scores: seq<int>): (r: seq<int>)
    ensures |r| == |scores|
    decreases |scores|
  {
    if |scores| == 0 then []
    else
      var value := Ladder(previous, scores[0], LADDER_STEP);
      [value] + Published(Some(value), scores[1..])
  }

  /** How often the published value is not the one before it. */
  function Changes(values: seq<int>): nat {
    if |values| < 2 then 0
    else (if values[1] != values[0] then 1 else 0) + Changes(values[1..])
  }

  ghost predicate InUnit(scores: seq<int>) {
    forall i :: 0 <= i < |scores| ==> 0 <= scores[i] <= UNIT
  }

  function Best(scores: seq<int>): int
    requires |scores| > 0
  {
    if |scores| == 1 then scores[0]
    else
      var before := Best(scores[..|scores| - 1]);
      if scores[|scores| - 1] > before then scores[|scores| - 1] else before
  }

  lemma {:induction false} BestIsMax(scores: seq<int>)
    requires |scores| > 0
    ensures Best(scores) in scores && forall i :: 0 <= i < |scores| ==> scores[i] <= Best(scores)
  {
    if |scores| > 1 {
      BestIsMax(scores[..|scores| - 1]);
    }
  }

  /** The run seen from its end: each value is the ladder's answer to the value before it. */
  lemma {:induction false} EachRung(previous: Option<int>, scores: seq<int>, i: nat)
    requires i < |scores|
    ensures var r := Published(previous, scores);
      r[i] == Ladder(if i == 0 then previous else Some(r[i - 1]), scores[i], LADDER_STEP)
    decreases i
  {
    if i > 0 {
      EachRung(Some(Ladder(previous, scores[0], LADDER_STEP)), scores[1..], i - 1);
    }
  }

  /** What is published never falls. */
  lemma {:induction false} NeverFalls(previous: Option<int>, scores: seq<int>, i: nat, j: nat)
    requires i <= j < |scores|
    ensures Published(previous, scores)[i] <= Published(previous, scores)[j]
    decreases j
  {
    if i < j {
      NeverFalls(previous, scores, i, j - 1);
      EachRung(previous, scores, j);
    }
  }

  /**
   * After every epoch the published value is one of the scores seen, and the best of them is at most one step above it.
   */
  lemma {:induction false} WithinAStepOfBest(scores: seq<int>, i: nat)
    requires i < |scores|
    ensures var value, seen := Published(None, scores)[i], scores[..i + 1];
      value in seen && value <= Best(seen) <= value + LADDER_STEP
    decreases i
  {
    var seen := scores[..i + 1];
    EachRung(None, scores, i);
    BestIsMax(seen);
    assert seen[i] == scores[i];
    if i > 0 {
      WithinAStepOfBest(scores, i - 1);
      assert seen[..i] == scores[..i];
      var earlier := Published(None, scores)[i - 1];
      var k :| 0 <= k < i && scores[..i][k] == earlier;
      assert seen[k] == earlier;
    } else {
      assert seen == [scores[0]];
    }
  }

  lemma {:induction false} ChangesCost(previous: Option<int>, scores: seq<int>)
    requires |scores| > 0
    ensures var r := Published(previous, scores);
      r[0] + Changes(r) * (LADDER_STEP + 1) <= r[|r| - 1]
    decreases |scores|
  {
    var r := Published(previous, scores);
    if |scores| > 1 {
      ChangesCost(Some(r[0]), scores[1..]);
      EachRung(previous, scores, 1);
      assert r[1..] == Published(Some(r[0]), scores[1..]);
    }
  }

  lemma {:induction false} PublishedFromScores(previous: Option<int>, scores: seq<int>)
    requires InUnit(scores) && (previous.Some? ==> 0 <= previous.value <= UNIT)
    ensures InUnit(Published(previous, scores))
    decreases |scores|
  {
    if |scores| > 0 {
      PublishedFromScores(Some(Ladder(previous, scores[0], LADDER_STEP)), scores[1..]);
    }
  }

  /** However many epochs run, the published value changes at most 99 times. */
  lemma AtMostNinetyNineChanges(previous: Option<int>, scores: seq<int>)
    requires InUnit(scores) && (previous.Some? ==> 0 <= previous.value <= UNIT)
    ensures Changes(Published(previous, scores)) <= 99
  {
    if |scores| > 0 {
      ChangesCost(previous, scores);
      PublishedFromScores(previous, scores);
    }
  }

  /** Scores that each clear the step by the least amount. */
  function Staircase(from: int, n: nat): seq<int>
    decreases n
  {
    if n == 0 then [] else [from] + Staircase(from + LADDER_STEP + 1, n - 1)
  }

  lemma {:induction false} StaircaseClimbs(from: int, n: nat, previous: Option<int>)
    requires previous.Some? ==> previous.value + LADDER_STEP < from
    ensures Published(previous, Staircase(from, n)) == Staircase(from, n)
    ensures Changes(Staircase(from, n)) == if n == 0 then 0 else n - 1
    ensures forall i :: 0 <= i < |Staircase(from, n)| ==>
      from <= Staircase(from, n)[i] <= from + (n - 1) * (LADDER_STEP + 1)
    decreases n
  {
    if n > 0 {
      var s := Staircase(from, n);
      StaircaseClimbs(from + LADDER_STEP + 1, n - 1, Some(from));
      assert s[1..] == Staircase(from + LADDER_STEP + 1, n - 1);
      assert n > 1 ==> s[1] == from + LADDER_STEP + 1;
    }
  }

  /** 99 is reached: the bound cannot be lowered. */
  lemma NinetyNineChangesHappen()
    ensures var scores := Staircase(0, 100); InUnit(scores) && Changes(Published(None, scores)) == 99
  {
    StaircaseClimbs(0, 100, None);
  }

  /** k is the first epoch of the best score up to epoch i. */
  ghost predicate FirstBest(scores: seq<int>, i: nat, k: nat) {
    && k <= i < |scores|
    && (forall j :: 0 <= j <= i ==> scores[j] <= scores[k])
    && (forall j :: 0 <= j < k ==> scores[j] < scores[k])
  }

  lemma {:induction false} FirstBestExists(scores: seq<int>, i: nat) returns (k: nat)
    requires i < |scores|
    ensures FirstBest(scores, i, k) && scores[k] == Best(scores[..i + 1])
    decreases i
  {
    k := 0;
    if i > 0 {
      k := FirstBestExists(scores, i - 1);
      if scores[i] > scores[k] {
        k := i;
      }
    }
    var seen := scores[..i + 1];
    BestIsMax(seen);
    assert seen[k] == scores[k];
  }

  /** While no score clears the step, what is published stays. */
  lemma {:induction false} Stays(previous: Option<int>, scores: seq<int>, i: nat, j: nat)
    requires i <= j < |scores|
    requires forall k :: i < k <= j ==> scores[k] <= Published(previous, scores)[i] + LADDER_STEP
    ensures Published(previous, scores)[j] == Published(previous, scores)[i]
    decreases j
  {
    if i < j {
      Stays(previous, scores, i, j - 1);
      EachRung(previous, scores, j);
    }
  }

  /**
   * Exactly when the best score so far is what is published: when its first epoch was the first of all, or cleared the
   * step over what was published then.
   */
  lemma BestPublishedExactly(scores: seq<int>, i: nat, k: nat)
    requires FirstBest(scores, i, k)
    ensures var r := Published(None, scores);
      r[i] == Best(scores[..i + 1]) <==> k == 0 || scores[k] > r[k - 1] + LADDER_STEP
  {
    var r, seen := Published(None, scores), scores[..i + 1];
    BestIsMax(seen);
    assert seen[k] == scores[k];
    EachRung(None, scores, k);
    if k == 0 || scores[k] > r[k - 1] + LADDER_STEP {
      NeverFalls(None, scores, k, i);
      WithinAStepOfBest(scores, i);
    } else {
      WithinAStepOfBest(scores, k - 1);
      var j :| 0 <= j < k && scores[..k][j] == r[k - 1];
      Stays(None, scores, k - 1, i);
    }
  }

  // ---------------------------------------------------------------- standings

  /** One pool's score of one artifact. */
  datatype PoolScore = PoolScore(pool: string, score: int, eligible: bool)

  datatype Artifact = Artifact(hotkey: string, sha: string, pool: string)

  function StandingOf(hotkey: string, score: PoolScore, previous: map<Artifact, int>, shas: map<string, string>,
                      blocks: map<string, int>): Standing
  {
    var key := Artifact(hotkey, if hotkey in shas then shas[hotkey] else "", score.pool);
    var best := if key in previous then Some(previous[key]) else None;
    Standing(hotkey, Ladder(best, score.score, LADDER_STEP) as real / UNIT as real, score.eligible,
             if hotkey in blocks then blocks[hotkey] else 0)
  }

  /**
   * What a standing says: the hotkey, its own eligibility and commit,
     and the better published value: what was published
   * of the same artifact in the same pool before, unless the score clears that by more than the step.
   */
  lemma StandingExactly(hotkey: string, score: PoolScore, previous: map<Artifact, int>, shas: map<string, string>,
                        blocks: map<string, int>)
    ensures var s := StandingOf(hotkey, score, previous, shas, blocks);
      var key := Artifact(hotkey, if hotkey in shas then shas[hotkey] else "", score.pool);
      && s.hotkey == hotkey && s.eligible == score.eligible
      && s.commitBlock == (if hotkey in blocks then blocks[hotkey] else 0)
      && (key !in previous || score.score > previous[key] + 10_000 ==> s.score * 1_000_000.0 == score.score as real)
      && (key in previous && score.score <= previous[key] + 10_000 ==> s.score * 1_000_000.0 == previous[key] as real)
  {
  }

  /** One score of one hotkey. */
  datatype Scored = Scored(hotkey: string, score: PoolScore)

  /** The standings of one pool, in the order the scores come. */
  function Listed(rows: seq<Scored>, pool: string, previous: map<Artifact, int>, shas: map<string, string>,
                  blocks: map<string, int>): seq<Standing>
  {
    if |rows| == 0 then []
    else
      var last := rows[|rows| - 1];
      Listed(rows[..|rows| - 1], pool, previous, shas, blocks)
      + if last.score.pool == pool then [StandingOf(last.hotkey, last.score, previous, shas, blocks)] else []
  }

  /** All the scores, hotkey by hotkey. */
  function Rows(scores: seq<(string, seq<PoolScore>)>): seq<Scored> {
    if |scores| == 0 then []
    else
      var last := scores[|scores| - 1];
      Rows(scores[..|scores| - 1]) + seq(|last.1|, i requires 0 <= i < |last.1| => Scored(last.0, last.1[i]))
  }

  function CountPool(rows: seq<Scored>, pool: string): nat {
    if |rows| == 0 then 0
    else CountPool(rows[..|rows| - 1], pool) + if rows[|rows| - 1].score.pool == pool then 1 else 0
  }

  lemma {:induction false} ListedCount(rows: seq<Scored>, pool: string, previous: map<Artifact, int>,
                                       shas: map<string, string>, blocks: map<string, int>)
    ensures |Listed(rows, pool, previous, shas, blocks)| == CountPool(rows, pool)
  {
    if |rows| > 0 {
      ListedCount(rows[..|rows| - 1], pool, previous, shas, blocks);
    }
  }

  /** A pool lists the standings of its own scores, in the order the scores come, and no others. */
  lemma {:induction false} ListedExactly(rows: seq<Scored>, pool: string, previous: map<Artifact, int>,
                                         shas: map<string, string>, blocks: map<string, int>, i: nat)
    requires i < |rows| && rows[i].score.pool == pool
    ensures var listed, k := Listed(rows, pool, previous, shas, blocks), CountPool(rows[..i], pool);
      && |listed| == CountPool(rows, pool)
      && k < |listed| && listed[k] == StandingOf(rows[i].hotkey, rows[i].score, previous, shas, blocks)
  {
    var n := |rows| - 1;
    ListedCount(rows, pool, previous, shas, blocks);
    ListedCount(rows[..n], pool, previous, shas, blocks);
    var before := Listed(rows[..n], pool, previous, shas, blocks);
    if i < n {
      ListedExactly(rows[..n], pool, previous, shas, blocks, i);
      assert rows[..n][..i] == rows[..i];
      assert Listed(rows, pool, previous, shas, blocks)[..|before|] == before;
    }
  }

  /** How many scores the hotkeys have before one of them. */
  function Before(scores: seq<(string, seq<PoolScore>)>): nat {
    if |scores| == 0 then 0 else Before(scores[..|scores| - 1]) + |scores[|scores| - 1].1|
  }

  /** Every score of every hotkey is there, in its place. */
  lemma {:induction false} RowsExactly(scores: seq<(string, seq<PoolScore>)>, i: nat, k: nat)
    requires i < |scores| && k < |scores[i].1|
    ensures var rows := Rows(scores);
      && |rows| == Before(scores) && Before(scores[..i]) + k < |rows|
      && rows[Before(scores[..i]) + k] == Scored(scores[i].0, scores[i].1[k])
  {
    var n := |scores| - 1;
    if i < n {
      RowsExactly(scores[..n], i, k);
      assert scores[..n][..i] == scores[..i];
    } else {
      RowsLength(scores[..n]);
    }
  }

  lemma {:induction false} RowsLength(scores: seq<(string, seq<PoolScore>)>)
    ensures |Rows(scores)| == Before(scores)
  {
    if |scores| > 0 {
      RowsLength(scores[..|scores| - 1]);
    }
  }

  function Names(): set<string> {
    set pool | pool in POOLS
  }

  ghost predicate Known(rows: seq<Scored>, names: set<string>) {
    forall row :: row in rows ==> row.score.pool in names
  }

  ghost predicate StandingsOf(byPool: map<string, seq<Standing>>, rows: seq<Scored>, previous: map<Artifact, int>,
                              shas: map<string, string>, blocks: map<string, int>)
  {
    forall pool :: pool in byPool ==> byPool[pool] == Listed(rows, pool, previous, shas, blocks)
  }

  /** Every score is listed once, in its own pool, at its published value; a score of an unknown pool fails. */
  method StandingsFor(scores: seq<(string, seq<PoolScore>)>, previous: map<Artifact, int>, shas: map<string, string>,
                      blocks: map<string, int>)
    returns (r: Result<map<string, seq<Standing>>>)
    ensures r.Ok? <==> Known(Rows(scores), Names())
    ensures r.Ok? ==> r.value.Keys == Names() && StandingsOf(r.value, Rows(scores), previous, shas, blocks)
  {
    var byPool: map<string, seq<Standing>> := map pool | pool in Names() :: [];
    for i := 0 to |scores|
      invariant byPool.Keys == Names() && Known(Rows(scores[..i]), byPool.Keys)
      invariant StandingsOf(byPool, Rows(scores[..i]), previous, shas, blocks)
    {
      RowsStep(scores, i);
      var next := AddScores(byPool, Rows(scores[..i]), scores[i].0, scores[i].1, previous, shas, blocks);
      if next.Err? {
        UnknownStays(scores, i, byPool.Keys);
        return next;
      }
      byPool := next.value;
      KnownMore(Rows(scores[..i]), scores[i].0, scores[i].1, byPool.Keys);
    }
    assert scores[..|scores|] == scores;
    r := Ok(byPool);
  }

  method AddScores(found: map<string, seq<Standing>>, ghost before: seq<Scored>, hotkey: string, own: seq<PoolScore>,
                   previous: map<Artifact, int>, shas: map<string, string>, blocks: map<string, int>)
    returns (r: Result<map<string, seq<Standing>>>)
    requires StandingsOf(found, before, previous, shas, blocks)
    ensures r.Ok? <==> AllKnown(own, found.Keys)
    ensures r.Ok? ==>
      r.value.Keys == found.Keys && StandingsOf(r.value, before + Own(hotkey, own), previous, shas, blocks)
  {
    var byPool := found;
    ghost var rows := before;
    assert before + Own(hotkey, own[..0]) == before;
    for k := 0 to |own|
      invariant byPool.Keys == found.Keys && AllKnown(own[..k], found.Keys) && rows == before + Own(hotkey, own[..k])
      invariant StandingsOf(byPool, rows, previous, shas, blocks)
    {
      if own[k].pool !in byPool {
        return Err("unknown pool");
      }
      byPool := AddScore(byPool, rows, hotkey, own[k], previous, shas, blocks);
      OwnStep(hotkey, own, k);
      rows := rows + [Scored(hotkey, own[k])];
    }
    assert own[..|own|] == own;
    r := Ok(byPool);
  }

  method AddScore(found: map<string, seq<Standing>>, ghost rows: seq<Scored>, hotkey: string, score: PoolScore,
                  previous: map<Artifact, int>, shas: map<string, string>, blocks: map<string, int>)
    returns (byPool: map<string, seq<Standing>>)
    requires StandingsOf(found, rows, previous, shas, blocks) && score.pool in found
    ensures byPool.Keys == found.Keys && StandingsOf(byPool, rows + [Scored(hotkey, score)], previous, shas, blocks)
  {
    ListOne(found, rows, Scored(hotkey, score), previous, shas, blocks);
    byPool := found[score.pool := found[score.pool] + [StandingOf(hotkey, score, previous, shas, blocks)]];
  }

  ghost predicate AllKnown(own: seq<PoolScore>, names: set<string>) {
    forall k :: 0 <= k < |own| ==> own[k].pool in names
  }

  function Own(hotkey: string, own: seq<PoolScore>): seq<Scored> {
    seq(|own|, i requires 0 <= i < |own| => Scored(hotkey, own[i]))
  }

  lemma OwnStep(hotkey: string, own: seq<PoolScore>, k: nat)
    requires k < |own|
    ensures Own(hotkey, own[..k + 1]) == Own(hotkey, own[..k]) + [Scored(hotkey, own[k])]
  {
  }

  lemma RowsStep(scores: seq<(string, seq<PoolScore>)>, i: nat)
    requires i < |scores|
    ensures Rows(scores[..i + 1]) == Rows(scores[..i]) + Own(scores[i].0, scores[i].1)
  {
    assert scores[..i + 1][..i] == scores[..i];
  }

  lemma ListOne(byPool: map<string, seq<Standing>>, rows: seq<Scored>, row: Scored, previous: map<Artifact, int>,
                shas: map<string, string>, blocks: map<string, int>)
    requires StandingsOf(byPool, rows, previous, shas, blocks) && row.score.pool in byPool
    ensures var pool := row.score.pool;
      StandingsOf(byPool[pool := byPool[pool] + [StandingOf(row.hotkey, row.score, previous, shas, blocks)]],
                  rows + [row], previous, shas, blocks)
  {
    assert (rows + [row])[..|rows|] == rows;
  }

  lemma {:induction false} RowsGrow(scores: seq<(string, seq<PoolScore>)>, i: nat, row: Scored)
    requires i <= |scores| && row in Rows(scores[..i])
    ensures row in Rows(scores)
    decreases |scores| - i
  {
    if i < |scores| {
      RowsStep(scores, i);
      RowsGrow(scores, i + 1, row);
    } else {
      assert scores[..i] == scores;
    }
  }

  lemma UnknownStays(scores: seq<(string, seq<PoolScore>)>, i: nat, names: set<string>)
    requires i < |scores| && !AllKnown(scores[i].1, names)
    ensures !Known(Rows(scores), names)
  {
    RowsStep(scores, i);
    var own := scores[i].1;
    var k :| 0 <= k < |own| && own[k].pool !in names;
    assert Own(scores[i].0, own)[k] == Scored(scores[i].0, own[k]);
    RowsGrow(scores, i + 1, Scored(scores[i].0, own[k]));
  }

  lemma KnownMore(rows: seq<Scored>, hotkey: string, own: seq<PoolScore>, names: set<string>)
    requires Known(rows, names) && AllKnown(own, names)
    ensures Known(rows + Own(hotkey, own), names)
  {
  }

  ghost predicate OncePerPool(rows: seq<Scored>) {
    forall i, j :: 0 <= i < j < |rows| ==> rows[i].hotkey != rows[j].hotkey || rows[i].score.pool != rows[j].score.pool
  }

  lemma {:induction false} ListedFrom(rows: seq<Scored>, pool: string, previous: map<Artifact, int>,
                                      shas: map<string, string>, blocks: map<string, int>, k: nat)
    requires k < |Listed(rows, pool, previous, shas, blocks)|
    ensures exists i ::
      && 0 <= i < |rows| && rows[i].score.pool == pool
      && rows[i].hotkey == Listed(rows, pool, previous, shas, blocks)[k].hotkey
  {
    var n := |rows| - 1;
    var before := Listed(rows[..n], pool, previous, shas, blocks);
    if k < |before| {
      ListedFrom(rows[..n], pool, previous, shas, blocks, k);
      var i :| 0 <= i < n && rows[..n][i].score.pool == pool && rows[..n][i].hotkey == before[k].hotkey;
      assert rows[i].hotkey == before[k].hotkey;
    } else {
      assert rows[n].score.pool == pool;
    }
  }

  /** With one score a hotkey and pool, no pool lists a hotkey twice. */
  lemma {:induction false} StandingsDistinct(
      rows: seq<Scored>, pool: string, previous: map<Artifact, int>, shas: map<string, string>,
      blocks: map<string, int>)
    requires OncePerPool(rows)
    ensures DistinctHotkeys(Listed(rows, pool, previous, shas, blocks))
  {
    if |rows| > 0 {
      var n := |rows| - 1;
      var before := Listed(rows[..n], pool, previous, shas, blocks);
      StandingsDistinct(rows[..n], pool, previous, shas, blocks);
      if rows[n].score.pool == pool {
        forall k | 0 <= k < |before| ensures before[k].hotkey != rows[n].hotkey {
          ListedFrom(rows[..n], pool, previous, shas, blocks, k);
          var i :| 0 <= i < n && rows[..n][i].score.pool == pool && rows[..n][i].hotkey == before[k].hotkey;
          assert rows[i] == rows[..n][i];
        }
      }
    }
  }
}
