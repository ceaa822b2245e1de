/** Which operators the serving pool leaves out: the team, and all but the best hotkey of a coldkey. */
module Exclusion {
  import opened Sorting
  import opened Dicts
  import opened Sums
  import Strings

  /** A settled card; counts, so never negative. An operator without a coldkey has the empty one. */
  datatype Settled = Settled(operator: string, billing: nat, score: nat, coldkey: string, team: bool,
                             firstLive: seq<string>)

  const TEAM := "team"
  const COLDKEY := "coldkey"

  // ---------------------------------------------------------------- who is excluded

  function Score(rows: seq<Settled>, operator: string): nat {
    if |rows| == 0 then 0
    else Score(rows[..|rows| - 1], operator)
         + if rows[|rows| - 1].operator == operator then rows[|rows| - 1].score else 0
  }

  predicate Serves(rows: seq<Settled>, operator: string) {
    |rows| > 0 && (rows[|rows| - 1].operator == operator || Serves(rows[..|rows| - 1], operator))
  }

  predicate OnTeam(rows: seq<Settled>, operator: string) {
    |rows| > 0 &&
    ((rows[|rows| - 1].operator == operator && rows[|rows| - 1].team) || OnTeam(rows[..|rows| - 1], operator))
  }

  /** The coldkey of the operator's last row that names one, or the empty one. */
  function ColdkeyOf(rows: seq<Settled>, operator: string): string {
    if |rows| == 0 then ""
    else
      var last := rows[|rows| - 1];
      if last.operator == operator && last.coldkey != "" then last.coldkey else ColdkeyOf(rows[..|rows| - 1], operator)
  }

  /** (total, name) of a is at most that of b. */
  predicate RankLe(rows: seq<Settled>, a: string, b: string) {
    Score(rows, a) < Score(rows, b) || (Score(rows, a) == Score(rows, b) && Strings.Le(a, b))
  }

  /** May stand for a coldkey: an operator that names it and is not the team's. */
  predicate Stands(rows: seq<Settled>, operator: string, coldkey: string) {
    Serves(rows, operator) && coldkey != "" && ColdkeyOf(rows, operator) == coldkey && !OnTeam(rows, operator)
  }

  /** The best of those that stand for a coldkey. */
  ghost predicate Leads(rows: seq<Settled>, operator: string, coldkey: string) {
    Stands(rows, operator, coldkey) &&
    forall other :: Stands(rows, other, coldkey) ==> RankLe(rows, other, operator)
  }

  /** What excluded_of must find. */
  ghost predicate IsExclusion(rows: seq<Settled>, found: map<string, string>) {
    forall operator ::
      && (operator in found <==>
            OnTeam(rows, operator) ||
            (ColdkeyOf(rows, operator) != "" && !Leads(rows, operator, ColdkeyOf(rows, operator))))
      && (operator in found ==> found[operator] == if OnTeam(rows, operator) then TEAM else COLDKEY)
  }

  lemma RankLeOrders(rows: seq<Settled>)
    ensures forall a, b :: RankLe(rows, a, b) || RankLe(rows, b, a)
    ensures forall a, b, c :: RankLe(rows, a, b) && RankLe(rows, b, c) ==> RankLe(rows, a, c)
    ensures forall a, b :: RankLe(rows, a, b) && RankLe(rows, b, a) ==> a == b
  {
    Strings.LeOrdering();
  }

  lemma {:induction false} ColdkeyServes(rows: seq<Settled>, operator: string)
    requires ColdkeyOf(rows, operator) != ""
    ensures Serves(rows, operator)
  {
    var last := |rows| - 1;
    if !(rows[last].operator == operator && rows[last].coldkey != "") {
      ColdkeyServes(rows[..last], operator);
    }
  }

  /** The dicts filled by the first loop, after these rows. */
  ghost predicate Gathered(rows: seq<Settled>, totals: map<string, nat>, coldkeys: map<string, string>,
                           team: map<string, string>)
  {
    && (forall o :: (o in totals <==> Serves(rows, o)) && (o in totals ==> totals[o] == Score(rows, o)))
    && (forall o ::
          && (o in coldkeys <==> ColdkeyOf(rows, o) != "")
          && (o in coldkeys ==> coldkeys[o] == ColdkeyOf(rows, o)))
    && (forall o :: (o in team <==> OnTeam(rows, o)) && (o in team ==> team[o] == TEAM))
  }

  lemma {:induction false} ScoreAbsent(rows: seq<Settled>, operator: string)
    requires !Serves(rows, operator)
    ensures Score(rows, operator) == 0
  {
    if |rows| > 0 {
      ScoreAbsent(rows[..|rows| - 1], operator);
    }
  }

  lemma GatherOne(rows: seq<Settled>, row: Settled, totals: map<string, nat>, coldkeys: map<string, string>,
                  team: map<string, string>)
    requires Gathered(rows, totals, coldkeys, team)
    ensures Gathered(rows + [row],
      totals[row.operator := Get(totals, row.operator, 0) + row.score],
      if row.coldkey != "" then coldkeys[row.operator := row.coldkey] else coldkeys,
      if row.team then team[row.operator := TEAM] else team)
  {
    var all := rows + [row];
    assert all[..|all| - 1] == rows;
    if row.operator !in totals {
      ScoreAbsent(rows, row.operator);
    }
  }

  method Gather(rows: seq<Settled>)
    returns (totals: map<string, nat>, coldkeys: map<string, string>, team: map<string, string>)
    ensures Gathered(rows, totals, coldkeys, team)
  {
    totals, coldkeys, team := map[], map[], map[];
    var i := 0;
    while i < |rows|
      invariant 0 <= i <= |rows|
      invariant Gathered(rows[..i], totals, coldkeys, team)
    {
      var row := rows[i];
      GatherOne(rows[..i], row, totals, coldkeys, team);
      assert rows[..i + 1] == rows[..i] + [row];
      totals := totals[row.operator := Get(totals, row.operator, 0) + row.score];
      if row.coldkey != "" {
        coldkeys := coldkeys[row.operator := row.coldkey];
      }
      if row.team {
        team := team[row.operator := TEAM];
      }
      i := i + 1;
    }
    assert rows[..i] == rows;
  }

  /** best, after the operators in done: for each coldkey the highest of them that stands for it. */
  ghost predicate BestOf(rows: seq<Settled>, done: set<string>, best: map<string, string>) {
    && (forall k :: k in best ==> best[k] in done && Stands(rows, best[k], k))
    && (forall o, k :: o in done && Stands(rows, o, k) ==> k in best && RankLe(rows, o, best[k]))
  }

  /** The next operator takes the place of the leader it beats. */
  function Lead(totals: map<string, nat>, best: map<string, string>, operator: string,
                coldkey: string): map<string, string>
  {
    if coldkey !in best || Better(totals, operator, best[coldkey]) then best[coldkey := operator] else best
  }

  lemma LeadKeepsBest(rows: seq<Settled>, totals: map<string, nat>, done: set<string>, best: map<string, string>,
                      operator: string, coldkey: string)
    requires TotalsAreScores(rows, totals)
    requires BestOf(rows, done, best) && Stands(rows, operator, coldkey)
    ensures BestOf(rows, done + {operator}, Lead(totals, best, operator, coldkey))
  {
    RankLeOrders(rows);
    var next := Lead(totals, best, operator, coldkey);
    forall o, k | o in done + {operator} && Stands(rows, o, k) ensures k in next && RankLe(rows, o, next[k]) {
      if o in done && k == coldkey {
        assert RankLe(rows, o, best[k]);
      }
    }
  }

  ghost predicate TotalsAreScores(rows: seq<Settled>, totals: map<string, nat>) {
    forall o :: Get(totals, o, 0) == Score(rows, o)
  }

  lemma GatheredScores(rows: seq<Settled>, totals: map<string, nat>, coldkeys: map<string, string>,
                       team: map<string, string>)
    requires Gathered(rows, totals, coldkeys, team)
    ensures TotalsAreScores(rows, totals)
  {
    forall o ensures Get(totals, o, 0) == Score(rows, o) {
      if o !in totals {
        ScoreAbsent(rows, o);
      }
    }
  }

  /** done and todo together are all the names. */
  ghost predicate Covers(names: set<string>, done: set<string>, todo: seq<string>) {
    forall o :: o in names <==> o in done || o in todo
  }

  lemma CoversNext(names: set<string>, done: set<string>, todo: seq<string>)
    requires Covers(names, done, todo)
    ensures |todo| == 0 ==> done == names
    ensures |todo| > 0 ==> todo[0] in names && Covers(names, done + {todo[0]}, todo[1..])
  {
    if |todo| > 0 {
      assert todo[0] in todo && todo == [todo[0]] + todo[1..];
    }
  }

  method Leaders(rows: seq<Settled>, totals: map<string, nat>, coldkeys: map<string, string>, team: map<string, string>)
    returns (best: map<string, string>)
    requires Gathered(rows, totals, coldkeys, team)
    ensures BestOf(rows, coldkeys.Keys, best)
  {
    best := map[];
    GatheredScores(rows, totals, coldkeys, team);
    Strings.NamesSorted(coldkeys.Keys);
    var todo := Strings.SortedNames(coldkeys.Keys);
    ghost var done: set<string> := {};
    while |todo| > 0
      invariant Covers(coldkeys.Keys, done, todo)
      invariant BestOf(rows, done, best)
      decreases |todo|
    {
      CoversNext(coldkeys.Keys, done, todo);
      best := LeadNext(rows, totals, coldkeys, team, done, best, todo[0]);
      done := done + {todo[0]};
      todo := todo[1..];
    }
    CoversNext(coldkeys.Keys, done, todo);
  }

  method LeadNext(rows: seq<Settled>, totals: map<string, nat>, coldkeys: map<string, string>,
                  team: map<string, string>, ghost done: set<string>, best: map<string, string>, operator: string)
    returns (next: map<string, string>)
    requires Gathered(rows, totals, coldkeys, team) && TotalsAreScores(rows, totals)
    requires BestOf(rows, done, best) && operator in coldkeys
    ensures BestOf(rows, done + {operator}, next)
  {
    if operator !in team {
      LeadKept(rows, totals, coldkeys, team, done, best, operator);
      next := Lead(totals, best, operator, coldkeys[operator]);
    } else {
      TeamPassed(rows, done, best, operator);
      next := best;
    }
  }

  lemma LeadKept(rows: seq<Settled>, totals: map<string, nat>, coldkeys: map<string, string>, team: map<string, string>,
                 done: set<string>, best: map<string, string>, operator: string)
    requires Gathered(rows, totals, coldkeys, team) && TotalsAreScores(rows, totals)
    requires BestOf(rows, done, best) && operator in coldkeys && operator !in team
    ensures BestOf(rows, done + {operator}, Lead(totals, best, operator, coldkeys[operator]))
  {
    ColdkeyServes(rows, operator);
    LeadKeepsBest(rows, totals, done, best, operator, coldkeys[operator]);
  }

  lemma TeamPassed(rows: seq<Settled>, done: set<string>, best: map<string, string>, operator: string)
    requires BestOf(rows, done, best) && OnTeam(rows, operator)
    ensures BestOf(rows, done + {operator}, best)
  {
  }

  /** (totals[a], a) > (totals[b], b) */
  predicate Better(totals: map<string, nat>, a: string, b: string) {
    Get(totals, a, 0) > Get(totals, b, 0) || (Get(totals, a, 0) == Get(totals, b, 0) && a != b && Strings.Le(b, a))
  }

  method ExcludedOf(rows: seq<Settled>) returns (found: map<string, string>)
    ensures IsExclusion(rows, found)
    ensures forall o :: o in found ==> found[o] == if OnTeam(rows, o) then "team" else "coldkey"
  {
    var totals, coldkeys, team := Gather(rows);
    var best := Leaders(rows, totals, coldkeys, team);
    found := team;
    var todo := coldkeys.Keys;
    while todo != {}
      invariant todo <= coldkeys.Keys
      invariant forall o :: o in found <==>
        o in team || (o in coldkeys && o !in todo && !(coldkeys[o] in best && best[coldkeys[o]] == o))
      invariant forall o :: o in found ==> found[o] == if o in team then TEAM else COLDKEY
      decreases todo
    {
      var operator :| operator in todo;
      if operator !in found && !(coldkeys[operator] in best && best[coldkeys[operator]] == operator) {
        found := found[operator := COLDKEY];
      }
      todo := todo - {operator};
    }
    forall o | o in coldkeys && o !in team
      ensures Leads(rows, o, coldkeys[o]) <==> coldkeys[o] in best && best[coldkeys[o]] == o
    {
      LeaderIsBest(rows, coldkeys.Keys, best, o);
    }
  }

  lemma LeaderIsBest(rows: seq<Settled>, all: set<string>, best: map<string, string>, o: string)
    requires forall p :: p in all <==> ColdkeyOf(rows, p) != ""
    requires BestOf(rows, all, best) && o in all && !OnTeam(rows, o)
    ensures var k := ColdkeyOf(rows, o); Leads(rows, o, k) <==> k in best && best[k] == o
  {
    var k := ColdkeyOf(rows, o);
    ColdkeyServes(rows, o);
    RankLeOrders(rows);
    assert Stands(rows, o, k);
    assert Stands(rows, best[k], k);
  }

  // ---------------------------------------------------------------- one survivor per coldkey

  lemma {:induction false} ServesAt(rows: seq<Settled>, operator: string) returns (i: nat)
    requires Serves(rows, operator)
    ensures i < |rows| && rows[i].operator == operator
  {
    if rows[|rows| - 1].operator == operator {
      i := |rows| - 1;
    } else {
      i := ServesAt(rows[..|rows| - 1], operator);
    }
  }

  lemma LeaderExists(rows: seq<Settled>, coldkey: string, some: string) returns (leader: string)
    requires Stands(rows, some, coldkey)
    ensures Leads(rows, leader, coldkey)
  {
    var standing := set i | 0 <= i < |rows| && Stands(rows, rows[i].operator, coldkey) :: rows[i].operator;
    var at := ServesAt(rows, some);
    assert rows[at].operator in standing;
    RankLeOrders(rows);
    var below := (a: string, b: string) => RankLe(rows, b, a);
    leader := Least(standing, below);
    forall other | Stands(rows, other, coldkey) ensures RankLe(rows, other, leader) {
      var i := ServesAt(rows, other);
      assert rows[i].operator in standing;
      assert below(leader, other);
    }
  }

  /** Of all that stand for a coldkey, exactly one is left: the one of highest total, the last name among equals. */
  lemma OneSurvivor(rows: seq<Settled>, found: map<string, string>, coldkey: string, some: string)
    returns (leader: string)
    requires IsExclusion(rows, found) && Stands(rows, some, coldkey)
    ensures Stands(rows, leader, coldkey) && leader !in found
    ensures forall other :: Stands(rows, other, coldkey) ==> RankLe(rows, other, leader)
    ensures forall other :: Stands(rows, other, coldkey) && other != leader ==>
      other in found && found[other] == "coldkey"
  {
    leader := LeaderExists(rows, coldkey, some);
    RankLeOrders(rows);
  }

  /** No operator names two coldkeys. */
  ghost predicate OneColdkey(rows: seq<Settled>) {
    forall a, b :: a in rows && b in rows && a.operator == b.operator && a.coldkey != "" && b.coldkey != "" ==>
      a.coldkey == b.coldkey
  }

  ghost predicate Names(rows: seq<Settled>, operator: string, coldkey: string) {
    exists row :: row in rows && row.operator == operator && row.coldkey == coldkey
  }

  lemma {:induction false} ColdkeyNamed(rows: seq<Settled>, operator: string)
    ensures ColdkeyOf(rows, operator) != "" ==> Names(rows, operator, ColdkeyOf(rows, operator))
    ensures ColdkeyOf(rows, operator) == "" ==>
      forall row :: row in rows && row.operator == operator ==> row.coldkey == ""
  {
    if |rows| > 0 {
      var init, last := rows[..|rows| - 1], rows[|rows| - 1];
      assert rows == init + [last];
      ColdkeyNamed(init, operator);
      if last.operator == operator && last.coldkey != "" {
        assert last in rows;
      } else if ColdkeyOf(init, operator) != "" {
        var row :| row in init && row.operator == operator && row.coldkey == ColdkeyOf(init, operator);
        assert row in rows;
      }
    }
  }

  lemma {:induction false} ScoreAppend(a: seq<Settled>, b: seq<Settled>, operator: string)
    ensures Score(a + b, operator) == Score(a, operator) + Score(b, operator)
  {
    if |b| == 0 {
      assert a + b == a;
    } else {
      assert (a + b)[..|a + b| - 1] == a + b[..|b| - 1];
      ScoreAppend(a, b[..|b| - 1], operator);
    }
  }

  lemma ScoreWithout(rows: seq<Settled>, i: nat, operator: string)
    requires i < |rows|
    ensures Score(rows, operator) == Score([rows[i]], operator) + Score(Without(rows, i), operator)
  {
    assert rows == rows[..i] + ([rows[i]] + rows[i + 1..]);
    ScoreAppend(rows[..i], [rows[i]] + rows[i + 1..], operator);
    ScoreAppend([rows[i]], rows[i + 1..], operator);
    ScoreAppend(rows[..i], rows[i + 1..], operator);
  }

  lemma {:induction false} ScorePermuted(a: seq<Settled>, b: seq<Settled>, operator: string)
    requires multiset(a) == multiset(b)
    ensures Score(a, operator) == Score(b, operator)
  {
    if |a| == 0 {
      assert |multiset(b)| == 0;
    } else {
      assert a[0] in multiset(b);
      var i :| 0 <= i < |b| && b[i] == a[0];
      WithoutMembers(a, 0);
      WithoutMembers(b, i);
      assert Without(a, 0) == a[1..];
      ScorePermuted(a[1..], Without(b, i), operator);
      ScoreWithout(a, 0, operator);
      ScoreWithout(b, i, operator);
    }
  }

  lemma {:induction false} MembersDecide(rows: seq<Settled>, operator: string)
    ensures Serves(rows, operator) <==> exists row :: row in rows && row.operator == operator
    ensures OnTeam(rows, operator) <==> exists row :: row in rows && row.operator == operator && row.team
  {
    if |rows| > 0 {
      assert rows == rows[..|rows| - 1] + [rows[|rows| - 1]];
      MembersDecide(rows[..|rows| - 1], operator);
    }
  }

  // ---------------------------------------------------------------- the order of the rows

  /** What stays the same of an operator however the rows are ordered: all but which of its coldkeys comes last. */
  lemma SameFacts(a: seq<Settled>, b: seq<Settled>, operator: string)
    requires multiset(a) == multiset(b)
    ensures Score(a, operator) == Score(b, operator)
    ensures Serves(a, operator) == Serves(b, operator) && OnTeam(a, operator) == OnTeam(b, operator)
    ensures forall k :: Names(a, operator, k) <==> Names(b, operator, k)
  {
    forall row ensures row in a <==> row in b {
      SameMembers(a, b, row);
    }
    ScorePermuted(a, b, operator);
    MembersDecide(a, operator);
    MembersDecide(b, operator);
  }

  /** The coldkey that counts is one the operator names, and there is one if it names any. */
  lemma ColdkeyIsNamed(rows: seq<Settled>, o: string)
    ensures var k := ColdkeyOf(rows, o);
      if k != "" then Names(rows, o, k) else forall j :: Names(rows, o, j) ==> j == ""
  {
    ColdkeyNamed(rows, o);
  }

  /** Ranks above o and is not the team's. */
  ghost predicate Above(rows: seq<Settled>, p: string, o: string) {
    p != o && RankLe(rows, o, p) && !OnTeam(rows, p)
  }

  ghost predicate NamesOnly(rows: seq<Settled>, p: string, k: string) {
    Names(rows, p, k) && forall j :: Names(rows, p, j) && j != "" ==> j == k
  }

  /** For every coldkey it names, somebody above it names that one and no other. */
  ghost predicate AlwaysOut(rows: seq<Settled>, o: string) {
    forall k :: k != "" && Names(rows, o, k) ==> exists p :: Above(rows, p, o) && NamesOnly(rows, p, k)
  }

  /** Nobody above it names a coldkey that it names. */
  ghost predicate NeverOut(rows: seq<Settled>, o: string) {
    forall k, p :: k != "" && Names(rows, o, k) && Above(rows, p, o) ==> !Names(rows, p, k)
  }

  ghost predicate Steady(rows: seq<Settled>) {
    forall o :: !OnTeam(rows, o) ==> AlwaysOut(rows, o) || NeverOut(rows, o)
  }

  ghost predicate IsOut(rows: seq<Settled>, o: string) {
    OnTeam(rows, o) || (ColdkeyOf(rows, o) != "" && !Leads(rows, o, ColdkeyOf(rows, o)))
  }

  /** An operator is out exactly if somebody above it counts for its coldkey. */
  lemma OutBelow(rows: seq<Settled>, o: string)
    requires !OnTeam(rows, o)
    ensures IsOut(rows, o) <==>
      ColdkeyOf(rows, o) != "" && exists p :: Above(rows, p, o) && ColdkeyOf(rows, p) == ColdkeyOf(rows, o)
  {
    var k := ColdkeyOf(rows, o);
    RankLeOrders(rows);
    if k != "" {
      ColdkeyServes(rows, o);
      if p :| Above(rows, p, o) && ColdkeyOf(rows, p) == k {
        ColdkeyServes(rows, p);
        assert Stands(rows, p, k) && !RankLe(rows, p, o);
      } else {
        forall p | Stands(rows, p, k) ensures RankLe(rows, p, o) {
          assert !Above(rows, p, o);
        }
      }
    }
  }

  lemma SameAbove(a: seq<Settled>, b: seq<Settled>, p: string, o: string)
    requires multiset(a) == multiset(b)
    ensures Above(a, p, o) == Above(b, p, o)
  {
    SameFacts(a, b, p);
    SameFacts(a, b, o);
  }

  lemma AlwaysOutIsOut(a: seq<Settled>, b: seq<Settled>, o: string)
    requires multiset(a) == multiset(b) && !OnTeam(a, o) && AlwaysOut(a, o)
    ensures IsOut(b, o) <==> exists k :: k != "" && Names(a, o, k)
  {
    SameFacts(a, b, o);
    OutBelow(b, o);
    ColdkeyIsNamed(b, o);
    var k := ColdkeyOf(b, o);
    if k != "" {
      var p :| Above(a, p, o) && NamesOnly(a, p, k);
      SameAbove(a, b, p, o);
      SameFacts(a, b, p);
      ColdkeyIsNamed(b, p);
    }
  }

  lemma NeverOutIsIn(a: seq<Settled>, b: seq<Settled>, o: string)
    requires multiset(a) == multiset(b) && !OnTeam(a, o) && NeverOut(a, o)
    ensures !IsOut(b, o)
  {
    SameFacts(a, b, o);
    OutBelow(b, o);
    ColdkeyIsNamed(b, o);
    var k := ColdkeyOf(b, o);
    if k != "" {
      forall p | Above(b, p, o) ensures ColdkeyOf(b, p) != k {
        SameAbove(a, b, p, o);
        SameFacts(a, b, p);
        ColdkeyIsNamed(b, p);
      }
    }
  }

  lemma SteadyIsOut(a: seq<Settled>, b: seq<Settled>, o: string)
    requires multiset(a) == multiset(b) && Steady(a)
    ensures IsOut(a, o) <==> IsOut(b, o)
  {
    SameFacts(a, b, o);
    if !OnTeam(a, o) {
      if AlwaysOut(a, o) {
        AlwaysOutIsOut(a, a, o);
        AlwaysOutIsOut(a, b, o);
      } else {
        NeverOutIsIn(a, a, o);
        NeverOutIsIn(a, b, o);
      }
    }
  }

  // Two orders that part an operator's fate: rows that matter are moved to the end.

  /** The rows that do not matter, in order, and then those that do. */
  function Moved(rows: seq<Settled>, matters: Settled -> bool): seq<Settled> {
    Those(rows, matters, false) + Those(rows, matters, true)
  }

  function Those(rows: seq<Settled>, matters: Settled -> bool, which: bool): (r: seq<Settled>)
    ensures forall row :: row in r <==> row in rows && matters(row) == which
  {
    if |rows| == 0 then []
    else Those(rows[..|rows| - 1], matters, which)
         + if matters(rows[|rows| - 1]) == which then [rows[|rows| - 1]] else []
  }

  /** How often a row stands among these. */
  ghost function Occurrences(rows: seq<Settled>, row: Settled): nat {
    multiset(rows)[row]
  }

  lemma OneMore(init: seq<Settled>, last: Settled, row: Settled)
    ensures Occurrences(init + [last], row) == Occurrences(init, row) + if row == last then 1 else 0
  {
  }

  lemma WithLast(rows: seq<Settled>)
    requires |rows| > 0
    ensures rows == rows[..|rows| - 1] + [rows[|rows| - 1]]
  {
  }

  lemma ThoseLast(rows: seq<Settled>, matters: Settled -> bool, which: bool)
    requires |rows| > 0
    ensures var last := rows[|rows| - 1];
      Those(rows, matters, which)
      == Those(rows[..|rows| - 1], matters, which) + if matters(last) == which then [last] else []
  {
  }

  /** One more row goes to one of two parts. */
  lemma PartsGrow(these: seq<Settled>, those: seq<Settled>, init: seq<Settled>, last: Settled, here: bool, row: Settled)
    requires Occurrences(these, row) + Occurrences(those, row) == Occurrences(init, row)
    ensures Occurrences(these + if here then [last] else [], row)
      + Occurrences(those + if here then [] else [last], row)
      == Occurrences(init + [last], row)
  {
    OneMore(init, last, row);
    if here {
      OneMore(these, last, row);
      assert those + [] == those;
    } else {
      OneMore(those, last, row);
      assert these + [] == these;
    }
  }

  lemma {:induction false} ThoseSplit(rows: seq<Settled>, matters: Settled -> bool, row: Settled)
    ensures Occurrences(Those(rows, matters, false), row) + Occurrences(Those(rows, matters, true), row)
      == Occurrences(rows, row)
  {
    if |rows| > 0 {
      var init, last := rows[..|rows| - 1], rows[|rows| - 1];
      ThoseSplit(init, matters, row);
      ThoseLast(rows, matters, false);
      ThoseLast(rows, matters, true);
      PartsGrow(Those(init, matters, false), Those(init, matters, true), init, last, !matters(last), row);
      WithLast(rows);
    }
  }

  lemma MovedPermutes(rows: seq<Settled>, matters: Settled -> bool)
    ensures multiset(Moved(rows, matters)) == multiset(rows)
  {
    forall row ensures multiset(Moved(rows, matters))[row] == multiset(rows)[row] {
      ThoseSplit(rows, matters, row);
      assert Occurrences(Moved(rows, matters), row) == Occurrences(rows, row);
    }
  }

  lemma {:induction false} LastNamed(front: seq<Settled>, back: seq<Settled>, o: string)
    ensures ColdkeyOf(front + back, o) == if ColdkeyOf(back, o) != "" then ColdkeyOf(back, o) else ColdkeyOf(front, o)
  {
    if |back| == 0 {
      assert front + back == front;
    } else {
      assert (front + back)[..|front + back| - 1] == front + back[..|back| - 1];
      LastNamed(front, back[..|back| - 1], o);
    }
  }

  /** After the move an operator counts for a coldkey of a row that matters, if it has such a row that names one. */
  lemma MovedColdkey(rows: seq<Settled>, matters: Settled -> bool, o: string, some: Settled)
    requires some in rows && matters(some) && some.operator == o && some.coldkey != ""
    ensures var k := ColdkeyOf(Moved(rows, matters), o);
      k != "" && exists row :: row in rows && matters(row) && row.operator == o && row.coldkey == k
  {
    var front, back := Those(rows, matters, false), Those(rows, matters, true);
    LastNamed(front, back, o);
    ColdkeyIsNamed(back, o);
    assert Names(back, o, some.coldkey);
  }

  /** o counts for k, and everybody else that can for another coldkey. */
  function Apart(o: string, k: string): Settled -> bool {
    (row: Settled) => row.coldkey != "" && (row.operator == o <==> row.coldkey == k)
  }

  /** Everybody that can counts for k. */
  function Together(k: string): Settled -> bool {
    (row: Settled) => row.coldkey == k
  }

  lemma ApartIsIn(rows: seq<Settled>, o: string, k: string)
    requires !OnTeam(rows, o) && k != "" && Names(rows, o, k)
    requires forall p :: Above(rows, p, o) ==> !NamesOnly(rows, p, k)
    ensures !IsOut(Moved(rows, Apart(o, k)), o)
  {
    var b := Moved(rows, Apart(o, k));
    MovedPermutes(rows, Apart(o, k));
    var some :| some in rows && some.operator == o && some.coldkey == k;
    MovedColdkey(rows, Apart(o, k), o, some);
    SameFacts(rows, b, o);
    OutBelow(b, o);
    forall p | Above(b, p, o) ensures ColdkeyOf(b, p) != k {
      SameAbove(rows, b, p, o);
      ApartFromOthers(rows, o, k, p);
    }
  }

  lemma ApartFromOthers(rows: seq<Settled>, o: string, k: string, p: string)
    requires p != o && k != "" && !NamesOnly(rows, p, k)
    ensures ColdkeyOf(Moved(rows, Apart(o, k)), p) != k
  {
    var b := Moved(rows, Apart(o, k));
    MovedPermutes(rows, Apart(o, k));
    SameFacts(rows, b, p);
    ColdkeyIsNamed(b, p);
    if Names(rows, p, k) {
      var j :| Names(rows, p, j) && j != "" && j != k;
      var row :| row in rows && row.operator == p && row.coldkey == j;
      MovedColdkey(rows, Apart(o, k), p, row);
    }
  }

  lemma TogetherIsOut(rows: seq<Settled>, o: string, k: string, p: string)
    requires !OnTeam(rows, o) && k != "" && Names(rows, o, k) && Above(rows, p, o) && Names(rows, p, k)
    ensures IsOut(Moved(rows, Together(k)), o)
  {
    var b := Moved(rows, Together(k));
    MovedPermutes(rows, Together(k));
    var mine :| mine in rows && mine.operator == o && mine.coldkey == k;
    var theirs :| theirs in rows && theirs.operator == p && theirs.coldkey == k;
    MovedColdkey(rows, Together(k), o, mine);
    MovedColdkey(rows, Together(k), p, theirs);
    SameFacts(rows, b, o);
    SameAbove(rows, b, p, o);
    OutBelow(b, o);
  }

  lemma OutServes(rows: seq<Settled>, o: string)
    requires IsOut(rows, o)
    ensures o in set row | row in rows :: row.operator
  {
    if ColdkeyOf(rows, o) != "" {
      ColdkeyServes(rows, o);
    }
    MembersDecide(rows, o);
  }

  /** There is exactly one map that excluded_of may find. */
  lemma ExclusionExists(rows: seq<Settled>) returns (found: map<string, string>)
    ensures IsExclusion(rows, found)
  {
    var all := set row | row in rows :: row.operator;
    found := map o | o in all && IsOut(rows, o) :: if OnTeam(rows, o) then TEAM else COLDKEY;
    forall o ensures o in found <==> IsOut(rows, o) {
      if IsOut(rows, o) {
        OutServes(rows, o);
      }
    }
  }

  /** Whatever the order of the rows, the same operators are excluded. */
  ghost predicate OrderFree(rows: seq<Settled>) {
    forall b, found :: multiset(b) == multiset(rows) && IsExclusion(b, found) ==> IsExclusion(rows, found)
  }

  lemma SteadyOrderFree(rows: seq<Settled>, b: seq<Settled>, found: map<string, string>)
    requires Steady(rows) && multiset(b) == multiset(rows) && IsExclusion(b, found)
    ensures IsExclusion(rows, found)
  {
    forall o ensures (o in found <==> IsOut(rows, o)) && OnTeam(rows, o) == OnTeam(b, o) {
      assert o in found <==> IsOut(b, o);
      SteadyIsOut(rows, b, o);
      SameFacts(rows, b, o);
    }
  }

  lemma TwoExclusions(rows: seq<Settled>, kept: map<string, string>, left: map<string, string>, o: string)
    requires IsExclusion(rows, kept) && o !in kept && o in left
    ensures !IsExclusion(rows, left)
  {
    assert o in kept <==> IsOut(rows, o);
  }

  lemma UnsteadyNotOrderFree(rows: seq<Settled>, o: string)
    requires !OnTeam(rows, o) && !AlwaysOut(rows, o) && !NeverOut(rows, o)
    ensures !OrderFree(rows)
  {
    var k :| k != "" && Names(rows, o, k) && forall p :: Above(rows, p, o) ==> !NamesOnly(rows, p, k);
    var j, q :| j != "" && Names(rows, o, j) && Above(rows, q, o) && Names(rows, q, j);
    ApartIsIn(rows, o, k);
    TogetherIsOut(rows, o, j, q);
    var a, b := Moved(rows, Apart(o, k)), Moved(rows, Together(j));
    MovedPermutes(rows, Apart(o, k));
    MovedPermutes(rows, Together(j));
    var kept := ExclusionExists(a);
    var left := ExclusionExists(b);
    assert o !in kept && o in left;
    if IsExclusion(rows, kept) {
      TwoExclusions(rows, kept, left, o);
    }
  }

  /**
   * Exactly when who is excluded does not depend on the order of the rows: when every operator that is not the team's
   * has, for each coldkey it names, somebody above it that names only that one, or nobody above it that names any of
   * them.
   */
  lemma OrderFreeExactly(rows: seq<Settled>)
    ensures OrderFree(rows) <==> Steady(rows)
  {
    if Steady(rows) {
      forall b, found | multiset(b) == multiset(rows) && IsExclusion(b, found) ensures IsExclusion(rows, found) {
        SteadyOrderFree(rows, b, found);
      }
    } else {
      var o :| !OnTeam(rows, o) && !AlwaysOut(rows, o) && !NeverOut(rows, o);
      UnsteadyNotOrderFree(rows, o);
    }
  }

  /** So it is while no operator names two coldkeys. */
  lemma RowOrderFree(a: seq<Settled>, b: seq<Settled>, found: map<string, string>)
    requires multiset(a) == multiset(b) && OneColdkey(a)
    ensures IsExclusion(a, found) <==> IsExclusion(b, found)
  {
    OneColdkeySteady(a);
    assert OneColdkey(b) by {
      forall row | row in b ensures row in a {
        SameMembers(a, b, row);
      }
    }
    OneColdkeySteady(b);
    if IsExclusion(b, found) {
      SteadyOrderFree(a, b, found);
    }
    if IsExclusion(a, found) {
      SteadyOrderFree(b, a, found);
    }
  }

  lemma OneColdkeySteady(rows: seq<Settled>)
    requires OneColdkey(rows)
    ensures Steady(rows)
  {
    forall o | !OnTeam(rows, o) && !NeverOut(rows, o) ensures AlwaysOut(rows, o) {
      var k, p :| k != "" && Names(rows, o, k) && Above(rows, p, o) && Names(rows, p, k);
      assert NamesOnly(rows, p, k);
    }
  }
}
