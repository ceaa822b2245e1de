/** The Merkle tree over uploaded transcripts, and what a root commits to. */
module Transcript {
  import opened Prelude
  import Strings

  /** A SHA-256 value, named by what was hashed: hashing is injective, and no text encodes as a pair of digests. */
  datatype Digest =
    | Text(message: string)
    | Pair(left: Digest, right: Digest)

  function Leaf(hotkey: string, sha: string): Digest {
    Text(hotkey + sha)
  }

  // ---------------------------------------------------------------- levels

  /** The level above: neighbours paired, an odd last node paired with itself. */
  function Above(level: seq<Digest>): (above: seq<Digest>)
    ensures |above| == (|level| + 1) / 2
    ensures forall k :: 0 <= k < |above| ==>
      above[k] == Pair(level[2 * k], if 2 * k + 1 < |level| then level[2 * k + 1] else level[2 * k])
  {
    seq((|level| + 1) / 2, k requires 0 <= k < (|level| + 1) / 2 =>
      Pair(level[2 * k], if 2 * k + 1 < |level| then level[2 * k + 1] else level[2 * k]))
  }

  function Levels(leaves: seq<Digest>): (levels: seq<seq<Digest>>)
    ensures |levels| > 0
    decreases |leaves|
  {
    [leaves] + if |leaves| <= 1 then [] else Levels(Above(leaves))
  }

  function Root(leaves: seq<Digest>): Digest
    requires |leaves| > 0
    decreases |leaves|
  {
    if |leaves| == 1 then leaves[0] else Root(Above(leaves))
  }

  /** The inner loop: one level, two nodes at a time. */
  method PairUp(current: seq<Digest>) returns (above: seq<Digest>)
    ensures above == Above(current)
  {
    above := [];
    var index := 0;
    while index < |current|
      invariant index % 2 == 0 && 0 <= index <= |current| + 1
      invariant |above| == index / 2
      invariant forall k :: 0 <= k < |above| ==> above[k] == Above(current)[k]
    {
      var left := current[index];
      var right := if index + 1 < |current| then current[index + 1] else left;
      above := above + [Pair(left, right)];
      index := index + 2;
    }
  }

  /** The loop that builds the tree, level by level. */
  method LevelsOf(leaves: seq<Digest>) returns (levels: seq<seq<Digest>>)
    ensures levels == Levels(leaves)
  {
    var current := leaves;
    levels := [current];
    ghost var below: seq<seq<Digest>> := [];
    while |current| > 1
      invariant levels == below + [current]
      invariant Levels(leaves) == below + Levels(current)
      decreases |current|
    {
      ghost var rest := Levels(Above(current));
      Associative(below, [current], rest);
      below := levels;
      current := PairUp(current);
      levels := levels + [current];
    }
  }

  lemma {:induction false} TopIsRoot(leaves: seq<Digest>)
    requires |leaves| > 0
    ensures var levels := Levels(leaves); |levels[|levels| - 1]| == 1 && levels[|levels| - 1][0] == Root(leaves)
    decreases |leaves|
  {
    if |leaves| > 1 {
      TopIsRoot(Above(leaves));
    }
  }

  // ---------------------------------------------------------------- roots of maps

  /** The rows of sorted(leaves), by hotkey. */
  function OrderedLeaves(leaves: map<string, string>): (rows: seq<(string, Digest)>)
    ensures |rows| == |leaves|
    ensures forall i :: 0 <= i < |rows| ==> rows[i].0 in leaves && rows[i].1 == Leaf(rows[i].0, leaves[rows[i].0])
    ensures forall i, j :: 0 <= i < j < |rows| ==> rows[i].0 != rows[j].0
  {
    Strings.NamesSorted(leaves.Keys);
    var names := Strings.SortedNames(leaves.Keys);
    seq(|names|, i requires 0 <= i < |names| =>
      assert names[i] in names; (names[i], Leaf(names[i], leaves[names[i]])))
  }

  /** The leaves stand in the code point order of their hotkeys. */
  lemma LeavesInOrder(leaves: map<string, string>, i: nat, j: nat)
    requires i < j < |leaves|
    ensures Strings.Before(OrderedLeaves(leaves)[i].0, OrderedLeaves(leaves)[j].0)
  {
    Strings.NamesAscend(leaves.Keys, i, j);
  }

  lemma RowOf(leaves: map<string, string>, hotkey: string) returns (i: nat)
    requires hotkey in leaves
    ensures i < |OrderedLeaves(leaves)| && OrderedLeaves(leaves)[i] == (hotkey, Leaf(hotkey, leaves[hotkey]))
  {
    Strings.NamesSorted(leaves.Keys);
    var names := Strings.SortedNames(leaves.Keys);
    assert hotkey in names;
    i :| 0 <= i < |names| && names[i] == hotkey;
  }

  function Digests(rows: seq<(string, Digest)>): (digests: seq<Digest>)
    ensures |digests| == |rows| && forall i :: 0 <= i < |rows| ==> digests[i] == rows[i].1
  {
    seq(|rows|, i requires 0 <= i < |rows| => rows[i].1)
  }

  function MerkleRoot(leaves: map<string, string>): Digest {
    var rows := OrderedLeaves(leaves);
    if |rows| == 0 then Text("") else Root(Digests(rows))
  }

  // ---------------------------------------------------------------- binding

  /** How many pairings lie on the left spine; every node of one level has the same. */
  function Height(d: Digest): nat {
    match d
    case Text(_) => 0
    case Pair(left, _) => 1 + Height(left)
  }

  ghost predicate Uniform(level: seq<Digest>, h: nat) {
    forall i :: 0 <= i < |level| ==> Height(level[i]) == h
  }

  lemma {:induction false} RootHeight(level: seq<Digest>, h: nat)
    requires |level| > 0 && Uniform(level, h)
    ensures Height(Root(level)) >= h && (|level| > 1 ==> Height(Root(level)) > h)
    decreases |level|
  {
    if |level| > 1 {
      RootHeight(Above(level), h + 1);
    }
  }

  lemma AboveDistinct(level: seq<Digest>)
    requires Distinct(level)
    ensures Distinct(Above(level))
  {
    var above := Above(level);
    forall i, j | 0 <= i < j < |above| ensures above[i] != above[j] {
      assert above[i].left == level[2 * i] && above[j].left == level[2 * j];
    }
  }

  /** Distinct nodes defeat the doubling of an odd last node: no real pair looks like a doubled one. */
  lemma NoTwin(odd: seq<Digest>, even: seq<Digest>)
    requires Distinct(even) && |even| % 2 == 0 && |even| == |odd| + 1
    ensures Above(odd) != Above(even)
  {
    var last := |Above(even)| - 1;
    assert Above(odd)[last] == Pair(odd[2 * last], odd[2 * last]);
    assert Above(even)[last] == Pair(even[2 * last], even[2 * last + 1]);
  }

  lemma AboveInjective(xs: seq<Digest>, ys: seq<Digest>)
    requires Distinct(xs) && Distinct(ys) && Above(xs) == Above(ys)
    ensures xs == ys
  {
    assert |Above(xs)| == |Above(ys)|;
    if |xs| < |ys| {
      NoTwin(xs, ys);
    } else if |ys| < |xs| {
      NoTwin(ys, xs);
    } else {
      forall i | 0 <= i < |xs| ensures xs[i] == ys[i] {
        assert Above(xs)[i / 2] == Above(ys)[i / 2];
        assert i == 2 * (i / 2) || i == 2 * (i / 2) + 1;
      }
    }
  }

  lemma {:induction false} RootInjective(xs: seq<Digest>, ys: seq<Digest>, h: nat)
    requires |xs| > 0 && |ys| > 0
    requires Distinct(xs) && Distinct(ys) && Uniform(xs, h) && Uniform(ys, h)
    requires Root(xs) == Root(ys)
    ensures xs == ys
    decreases |xs|
  {
    RootHeight(xs, h);
    RootHeight(ys, h);
    if |xs| > 1 && |ys| > 1 {
      AboveDistinct(xs);
      AboveDistinct(ys);
      RootInjective(Above(xs), Above(ys), h + 1);
      AboveInjective(xs, ys);
    }
  }

  /** Every transcript hash in the map has a width the arena allows. */
  ghost predicate Widths(leaves: map<string, string>, allowed: set<nat>) {
    forall name :: name in leaves ==> |leaves[name]| in allowed
  }

  ghost predicate Binds(allowed: set<nat>) {
    forall a, b :: Widths(a, allowed) && Widths(b, allowed) && MerkleRoot(a) == MerkleRoot(b) ==> a == b
  }

  /** Every transcript hash is written in the same number of characters. */
  ghost predicate Wide(leaves: map<string, string>, width: nat) {
    forall name :: name in leaves ==> |leaves[name]| == width
  }

  lemma JoinInjective(name: string, sha: string, name': string, sha': string)
    requires |sha| == |sha'| && name + sha == name' + sha'
    ensures name == name' && sha == sha'
  {
    assert (name + sha)[|name|..] == sha && (name + sha)[..|name|] == name;
    assert (name' + sha')[|name'|..] == sha' && (name' + sha')[..|name'|] == name';
  }

  lemma LeavesDistinct(leaves: map<string, string>, width: nat)
    requires Wide(leaves, width)
    ensures Distinct(Digests(OrderedLeaves(leaves)))
  {
    var rows := OrderedLeaves(leaves);
    forall i, j | 0 <= i < j < |rows| ensures rows[i].1 != rows[j].1 {
      if rows[i].1 == rows[j].1 {
        JoinInjective(rows[i].0, leaves[rows[i].0], rows[j].0, leaves[rows[j].0]);
      }
    }
  }

  lemma RowsDetermineMap(a: map<string, string>, b: map<string, string>, width: nat)
    requires Wide(a, width)
    requires Wide(b, width)
    requires Digests(OrderedLeaves(a)) == Digests(OrderedLeaves(b))
    ensures forall name :: name in a ==> name in b && b[name] == a[name]
  {
    var xs, ys := OrderedLeaves(a), OrderedLeaves(b);
    forall name | name in a ensures name in b && b[name] == a[name] {
      var i := RowOf(a, name);
      assert xs[i].1 == Digests(xs)[i] == Digests(ys)[i] == ys[i].1;
      JoinInjective(name, a[name], ys[i].0, b[ys[i].0]);
    }
  }

  lemma SameRows(a: map<string, string>, b: map<string, string>, width: nat)
    requires |a| > 0 && |b| > 0 && Wide(a, width) && Wide(b, width)
    requires MerkleRoot(a) == MerkleRoot(b)
    ensures Digests(OrderedLeaves(a)) == Digests(OrderedLeaves(b))
  {
    LeavesDistinct(a, width);
    LeavesDistinct(b, width);
    var xs, ys := Digests(OrderedLeaves(a)), Digests(OrderedLeaves(b));
    assert Uniform(xs, 0) && Uniform(ys, 0);
    RootInjective(xs, ys, 0);
  }

  lemma MutualInclusion(a: map<string, string>, b: map<string, string>)
    requires forall name :: name in a ==> name in b && b[name] == a[name]
    requires forall name :: name in b ==> name in a && a[name] == b[name]
    ensures a == b
  {
    assert a.Keys == b.Keys;
  }

  /** Two maps of equally wide transcript hashes with one root are one map, whatever their sizes. */
  lemma RootBinding(a: map<string, string>, b: map<string, string>, width: nat)
    requires width > 0 && Wide(a, width) && Wide(b, width)
    requires MerkleRoot(a) == MerkleRoot(b)
    ensures a == b
  {
    if |a| > 0 && |b| > 0 {
      SameRows(a, b, width);
      RowsDetermineMap(a, b, width);
      RowsDetermineMap(b, a, width);
      MutualInclusion(a, b);
    } else if |a| > 0 {
      RootOfSome(a, width);
    } else if |b| > 0 {
      RootOfSome(b, width);
    }
  }

  lemma RootOfSome(leaves: map<string, string>, width: nat)
    requires width > 0 && |leaves| > 0
    requires Wide(leaves, width)
    ensures MerkleRoot(leaves) != Text("")
  {
    var digests := Digests(OrderedLeaves(leaves));
    RootHeight(digests, 0);
    if |digests| == 1 {
      assert |digests[0].message| >= width;
    }
  }

  ghost predicate OneWidth(allowed: set<nat>) {
    0 !in allowed && forall v, w :: v in allowed && w in allowed ==> v == w
  }

  lemma OneWidthBinds(a: map<string, string>, b: map<string, string>, allowed: set<nat>)
    requires OneWidth(allowed) && Widths(a, allowed) && Widths(b, allowed) && MerkleRoot(a) == MerkleRoot(b)
    ensures a == b
  {
    if width :| width in allowed {
      RootBinding(a, b, width);
    } else {
      assert a == map[] == b;
    }
  }

  /** Exactly when a root commits to its map: one positive width of transcript hash. The program uses 64. */
  lemma BindingCondition(allowed: set<nat>)
    ensures Binds(allowed) <==> OneWidth(allowed)
  {
    if OneWidth(allowed) {
      forall a, b | Widths(a, allowed) && Widths(b, allowed) && MerkleRoot(a) == MerkleRoot(b) ensures a == b {
        OneWidthBinds(a, b, allowed);
      }
    } else if 0 in allowed {
      EmptyMapTwin();
      assert Widths(map[], allowed) && Widths(map["" := ""], allowed);
    } else {
      var v, w :| v in allowed && w in allowed && v < w;
      TwoWidthsUnbound(allowed, seq(w - v, _ => 'f'), seq(v, _ => 'f'));
    }
  }

  lemma TwoWidthsUnbound(allowed: set<nat>, name: string, sha: string)
    requires name != "" && |sha| in allowed && |name + sha| in allowed
    ensures !Binds(allowed)
  {
    ConcatenationTwin(name, sha);
    var a, b := map[name := sha], map["" := name + sha];
    assert Widths(a, allowed) && Widths(b, allowed);
  }

  lemma SingleRoot(name: string, sha: string)
    ensures MerkleRoot(map[name := sha]) == Text(name + sha)
  {
    var leaves := map[name := sha];
    assert OrderedLeaves(leaves)[0].0 in leaves;
  }

  lemma EmptyMapTwin()
    ensures MerkleRoot(map[]) == MerkleRoot(map["" := ""]) && map[] != map["" := ""]
  {
    SingleRoot("", "");
    assert "" in map["" := ""];
    assert "" + "" == "";
  }

  /**
   * A leaf hashes hotkey and transcript hash run together: the end of any hotkey may as well be the start of a longer
   * hash.
   */
  lemma ConcatenationTwin(name: string, sha: string)
    requires name != ""
    ensures var a, b := map[name := sha], map["" := name + sha]; a != b && MerkleRoot(a) == MerkleRoot(b)
  {
    SingleRoot(name, sha);
    SingleRoot("", name + sha);
    assert "" + (name + sha) == name + sha;
    assert "" !in map[name := sha];
  }

  // ---------------------------------------------------------------- verify_leaf

  predicate VerifyLeaf(hotkey: string, sha: string, leaves: map<string, string>, root: Digest) {
    hotkey in leaves && leaves[hotkey] == sha && MerkleRoot(leaves) == root
  }

  /** Whatever list of leaves a checker is shown, it can only confirm what the sealed map says. */
  lemma VerifyLeafAgrees(hotkey: string, sha: string, shown: map<string, string>, sealed: map<string, string>,
                         width: nat)
    requires width > 0
    requires Wide(shown, width)
    requires Wide(sealed, width)
    ensures VerifyLeaf(hotkey, sha, shown, MerkleRoot(sealed)) <==>
      shown == sealed && hotkey in sealed && sealed[hotkey] == sha
  {
    if MerkleRoot(shown) == MerkleRoot(sealed) {
      RootBinding(shown, sealed, width);
    }
  }
}
