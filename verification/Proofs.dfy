/** Membership proofs byte by byte: what merkle_proof emits and all that check_proof can be made to accept. */
module Proofs {
  import opened Prelude
  import opened Transcript

  // ---------------------------------------------------------------- bytes

  type Octet = b: int | 0 <= b < 256

  /** A byte of some text, or one byte of a SHA-256 value, named by everything that was hashed. */
  datatype Unit = Plain(octet: Octet) | Part(of: seq<Unit>, index: nat)

  /** What the hexadecimal texts of a proof spell: bytes, as many as somebody cares to write. */
  type Value = seq<Unit>

  const SIZE := 32

  /** SHA-256: always 32 bytes, and no two inputs share a value. */
  function Hash(data: Value): (h: Value)
    ensures |h| == SIZE
  {
    seq(SIZE, i requires 0 <= i < SIZE => Part(data, i))
  }

  lemma HashInjective(a: Value, b: Value)
    requires Hash(a) == Hash(b)
    ensures a == b
  {
    assert Hash(a)[0].of == Hash(b)[0].of;
  }

  /** UTF-8. */
  function EncodeChar(c: char): seq<Octet> {
    var n := c as int;
    if n < 0x80 then [n]
    else if n < 0x800 then [0xC0 + n / 64, 0x80 + n % 64]
    else if n < 0x1_0000 then [0xE0 + n / 4096, 0x80 + n / 64 % 64, 0x80 + n % 64]
    else [0xF0 + n / 262144, 0x80 + n / 4096 % 64, 0x80 + n / 64 % 64, 0x80 + n % 64]
  }

  function Encode(text: string): seq<Octet> {
    if |text| == 0 then [] else EncodeChar(text[0]) + Encode(text[1..])
  }

  function Utf8(text: string): (v: Value)
    ensures forall i :: 0 <= i < |v| ==> v[i].Plain?
  {
    var octets := Encode(text);
    seq(|octets|, i requires 0 <= i < |octets| => Plain(octets[i]))
  }

  /** The code point that the first octets of s spell. */
  function FirstCode(s: seq<int>): int {
    if |s| > 0 && s[0] < 0x80 then s[0]
    else if |s| > 1 && s[0] < 0xE0 then (s[0] - 0xC0) * 64 + (s[1] - 0x80)
    else if |s| > 2 && s[0] < 0xF0 then (s[0] - 0xE0) * 4096 + (s[1] - 0x80) * 64 + (s[2] - 0x80)
    else if |s| > 3 then (s[0] - 0xF0) * 262144 + (s[1] - 0x80) * 4096 + (s[2] - 0x80) * 64 + (s[3] - 0x80)
    else 0
  }

  lemma FirstCodeOf(c: char, rest: seq<Octet>)
    ensures FirstCode(EncodeChar(c) + rest) == c as int
  {
    var n := c as int;
    assert n == n / 64 * 64 + n % 64;
    assert n / 64 == n / 4096 * 64 + n / 64 % 64;
    assert n / 4096 == n / 262144 * 64 + n / 4096 % 64;
  }

  lemma {:induction false} EncodeInjective(a: string, b: string)
    requires Encode(a) == Encode(b)
    ensures a == b
  {
    if |a| > 0 && |b| > 0 {
      FirstCodeOf(a[0], Encode(a[1..]));
      FirstCodeOf(b[0], Encode(b[1..]));
      assert Encode(a)[|EncodeChar(a[0])|..] == Encode(a[1..]);
      assert Encode(b)[|EncodeChar(b[0])|..] == Encode(b[1..]);
      EncodeInjective(a[1..], b[1..]);
      assert a == [a[0]] + a[1..] && b == [b[0]] + b[1..];
    }
  }

  lemma Utf8Injective(a: string, b: string)
    requires Utf8(a) == Utf8(b)
    ensures a == b
  {
    var s, t := Encode(a), Encode(b);
    forall i | 0 <= i < |s| ensures s[i] == t[i] {
      assert Utf8(a)[i].octet == Utf8(b)[i].octet;
    }
    assert s == t;
    EncodeInjective(a, b);
  }

  // ---------------------------------------------------------------- digests as bytes

  /** What is hashed for a node: the text of a leaf, or the 64 bytes of two nodes. */
  function Preimage(d: Digest): Value
    decreases d, 0
  {
    match d
    case Text(message) => Utf8(message)
    case Pair(left, right) => ValueOf(left) + ValueOf(right)
  }

  function ValueOf(d: Digest): (v: Value)
    ensures |v| == SIZE
    decreases d, 1
  {
    Hash(Preimage(d))
  }

  /** Digests name their bytes: two nodes have the same 32 bytes only if they are one. */
  lemma {:induction false} SameBytesSameDigest(d: Digest, e: Digest)
    ensures ValueOf(d) == ValueOf(e) <==> d == e
  {
    if ValueOf(d) == ValueOf(e) {
      var x, y := Preimage(d), Preimage(e);
      HashInjective(x, y);
      if d.Text? && e.Text? {
        Utf8Injective(d.message, e.message);
      } else if d.Pair? && e.Pair? {
        assert x[..SIZE] == ValueOf(d.left) && y[..SIZE] == ValueOf(e.left);
        assert x[SIZE..] == ValueOf(d.right) && y[SIZE..] == ValueOf(e.right);
        SameBytesSameDigest(d.left, e.left);
        SameBytesSameDigest(d.right, e.right);
      } else {
        TextIsNoPair(if d.Text? then d else e, if d.Text? then e else d);
      }
    }
  }

  lemma TextIsNoPair(d: Digest, e: Digest)
    requires d.Text? && e.Pair?
    ensures Preimage(d) != Preimage(e)
  {
    assert Preimage(e)[0] == ValueOf(e.left)[0];
    assert Preimage(e)[0].Part?;
    assert |Preimage(d)| > 0 ==> Preimage(d)[0].Plain?;
  }

  // ---------------------------------------------------------------- proofs

  /** One step of a proof; hash is None when its text is missing or not hexadecimal. */
  datatype Step = Step(onLeft: bool, hash: Option<Value>)

  function Sibling(position: nat): nat {
    if position % 2 == 0 then position + 1 else position - 1
  }

  function Proof(level: seq<Digest>, position: nat): (proof: seq<Step>)
    requires position < |level|
    decreases |level|
  {
    if |level| == 1 then
      []
    else
      var sibling := Sibling(position);
      var partner := if sibling < |level| then level[sibling] else level[position];
      [Step(sibling < position, Some(ValueOf(partner)))] + Proof(Above(level), position / 2)
  }

  /** The parent a step makes of a value. */
  function Joined(from: Value, onLeft: bool, partner: Value): Value {
    Hash(if onLeft then partner + from else from + partner)
  }

  /** Where the steps lead from a value; None when a step cannot be read. */
  function Climb(from: Value, proof: seq<Step>): Option<Value>
    decreases |proof|
  {
    if |proof| == 0 then Some(from)
    else if proof[0].hash.None? then None
    else Climb(Joined(from, proof[0].onLeft, proof[0].hash.value), proof[1..])
  }

  /** names.index(hotkey), or the number of names when it is absent. */
  function IndexOf(rows: seq<(string, Digest)>, hotkey: string): (position: nat)
    ensures position <= |rows|
    ensures position < |rows| ==> rows[position].0 == hotkey
    ensures position == |rows| ==> forall i :: 0 <= i < |rows| ==> rows[i].0 != hotkey
  {
    if |rows| == 0 || rows[0].0 == hotkey then 0 else 1 + IndexOf(rows[1..], hotkey)
  }

  lemma {:induction false} LevelsTail(levels: seq<seq<Digest>>, level: seq<Digest>)
    requires levels == Levels(level) && |levels| > 1
    ensures levels[0] == level && |level| > 1 && levels[1..] == Levels(Above(level))
  {
  }

  /** The walk of merkle_proof up the levels of the tree. */
  method Walk(digests: seq<Digest>, start: nat) returns (steps: seq<Step>)
    requires start < |digests|
    ensures steps == Proof(digests, start)
  {
    steps := [];
    var position: nat := start;
    var rest := LevelsOf(digests);
    ghost var level := digests;
    while |rest| > 1
      invariant position < |level| && rest == Levels(level)
      invariant steps + Proof(level, position) == Proof(digests, start)
      decreases |rest|
    {
      LevelsTail(rest, level);
      var sibling := Sibling(position);
      var partner := if sibling < |rest[0]| then rest[0][sibling] else rest[0][position];
      var step := Step(sibling < position, Some(ValueOf(partner)));
      Associative(steps, [step], Proof(Above(level), position / 2));
      steps := steps + [step];
      position := position / 2;
      rest := rest[1..];
      level := Above(level);
    }
    assert Proof(level, position) == [];
  }

  method MerkleProof(leaves: map<string, string>, hotkey: string) returns (proof: Result<seq<Step>>)
    ensures proof.Ok? <==> hotkey in leaves
    ensures proof.Ok? ==> Climb(ValueOf(Leaf(hotkey, leaves[hotkey])), proof.value) == Some(ValueOf(MerkleRoot(leaves)))
  {
    var rows := OrderedLeaves(leaves);
    var position := IndexOf(rows, hotkey);
    if position == |rows| {
      if hotkey in leaves {
        var i := RowOf(leaves, hotkey);
        assert false;
      }
      return Err("no leaf");
    }
    var steps := Walk(Digests(rows), position);
    ProofClimbs(Digests(rows), position);
    proof := Ok(steps);
  }

  lemma {:induction false} ProofClimbs(level: seq<Digest>, position: nat)
    requires position < |level|
    ensures Climb(ValueOf(level[position]), Proof(level, position)) == Some(ValueOf(Root(level)))
    decreases |level|
  {
    if |level| > 1 {
      var above := Above(level);
      ProofClimbs(above, position / 2);
      var proof := Proof(level, position);
      assert proof[1..] == Proof(above, position / 2);
      assert position == 2 * (position / 2) || position == 2 * (position / 2) + 1;
      assert Joined(ValueOf(level[position]), proof[0].onLeft, proof[0].hash.value) == ValueOf(above[position / 2]);
    }
  }

  /** leafValue is None when its text is not hexadecimal. */
  method CheckProof(leafValue: Option<Value>, proof: seq<Step>, root: Value) returns (ok: bool)
    ensures ok <==> leafValue.Some? && Climb(leafValue.value, proof) == Some(root)
  {
    if leafValue.None? {
      return false;
    }
    var current := leafValue.value;
    var i := 0;
    while i < |proof|
      invariant 0 <= i <= |proof|
      invariant Climb(current, proof[i..]) == Climb(leafValue.value, proof)
    {
      var step := proof[i];
      assert proof[i..][0] == step && proof[i..][1..] == proof[i + 1..];
      if step.hash.None? {
        return false;
      }
      current := Hash(if step.onLeft then step.hash.value + current else current + step.hash.value);
      i := i + 1;
    }
    return current == root;
  }

  // ---------------------------------------------------------------- what can be made to pass

  ghost predicate InLevels(d: Digest, leaves: seq<Digest>)
    decreases |leaves|
  {
    d in leaves || (|leaves| > 1 && InLevels(d, Above(leaves)))
  }

  ghost predicate Begins(v: Value, whole: Value) {
    |v| <= |whole| && whole[..|v|] == v
  }

  ghost predicate Ends(v: Value, whole: Value) {
    |v| <= |whole| && whole[|whole| - |v|..] == v
  }

  /** The bytes of a node, or what is hashed for one, cut off behind or in front. */
  ghost predicate OfNode(v: Value, d: Digest) {
    v == ValueOf(d) || Begins(v, Preimage(d)) || Ends(v, Preimage(d))
  }

  ghost predicate OfTree(v: Value, leaves: seq<Digest>) {
    exists d :: InLevels(d, leaves) && OfNode(v, d)
  }

  ghost predicate Accepted(v: Value, root: Value) {
    exists proof :: Climb(v, proof) == Some(root)
  }

  lemma {:induction false} RootInLevels(leaves: seq<Digest>)
    requires |leaves| > 0
    ensures InLevels(Root(leaves), leaves)
    decreases |leaves|
  {
    if |leaves| > 1 {
      RootInLevels(Above(leaves));
    }
  }

  /** A node above the leaves has its two children in the tree. */
  lemma {:induction false} ChildrenInLevels(d: Digest, leaves: seq<Digest>)
    requires InLevels(d, leaves)
    ensures d in leaves || (d.Pair? && InLevels(d.left, leaves) && InLevels(d.right, leaves))
    decreases |leaves|
  {
    if d !in leaves {
      var above := Above(leaves);
      ChildrenInLevels(d, above);
      if d in above {
        var k :| 0 <= k < |above| && above[k] == d;
      }
    }
  }

  lemma TextHoldsNoHash(data: Value, text: Value)
    requires forall i :: 0 <= i < |text| ==> text[i].Plain?
    ensures !Begins(Hash(data), text) && !Ends(Hash(data), text)
  {
    var h := Hash(data);
    if |text| >= SIZE {
      assert text[..SIZE][0] == text[0] && text[|text| - SIZE..][0] == text[|text| - SIZE];
      assert h[0].Part?;
    }
  }

  /**
   * A hash value of the tree's bytes is one of its nodes: 32 bytes cut from a pair are a child, and no text begins or
   * ends with a hash.
   */
  lemma HashOfTreeIsNode(data: Value, leaves: seq<Digest>) returns (node: Digest)
    requires Uniform(leaves, 0) && OfTree(Hash(data), leaves)
    ensures InLevels(node, leaves) && Preimage(node) == data
  {
    var h := Hash(data);
    var d :| InLevels(d, leaves) && OfNode(h, d);
    if h == ValueOf(d) {
      node := d;
    } else {
      var whole := Preimage(d);
      if d.Text? {
        TextHoldsNoHash(data, whole);
      } else {
        ChildrenInLevels(d, leaves);
        assert whole[..SIZE] == ValueOf(d.left) && whole[SIZE..] == ValueOf(d.right);
        node := if Begins(h, whole) then d.left else d.right;
      }
    }
    HashInjective(Preimage(node), data);
  }

  lemma {:induction false} AcceptedIsOfTree(v: Value, proof: seq<Step>, leaves: seq<Digest>)
    requires |leaves| > 0 && Uniform(leaves, 0) && Climb(v, proof) == Some(ValueOf(Root(leaves)))
    ensures OfTree(v, leaves)
    decreases |proof|
  {
    if |proof| == 0 {
      RootInLevels(leaves);
      assert OfNode(v, Root(leaves));
    } else {
      var onLeft, partner := proof[0].onLeft, proof[0].hash.value;
      AcceptedIsOfTree(Joined(v, onLeft, partner), proof[1..], leaves);
      var node := HashOfTreeIsNode(if onLeft then partner + v else v + partner, leaves);
      assert OfNode(v, node);
    }
  }

  lemma {:induction false} NodeAccepted(d: Digest, leaves: seq<Digest>) returns (proof: seq<Step>)
    requires |leaves| > 0 && InLevels(d, leaves)
    ensures Climb(ValueOf(d), proof) == Some(ValueOf(Root(leaves)))
    decreases |leaves|
  {
    if d in leaves {
      var i :| 0 <= i < |leaves| && leaves[i] == d;
      ProofClimbs(leaves, i);
      proof := Proof(leaves, i);
    } else {
      proof := NodeAccepted(d, Above(leaves));
    }
  }

  lemma OfTreeIsAccepted(v: Value, d: Digest, leaves: seq<Digest>)
    requires |leaves| > 0 && InLevels(d, leaves) && OfNode(v, d)
    ensures Accepted(v, ValueOf(Root(leaves)))
  {
    var proof := NodeAccepted(d, leaves);
    var whole := Preimage(d);
    if v != ValueOf(d) {
      var onLeft := !Begins(v, whole);
      var rest := if onLeft then whole[..|whole| - |v|] else whole[|v|..];
      assert (if onLeft then rest + v else v + rest) == whole;
      var longer := [Step(onLeft, Some(rest))] + proof;
      assert longer[1..] == proof;
      assert Climb(v, longer) == Climb(ValueOf(d), proof);
    }
  }

  /**
   * Some proof is accepted for a byte string exactly if it is a node, or the beginning or the end of what is hashed for
   * one.
   */
  lemma AcceptedExactly(v: Value, leaves: seq<Digest>)
    requires |leaves| > 0 && Uniform(leaves, 0)
    ensures Accepted(v, ValueOf(Root(leaves))) <==> OfTree(v, leaves)
  {
    if Accepted(v, ValueOf(Root(leaves))) {
      var proof :| Climb(v, proof) == Some(ValueOf(Root(leaves)));
      AcceptedIsOfTree(v, proof, leaves);
    }
    if OfTree(v, leaves) {
      var d :| InLevels(d, leaves) && OfNode(v, d);
      OfTreeIsAccepted(v, d, leaves);
    }
  }

  /** The leaves under a root; the empty map has the root of one empty text. */
  function TreeLeaves(leaves: map<string, string>): (digests: seq<Digest>)
    ensures |digests| > 0 && Root(digests) == MerkleRoot(leaves) && Uniform(digests, 0)
  {
    var rows := OrderedLeaves(leaves);
    if |rows| == 0 then [Text("")] else Digests(rows)
  }

  /** The same for the root of any map of transcripts, the empty one included. */
  lemma AcceptedByRoot(v: Value, leaves: map<string, string>)
    ensures Accepted(v, ValueOf(MerkleRoot(leaves))) <==> OfTree(v, TreeLeaves(leaves))
  {
    AcceptedExactly(v, TreeLeaves(leaves));
  }

  /** Every root accepts the empty byte string. */
  lemma NothingIsAccepted(leaves: map<string, string>)
    ensures Climb([], [Step(false, Some(Preimage(MerkleRoot(leaves))))]) == Some(ValueOf(MerkleRoot(leaves)))
  {
    var whole := Preimage(MerkleRoot(leaves));
    assert [] + whole == whole;
    assert [Step(false, Some(whole))][1..] == [];
  }

  /**
   * So does it accept the beginning of any leaf's text, 32 bytes of it included, though that is no node of any tree.
   */
  lemma TextPrefixIsAccepted(leaves: map<string, string>, hotkey: string, cut: nat)
    requires hotkey in leaves && cut <= |Utf8(hotkey + leaves[hotkey])|
    ensures var v := Utf8(hotkey + leaves[hotkey])[..cut];
      Accepted(v, ValueOf(MerkleRoot(leaves))) && forall d :: ValueOf(d) != v
  {
    var v, d := Utf8(hotkey + leaves[hotkey])[..cut], Leaf(hotkey, leaves[hotkey]);
    var i := RowOf(leaves, hotkey);
    assert TreeLeaves(leaves)[i] == d;
    assert OfNode(v, d);
    OfTreeIsAccepted(v, d, TreeLeaves(leaves));
    forall e ensures ValueOf(e) != v {
      assert ValueOf(e)[0].Part?;
    }
  }

  // ---------------------------------------------------------------- soundness for leaves

  lemma {:induction false} LevelsAboveArePairs(d: Digest, leaves: seq<Digest>)
    requires InLevels(d, leaves) && !d.Pair?
    ensures d in leaves
    decreases |leaves|
  {
    if d !in leaves {
      LevelsAboveArePairs(d, Above(leaves));
    }
  }

  lemma LeafOfTree(d: Digest, leaves: seq<Digest>)
    requires Uniform(leaves, 0) && d.Text? && OfTree(ValueOf(d), leaves)
    ensures d in leaves
  {
    var node := HashOfTreeIsNode(Preimage(d), leaves);
    SameBytesSameDigest(node, d);
    LevelsAboveArePairs(d, leaves);
  }

  /** Some entry spells this text, hotkey and hash run together; the empty map spells the empty text. */
  ghost predicate Spells(leaves: map<string, string>, text: string) {
    (leaves == map[] && text == "") || exists name :: name in leaves && name + leaves[name] == text
  }

  lemma SpelledByRow(leaves: map<string, string>, text: string)
    ensures Text(text) in TreeLeaves(leaves) <==> Spells(leaves, text)
  {
    var rows := OrderedLeaves(leaves);
    if Text(text) in TreeLeaves(leaves) && |rows| > 0 {
      var i :| 0 <= i < |rows| && rows[i].1 == Text(text);
      assert rows[i].0 in leaves && rows[i].0 + leaves[rows[i].0] == text;
    }
    if name :| name in leaves && name + leaves[name] == text {
      var i := RowOf(leaves, name);
      assert TreeLeaves(leaves)[i] == Text(text);
    }
  }

  /**
   * Of any map, whatever its hashes look like: some proof is accepted for a leaf hash exactly if an entry spells its
   * text.
   */
  lemma LeafAcceptedExactly(hotkey: string, sha: string, leaves: map<string, string>)
    ensures Accepted(ValueOf(Leaf(hotkey, sha)), ValueOf(MerkleRoot(leaves))) <==> Spells(leaves, hotkey + sha)
  {
    var d, digests := Leaf(hotkey, sha), TreeLeaves(leaves);
    AcceptedByRoot(ValueOf(d), leaves);
    SpelledByRow(leaves, hotkey + sha);
    if OfTree(ValueOf(d), digests) {
      LeafOfTree(d, digests);
    }
    if d in digests {
      assert OfNode(ValueOf(d), d);
    }
  }

  lemma SpelledByEntry(leaves: map<string, string>, hotkey: string, sha: string)
    requires |sha| > 0 && Wide(leaves, |sha|)
    ensures Spells(leaves, hotkey + sha) <==> hotkey in leaves && leaves[hotkey] == sha
  {
    if name :| name in leaves && name + leaves[name] == hotkey + sha {
      JoinInjective(hotkey, sha, name, leaves[name]);
    }
  }

  /**
   * A transcript hash as wide as the sealed ones is accepted under a hotkey exactly if the sealed map has that entry.
   */
  lemma ProofSoundness(hotkey: string, sha: string, leaves: map<string, string>)
    requires |sha| > 0 && Wide(leaves, |sha|)
    ensures Accepted(ValueOf(Leaf(hotkey, sha)), ValueOf(MerkleRoot(leaves))) <==>
      hotkey in leaves && leaves[hotkey] == sha
  {
    LeafAcceptedExactly(hotkey, sha, leaves);
    SpelledByEntry(leaves, hotkey, sha);
  }

  /**
   * Whatever list of leaves is shown, no width asked of it: what verify_leaf confirms, an entry of the sealed map
   * spells.
   */
  lemma VerifyLeafSound(hotkey: string, sha: string, shown: map<string, string>, sealed: map<string, string>)
    requires VerifyLeaf(hotkey, sha, shown, MerkleRoot(sealed))
    ensures Spells(sealed, hotkey + sha)
    ensures |sha| > 0 && Wide(sealed, |sha|) ==> hotkey in sealed && sealed[hotkey] == sha
  {
    LeafAcceptedExactly(hotkey, sha, shown);
    LeafAcceptedExactly(hotkey, sha, sealed);
    if |sha| > 0 && Wide(sealed, |sha|) {
      SpelledByEntry(sealed, hotkey, sha);
    }
  }
}
