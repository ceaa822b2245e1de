/** The append-only row journal: what a file written line by line gives back after a crash. */
module JournalFile {
  import opened Prelude

  type Byte = b: int | 0 <= b < 256
  type Bytes = seq<Byte>

  const NEWLINE: Byte := 10

  /** Parsed JSON. Scalars and lists are kept as text: the journal only tells objects from the rest. */
  datatype Json = Object(fields: map<string, Json>) | Text(text: string) | Other(text: string)

  /** json.dumps with sorted keys, json.loads (None when it raises) and str() of a value that is not text. */
  datatype Codec = Codec(dumps: Json -> Bytes, loads: Bytes -> Option<Json>, show: Json -> string)

  /** Compact JSON escapes newlines, and reading back what was written gives it back. */
  ghost predicate Faithful(c: Codec) {
    forall j :: c.loads(c.dumps(j)) == Some(j) && NEWLINE !in c.dumps(j)
  }

  type Key = (string, string, string)

  /** str(row.get(name, "")); only objects are asked. */
  function Field(c: Codec, row: Json, name: string): string {
    if !row.Object? || name !in row.fields then ""
    else match row.fields[name]
      case Text(text) => text
      case other => c.show(other)
  }

  function RowKey(c: Codec, row: Json): Key {
    (Field(c, row, "pool"), Field(c, row, "condition"), Field(c, row, "item_id"))
  }

  function Header(identity: Json): Json {
    Object(map["journal" := identity])
  }

  function Line(c: Codec, value: Json): Bytes {
    c.dumps(value) + [NEWLINE]
  }

  ghost predicate Objects(rows: seq<Json>) {
    forall i :: 0 <= i < |rows| ==> rows[i].Object?
  }

  function Lines(c: Codec, rows: seq<Json>): Bytes {
    if |rows| == 0 then [] else Line(c, rows[0]) + Lines(c, rows[1..])
  }

  /** A journal file: its header, then one line for each row added. */
  function Written(c: Codec, identity: Json, rows: seq<Json>): Bytes {
    Line(c, Header(identity)) + Lines(c, rows)
  }

  /** Rows entered one by one, a later row replacing an earlier one of the same key. */
  function Overlay(c: Codec, rows: map<Key, Json>, more: seq<Json>): map<Key, Json>
    decreases |more|
  {
    if |more| == 0 then rows else Overlay(c, rows[RowKey(c, more[0]) := more[0]], more[1..])
  }

  function ByKey(c: Codec, rows: seq<Json>): map<Key, Json> {
    Overlay(c, map[], rows)
  }

  // ---------------------------------------------------------------- reading

  /** raw.find(b"\n"), None when there is none. */
  function Find(raw: Bytes): (at: Option<nat>)
    ensures at.Some? ==> at.value < |raw|
  {
    if |raw| == 0 then None
    else if raw[0] == NEWLINE then Some(0)
    else match Find(raw[1..])
      case None => None
      case Some(at) => Some(at + 1)
  }

  lemma {:induction false} FindFacts(raw: Bytes)
    ensures Find(raw).Some? ==> raw[Find(raw).value] == NEWLINE && NEWLINE !in raw[..Find(raw).value]
    ensures Find(raw).None? ==> NEWLINE !in raw
  {
    if |raw| > 0 && raw[0] != NEWLINE {
      FindFacts(raw[1..]);
      if Find(raw).Some? {
        var at := Find(raw).value;
        assert raw[..at] == [raw[0]] + raw[1..][..at - 1];
      }
    }
  }

  /** The row on the first line, and where that line ends, if it ends in a newline and holds an object. */
  function FirstGood(c: Codec, raw: Bytes): (first: Option<(nat, Json)>)
    ensures first.Some? ==> first.value.0 < |raw|
  {
    var at := Find(raw);
    if at.None? then None
    else
      var parsed := c.loads(raw[..at.value]);
      if parsed.None? || !parsed.value.Object? then None else Some((at.value, parsed.value))
  }

  /** The rows on the leading lines that end in a newline and hold an object. */
  function RowsIn(c: Codec, raw: Bytes): seq<Json>
    decreases |raw|
  {
    match FirstGood(c, raw)
    case None => []
    case Some((at, row)) => [row] + RowsIn(c, raw[at + 1..])
  }

  /** How many bytes those lines take. */
  function GoodBytes(c: Codec, raw: Bytes): (good: nat)
    ensures good <= |raw|
    decreases |raw|
  {
    match FirstGood(c, raw)
    case None => 0
    case Some((at, _)) => at + 1 + GoodBytes(c, raw[at + 1..])
  }

  /** The length of a header line that belongs to this identity, or 0. */
  function HeaderBytes(c: Codec, identity: Json, raw: Bytes): (good: nat)
    ensures good <= |raw|
  {
    var at := Find(raw);
    if at.Some? && c.loads(raw[..at.value]) == Some(Header(identity)) then at.value + 1 else 0
  }

  /** What _load leaves on disk. */
  function Kept(c: Codec, identity: Json, raw: Bytes): Bytes {
    var head := HeaderBytes(c, identity, raw);
    if head == 0 then Line(c, Header(identity)) else raw[..head + GoodBytes(c, raw[head..])]
  }

  /** And the rows it finds there. */
  function Found(c: Codec, identity: Json, raw: Bytes): seq<Json> {
    var head := HeaderBytes(c, identity, raw);
    if head == 0 then [] else RowsIn(c, raw[head..])
  }

  // ---------------------------------------------------------------- lines read back

  lemma {:induction false} FindEnd(line: Bytes, tail: Bytes)
    requires NEWLINE !in line
    ensures Find(line + [NEWLINE] + tail) == Some(|line|)
  {
    if |line| > 0 {
      FindEnd(line[1..], tail);
      assert (line + [NEWLINE] + tail)[1..] == line[1..] + [NEWLINE] + tail;
    }
  }

  lemma {:induction false} FindNone(tail: Bytes)
    requires NEWLINE !in tail
    ensures Find(tail).None?
  {
    if |tail| > 0 {
      FindNone(tail[1..]);
    }
  }

  lemma FirstLine(c: Codec, value: Json, tail: Bytes)
    requires Faithful(c)
    ensures var raw := Line(c, value) + tail; var at := |c.dumps(value)|;
      && Find(raw) == Some(at)
      && c.loads(raw[..at]) == Some(value)
      && raw[at + 1..] == tail
  {
    FindEnd(c.dumps(value), tail);
    var raw := Line(c, value) + tail;
    assert raw[..|c.dumps(value)|] == c.dumps(value);
  }

  /** Whole lines come back as they were, and nothing else does. */
  lemma {:induction false} LinesReadBack(c: Codec, rows: seq<Json>, tail: Bytes)
    requires Faithful(c) && Objects(rows) && NEWLINE !in tail
    ensures RowsIn(c, Lines(c, rows) + tail) == rows
    ensures GoodBytes(c, Lines(c, rows) + tail) == |Lines(c, rows)|
  {
    if |rows| == 0 {
      assert Lines(c, rows) + tail == tail;
      FindNone(tail);
    } else {
      var rest := Lines(c, rows[1..]) + tail;
      assert Lines(c, rows) + tail == Line(c, rows[0]) + rest;
      FirstLine(c, rows[0], rest);
      LinesReadBack(c, rows[1..], tail);
    }
  }

  /** Any prefix of lines is some whole lines and a torn tail without a newline. */
  lemma {:induction false} TornTail(c: Codec, rows: seq<Json>, n: nat) returns (k: nat, tail: Bytes)
    requires Faithful(c) && n <= |Lines(c, rows)|
    ensures k <= |rows| && NEWLINE !in tail
    ensures Lines(c, rows)[..n] == Lines(c, rows[..k]) + tail
    ensures k < |rows| ==> |tail| < |Line(c, rows[k])|
    ensures k == |rows| ==> tail == []
  {
    if |rows| == 0 {
      k, tail := 0, [];
    } else {
      var line := Line(c, rows[0]);
      if n < |line| {
        k, tail := 0, Lines(c, rows)[..n];
        assert tail == c.dumps(rows[0])[..n];
      } else {
        k, tail := TornTail(c, rows[1..], n - |line|);
        assert Lines(c, rows) == line + Lines(c, rows[1..]);
        PrefixOfConcat(line, Lines(c, rows[1..]), n);
        assert rows[..k + 1][1..] == rows[1..][..k];
        assert Lines(c, rows[..k + 1]) == line + Lines(c, rows[1..][..k]);
        k := k + 1;
      }
    }
  }

  // ---------------------------------------------------------------- recovery

  /** k is how many row lines lie whole within the first n bytes of the file. */
  ghost predicate Survive(c: Codec, identity: Json, rows: seq<Json>, n: nat, k: nat) {
    && k <= |rows|
    && (|Written(c, identity, rows[..k])| <= n || k == 0)
    && (k < |rows| ==> |Written(c, identity, rows[..k + 1])| > n)
  }

  lemma {:induction false} LinesLength(c: Codec, rows: seq<Json>, k: nat)
    requires k < |rows|
    ensures |Lines(c, rows[..k + 1])| == |Lines(c, rows[..k])| + |Line(c, rows[k])|
  {
    if k > 0 {
      LinesLength(c, rows[1..], k - 1);
      assert rows[..k + 1][1..] == rows[1..][..k] && rows[..k][1..] == rows[1..][..k - 1];
    } else {
      assert rows[..1] == [rows[0]];
    }
  }

  /** From any byte prefix, the same identity gets back exactly the rows whose whole line survived. */
  lemma CrashRecovery(c: Codec, identity: Json, rows: seq<Json>, n: nat) returns (k: nat)
    requires Faithful(c) && Objects(rows) && n <= |Written(c, identity, rows)|
    ensures Survive(c, identity, rows, n, k)
    ensures Kept(c, identity, Written(c, identity, rows)[..n]) == Written(c, identity, rows[..k])
    ensures Found(c, identity, Written(c, identity, rows)[..n]) == rows[..k]
  {
    var head := Line(c, Header(identity));
    var raw := Written(c, identity, rows)[..n];
    if n < |head| {
      k := 0;
      assert raw == c.dumps(Header(identity))[..n];
      assert NEWLINE !in raw;
      FindNone(raw);
      assert rows[..0] == [];
      if |rows| > 0 {
        LinesLength(c, rows, 0);
      }
    } else {
      var tail;
      k, tail := TornTail(c, rows, n - |head|);
      var body := Lines(c, rows[..k]) + tail;
      assert raw == head + body;
      FirstLine(c, Header(identity), body);
      assert HeaderBytes(c, identity, raw) == |head| && raw[|head|..] == body;
      LinesReadBack(c, rows[..k], tail);
      assert raw[..|head| + |Lines(c, rows[..k])|] == Written(c, identity, rows[..k]);
      assert n == |head| + |Lines(c, rows[..k])| + |tail|;
      if k < |rows| {
        LinesLength(c, rows, k);
      }
    }
  }

  /** A whole file is read back whole. */
  lemma WholeFile(c: Codec, identity: Json, rows: seq<Json>)
    requires Faithful(c) && Objects(rows)
    ensures Kept(c, identity, Written(c, identity, rows)) == Written(c, identity, rows)
    ensures Found(c, identity, Written(c, identity, rows)) == rows
  {
    var body := Lines(c, rows);
    assert body + [] == body;
    LinesReadBack(c, rows, []);
    FirstLine(c, Header(identity), body);
    var all := Written(c, identity, rows);
    assert all[..|all|] == all;
  }

  /** Another identity finds no row and starts the file over. */
  lemma OtherIdentity(c: Codec, identity: Json, other: Json, rows: seq<Json>, n: nat)
    requires Faithful(c) && identity != other && n <= |Written(c, identity, rows)|
    ensures Kept(c, other, Written(c, identity, rows)[..n]) == Written(c, other, [])
    ensures Found(c, other, Written(c, identity, rows)[..n]) == []
  {
    var head := Line(c, Header(identity));
    var raw := Written(c, identity, rows)[..n];
    assert HeaderBytes(c, other, raw) == 0 by {
      if n < |head| {
        assert raw == c.dumps(Header(identity))[..n];
        FindNone(raw);
      } else {
        assert raw == head + raw[|head|..];
        FirstLine(c, Header(identity), raw[|head|..]);
        HeadersDiffer(identity, other);
      }
    }
    assert Line(c, Header(other)) + [] == Line(c, Header(other));
  }

  lemma HeadersDiffer(a: Json, b: Json)
    requires a != b
    ensures Header(a) != Header(b)
  {
    assert Header(a).fields["journal"] == a && Header(b).fields["journal"] == b;
  }

  lemma {:induction false} LinesAppend(c: Codec, rows: seq<Json>, more: seq<Json>)
    ensures Lines(c, rows + more) == Lines(c, rows) + Lines(c, more)
  {
    if |rows| == 0 {
      assert rows + more == more;
    } else {
      LinesAppend(c, rows[1..], more);
      assert (rows + more)[1..] == rows[1..] + more && (rows + more)[0] == rows[0];
      Associative(Line(c, rows[0]), Lines(c, rows[1..]), Lines(c, more));
    }
  }

  /** Whole lines written behind the good part are read behind its rows. */
  lemma {:induction false} GoodPartAppend(c: Codec, raw: Bytes, more: seq<Json>)
    requires Faithful(c) && Objects(more)
    ensures var all := raw[..GoodBytes(c, raw)] + Lines(c, more);
      RowsIn(c, all) == RowsIn(c, raw) + more && GoodBytes(c, all) == |all|
    decreases |raw|
  {
    var first, lines := FirstGood(c, raw), Lines(c, more);
    if first.Some? {
      var at, row := first.value.0, first.value.1;
      var rest := raw[at + 1..];
      var all, tail := raw[..GoodBytes(c, raw)] + lines, rest[..GoodBytes(c, rest)] + lines;
      GoodPartAppend(c, rest, more);
      FirstGoodStays(c, raw, at, row, rest, lines);
      RowThen(c, all, at, row, tail);
      RowThen(c, raw, at, row, rest);
      Associative([row], RowsIn(c, rest), more);
    } else {
      assert raw[..0] + lines == lines + [];
      LinesReadBack(c, more, []);
    }
  }

  lemma FirstGoodStays(c: Codec, raw: Bytes, at: nat, row: Json, rest: Bytes, lines: Bytes)
    requires FirstGood(c, raw) == Some((at, row)) && rest == raw[at + 1..]
    ensures var all := raw[..GoodBytes(c, raw)] + lines;
      FirstGood(c, all) == Some((at, row)) && all[at + 1..] == rest[..GoodBytes(c, rest)] + lines
  {
    LineThen(raw, at, GoodBytes(c, rest), lines);
  }

  lemma RowThen(c: Codec, raw: Bytes, at: nat, row: Json, rest: Bytes)
    requires FirstGood(c, raw) == Some((at, row)) && rest == raw[at + 1..]
    ensures RowsIn(c, raw) == [row] + RowsIn(c, rest) && GoodBytes(c, raw) == at + 1 + GoodBytes(c, rest)
  {
  }

  /** The first line of a file that is cut further on and written to again. */
  lemma LineThen(raw: Bytes, at: nat, kept: nat, tail: Bytes)
    requires Find(raw) == Some(at) && at + 1 + kept <= |raw|
    ensures var all := raw[..at + 1 + kept] + tail;
      Find(all) == Some(at) && all[..at] == raw[..at] && all[at + 1..] == raw[at + 1..][..kept] + tail
  {
    var rest := raw[at + 1..][..kept] + tail;
    FindFacts(raw);
    assert raw[..at + 1 + kept] + tail == raw[..at] + [NEWLINE] + rest;
    FindEnd(raw[..at], rest);
  }

  /**
   * Whatever bytes were found on disk, rows added after opening are read behind the rows found, and nothing is cut off
   * again.
   */
  lemma AddedAreRead(c: Codec, identity: Json, raw: Bytes, more: seq<Json>)
    requires Faithful(c) && Objects(more)
    ensures var file := Kept(c, identity, raw) + Lines(c, more);
      Found(c, identity, file) == Found(c, identity, raw) + more && Kept(c, identity, file) == file
  {
    var head := HeaderBytes(c, identity, raw);
    if head == 0 {
      WholeFile(c, identity, more);
      assert Kept(c, identity, raw) + Lines(c, more) == Written(c, identity, more);
    } else {
      AddedBehindHeader(c, identity, raw, head, more);
    }
  }

  lemma AddedBehindHeader(c: Codec, identity: Json, raw: Bytes, head: nat, more: seq<Json>)
    requires Faithful(c) && Objects(more) && head == HeaderBytes(c, identity, raw) > 0
    ensures var file := Kept(c, identity, raw) + Lines(c, more);
      Found(c, identity, file) == Found(c, identity, raw) + more && Kept(c, identity, file) == file
  {
    var file := Kept(c, identity, raw) + Lines(c, more);
    GoodPartAppend(c, raw[head..], more);
    HeaderThen(c, identity, raw, head, Lines(c, more));
    assert file[..|file|] == file;
  }

  /** Whatever bytes are on disk, opening twice is opening once. */
  lemma ReopenChangesNothing(c: Codec, identity: Json, raw: Bytes)
    requires Faithful(c)
    ensures Kept(c, identity, Kept(c, identity, raw)) == Kept(c, identity, raw)
    ensures Found(c, identity, Kept(c, identity, raw)) == Found(c, identity, raw)
  {
    AddedAreRead(c, identity, raw, []);
    assert Kept(c, identity, raw) + [] == Kept(c, identity, raw);
  }

  /** A recovered file that is written to again keeps its header and what came behind it. */
  lemma HeaderThen(c: Codec, identity: Json, raw: Bytes, head: nat, tail: Bytes)
    requires head == HeaderBytes(c, identity, raw) > 0
    ensures var file := Kept(c, identity, raw) + tail; var rest := raw[head..];
      HeaderBytes(c, identity, file) == head && file[head..] == rest[..GoodBytes(c, rest)] + tail
  {
    LineThen(raw, head - 1, GoodBytes(c, raw[head..]), tail);
  }

  lemma WrittenMore(c: Codec, identity: Json, rows: seq<Json>, more: seq<Json>)
    ensures Written(c, identity, rows) + Lines(c, more) == Written(c, identity, rows + more)
  {
    LinesAppend(c, rows, more);
    Associative(Line(c, Header(identity)), Lines(c, rows), Lines(c, more));
  }

  /** Adding to a recovered file continues the file of the rows it kept. */
  lemma AddContinues(c: Codec, identity: Json, rows: seq<Json>, row: Json)
    ensures Written(c, identity, rows) + Line(c, row) == Written(c, identity, rows + [row])
  {
    WrittenMore(c, identity, rows, [row]);
    assert Lines(c, [row]) == Line(c, row);
  }

  // ---------------------------------------------------------------- the loop of _load

  /** The loop over the rest of the file, behind a given number of good bytes: where it stops, with the rows it has. */
  function Scan(c: Codec, identity: Json, rest: Bytes, good: nat, rows: map<Key, Json>): (r: (nat, map<Key, Json>))
    ensures r.0 <= good + |rest|
    decreases |rest|
  {
    var at := Find(rest);
    if at.None? then (good, rows)
    else
      var parsed := c.loads(rest[..at.value]);
      if parsed.None? then (good, rows)
      else if good == 0 then
        if parsed.value == Header(identity) then
          Scan(c, identity, rest[at.value + 1..], at.value + 1, rows)
        else (0, rows)
      else if parsed.value.Object? then
        Scan(c, identity, rest[at.value + 1..], good + at.value + 1, rows[RowKey(c, parsed.value) := parsed.value])
      else
        (good, rows)
  }

  lemma OverlayCons(c: Codec, rows: map<Key, Json>, row: Json, more: seq<Json>)
    ensures Overlay(c, rows, [row] + more) == Overlay(c, rows[RowKey(c, row) := row], more)
  {
    assert ([row] + more)[1..] == more;
  }

  lemma {:induction false} ScanRows(c: Codec, identity: Json, rest: Bytes, good: nat, rows: map<Key, Json>)
    requires good > 0
    ensures Scan(c, identity, rest, good, rows) == (good + GoodBytes(c, rest), Overlay(c, rows, RowsIn(c, rest)))
    decreases |rest|
  {
    var first := FirstGood(c, rest);
    if first.Some? {
      var at, row := first.value.0, first.value.1;
      ScanRows(c, identity, rest[at + 1..], good + at + 1, rows[RowKey(c, row) := row]);
      OverlayCons(c, rows, row, RowsIn(c, rest[at + 1..]));
    }
  }

  lemma ScanMeaning(c: Codec, identity: Json, raw: Bytes)
    ensures var (good, rows) := Scan(c, identity, raw, 0, map[]);
      && Kept(c, identity, raw) == (if good == 0 then Line(c, Header(identity)) else raw[..good])
      && ByKey(c, Found(c, identity, raw)) == rows
  {
    var head := HeaderBytes(c, identity, raw);
    if head > 0 {
      ScanRows(c, identity, raw[head..], head, map[]);
    }
  }

  // ---------------------------------------------------------------- the last row of a key

  /** The last of these rows that has the key. */
  function LastFiled(c: Codec, rows: seq<Json>, key: Key): Option<Json> {
    if |rows| == 0 then None
    else if RowKey(c, rows[|rows| - 1]) == key then Some(rows[|rows| - 1])
    else LastFiled(c, rows[..|rows| - 1], key)
  }

  lemma {:induction false} OverlayLast(c: Codec, rows: map<Key, Json>, more: seq<Json>, row: Json)
    ensures Overlay(c, rows, more + [row]) == Overlay(c, rows, more)[RowKey(c, row) := row]
    decreases |more|
  {
    if |more| == 0 {
      assert more + [row] == [row] && [row][1..] == [];
    } else {
      OverlayLast(c, rows[RowKey(c, more[0]) := more[0]], more[1..], row);
      assert (more + [row])[1..] == more[1..] + [row];
    }
  }

  /** A dict filled row by row has, for every key, the last row filed under it. */
  lemma {:induction false} ByKeyIsLast(c: Codec, rows: seq<Json>, key: Key)
    ensures LastFiled(c, rows, key) == if key in ByKey(c, rows) then Some(ByKey(c, rows)[key]) else None
  {
    if |rows| > 0 {
      var before := rows[..|rows| - 1];
      ByKeyIsLast(c, before, key);
      OverlayLast(c, map[], before, rows[|rows| - 1]);
      assert rows == before + [rows[|rows| - 1]];
    }
  }

  // ---------------------------------------------------------------- rows by their own fields

  /** A row says this text under a name: as text, shown if it is no text, or the empty text if it has no such field. */
  ghost predicate Says(c: Codec, row: Json, name: string, text: string) {
    row.Object? &&
    if name !in row.fields then text == ""
    else if row.fields[name].Text? then row.fields[name] == Text(text)
    else c.show(row.fields[name]) == text
  }

  /** A row of this pool, this condition and this item. */
  ghost predicate IsRowFor(c: Codec, row: Json, pool: string, condition: string, itemId: string) {
    Says(c, row, "pool", pool) && Says(c, row, "condition", condition) && Says(c, row, "item_id", itemId)
  }

  lemma FiledByFields(c: Codec, row: Json, pool: string, condition: string, itemId: string)
    requires row.Object?
    ensures RowKey(c, row) == (pool, condition, itemId) <==> IsRowFor(c, row, pool, condition, itemId)
  {
  }

  /** r is the last of these rows for that pool, condition and item, None if there is none. */
  ghost predicate IsLastFor(c: Codec, rows: seq<Json>, pool: string, condition: string, itemId: string, r: Option<Json>)
  {
    match r
    case None => forall i :: 0 <= i < |rows| ==> !IsRowFor(c, rows[i], pool, condition, itemId)
    case Some(row) =>
      exists k ::
        && 0 <= k < |rows| && rows[k] == row && IsRowFor(c, row, pool, condition, itemId)
        && forall i :: k < i < |rows| ==> !IsRowFor(c, rows[i], pool, condition, itemId)
  }

  lemma LastForMore(c: Codec, rows: seq<Json>, row: Json, pool: string, condition: string, itemId: string,
                    r: Option<Json>)
    requires IsLastFor(c, rows, pool, condition, itemId, r) && !IsRowFor(c, row, pool, condition, itemId)
    ensures IsLastFor(c, rows + [row], pool, condition, itemId, r)
  {
    var all := rows + [row];
    if r.Some? {
      var k :| 0 <= k < |rows| && rows[k] == r.value && IsRowFor(c, r.value, pool, condition, itemId)
        && forall i :: k < i < |rows| ==> !IsRowFor(c, rows[i], pool, condition, itemId);
      assert all[k] == r.value;
      forall i | k < i < |all| ensures !IsRowFor(c, all[i], pool, condition, itemId) {
        assert i < |rows| ==> all[i] == rows[i];
      }
    } else {
      forall i | 0 <= i < |all| ensures !IsRowFor(c, all[i], pool, condition, itemId) {
        assert i < |rows| ==> all[i] == rows[i];
      }
    }
  }

  lemma LastForThis(c: Codec, rows: seq<Json>, row: Json, pool: string, condition: string, itemId: string)
    requires IsRowFor(c, row, pool, condition, itemId)
    ensures IsLastFor(c, rows + [row], pool, condition, itemId, Some(row))
  {
    assert (rows + [row])[|rows|] == row;
  }

  lemma {:induction false} LastFiledIsLast(c: Codec, rows: seq<Json>, pool: string, condition: string, itemId: string)
    requires Objects(rows)
    ensures IsLastFor(c, rows, pool, condition, itemId, LastFiled(c, rows, (pool, condition, itemId)))
  {
    if |rows| > 0 {
      var before, row := rows[..|rows| - 1], rows[|rows| - 1];
      FiledByFields(c, row, pool, condition, itemId);
      assert rows == before + [row];
      if RowKey(c, row) == (pool, condition, itemId) {
        LastForThis(c, before, row, pool, condition, itemId);
      } else {
        LastFiledIsLast(c, before, pool, condition, itemId);
        LastForMore(c, before, row, pool, condition, itemId, LastFiled(c, before, (pool, condition, itemId)));
      }
    }
  }

  lemma {:induction false} FoundObjects(c: Codec, raw: Bytes)
    ensures Objects(RowsIn(c, raw))
    decreases |raw|
  {
    var first := FirstGood(c, raw);
    if first.Some? {
      FoundObjects(c, raw[first.value.0 + 1..]);
    }
  }

  /** What has these three texts in its fields is found under them, once it was added and after any later opening. */
  lemma AddedIsFound(c: Codec, identity: Json, raw: Bytes, fields: map<string, Json>, pool: string, condition: string,
                     itemId: string)
    requires Faithful(c)
    requires "pool" in fields && fields["pool"] == Text(pool)
    requires "condition" in fields && fields["condition"] == Text(condition)
    requires "item_id" in fields && fields["item_id"] == Text(itemId)
    ensures var file := Kept(c, identity, raw) + Line(c, Object(fields));
      && Kept(c, identity, file) == file
      && LastFiled(c, Found(c, identity, file), (pool, condition, itemId)) == Some(Object(fields))
  {
    var row := Object(fields);
    AddedAreRead(c, identity, raw, [row]);
    assert Lines(c, [row]) == Line(c, row);
    FiledByFields(c, row, pool, condition, itemId);
    var rows := Found(c, identity, raw) + [row];
    assert rows[|rows| - 1] == row;
  }

  // ---------------------------------------------------------------- the journal object

  /** One run's journal over the bytes it found on disk. */
  class Journal {
    const codec: Codec
    const identity: Json
    var file: Bytes
    var rows: map<Key, Json>

    /** The dict holds exactly what opening the file again would find, and that would cut nothing off. */
    ghost predicate Valid()
      reads this
    {
      && Faithful(codec)
      && Kept(codec, identity, file) == file
      && rows == ByKey(codec, Found(codec, identity, file))
    }

    constructor (codec: Codec, identity: Json, raw: Bytes)
      requires Faithful(codec)
      ensures Valid() && this.codec == codec && this.identity == identity
      ensures file == Kept(codec, identity, raw)
      ensures Found(codec, identity, file) == Found(codec, identity, raw)
    {
      this.codec := codec;
      this.identity := identity;
      this.file := raw;
      this.rows := map[];
      new;
      Load();
    }

    /** Read line by line; stop at the first line that is torn, foreign or no object; cut the file there. */
    method Load()
      requires Faithful(codec) && rows == map[]
      modifies this
      ensures Valid() && file == Kept(codec, identity, old(file))
      ensures Found(codec, identity, file) == Found(codec, identity, old(file))
    {
      var raw := file;
      var good := ReadLines(raw);
      if good == 0 {
        file := Line(codec, Header(identity));
      } else if good < |raw| {
        file := raw[..good];
      }
      assert raw[..|raw|] == raw;
      ScanMeaning(codec, identity, raw);
      ReopenChangesNothing(codec, identity, raw);
    }

    /** The loop of _load: rows entered line by line, and how many bytes were good. */
    method ReadLines(raw: Bytes) returns (good: nat)
      requires rows == map[]
      modifies this`rows
      ensures (good, rows) == Scan(codec, identity, raw, 0, map[])
    {
      good := 0;
      var rest := raw;
      while true
        invariant Scan(codec, identity, rest, good, rows) == Scan(codec, identity, raw, 0, map[])
        decreases |rest|
      {
        var position := Find(rest);
        if position.None? {
          break;
        }
        var parsed := codec.loads(rest[..position.value]);
        if parsed.None? {
          break;
        }
        if good == 0 {
          if parsed.value != Header(identity) {
            break;
          }
        } else if parsed.value.Object? {
          rows := rows[RowKey(codec, parsed.value) := parsed.value];
        } else {
          break;
        }
        good := good + position.value + 1;
        rest := rest[position.value + 1..];
      }
    }

    /** The last row in the file that names this pool, condition and item. */
    method Take(pool: string, condition: string, itemId: string) returns (row: Option<Json>)
      requires Valid()
      ensures IsLastFor(codec, Found(codec, identity, file), pool, condition, itemId, row)
      ensures row == LastFiled(codec, Found(codec, identity, file), (pool, condition, itemId))
      ensures row.Some? <==> (pool, condition, itemId) in rows
      ensures row.Some? ==> row.value == rows[(pool, condition, itemId)]
    {
      ByKeyIsLast(codec, Found(codec, identity, file), (pool, condition, itemId));
      FoundObjects(codec, file[HeaderBytes(codec, identity, file)..]);
      LastFiledIsLast(codec, Found(codec, identity, file), pool, condition, itemId);
      row := if (pool, condition, itemId) in rows then Some(rows[(pool, condition, itemId)]) else None;
    }

    /** Once added, a row is what opening the file again finds behind the rows it held. */
    method Add(row: Json)
      requires Valid() && row.Object?
      modifies this
      ensures Valid() && rows == old(rows)[RowKey(codec, row) := row]
      ensures file == old(file) + Line(codec, row)
      ensures Found(codec, identity, file) == old(Found(codec, identity, file)) + [row]
    {
      AddedAreRead(codec, identity, file, [row]);
      assert Lines(codec, [row]) == Line(codec, row);
      OverlayLast(codec, map[], Found(codec, identity, file), row);
      rows := rows[RowKey(codec, row) := row];
      file := file + Line(codec, row);
    }
  }
}
