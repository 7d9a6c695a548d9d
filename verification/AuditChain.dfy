/** The audit hash chain: linked digests over length-prefixed fields.

    A character stands for a byte.  SHA-256 in hexadecimal is an arbitrary function to non-empty
    text; where a conclusion depends on it being free of collisions, the conclusion names the two
    encodings that would have to collide. */
module AuditEncoding {

  /** Go strings are shorter than 2^63 bytes, so their length fits the 8-byte prefix. */
  type Text = s: string | |s| < 0x8000_0000_0000_0000 witness ""

  type Hash = string -> Text

  datatype Details = Details(
    action: Text, target: Text, result: Text, sourceAddress: Text,
    actorUserID: Text, actorUsername: Text, actorRole: Text,
    requestID: Text, assurance: Text, revision: Text, resourceDigest: Text)

  datatype Event = Event(occurredAt: Text, details: Details)

  const CHAIN_V1: Text := "scriptboard-audit-chain-v1"
  const CHAIN_V2: Text := "scriptboard-audit-chain-v2"
  const CHAIN_V3: Text := "scriptboard-audit-chain-v3"

  function Power256(width: nat): nat {
    if width == 0 then 1 else 256 * Power256(width - 1)
  }

  /** Big-endian bytes of a number. */
  function BigEndian(n: nat, width: nat): (bytes: string)
    ensures |bytes| == width
  {
    if width == 0 then "" else BigEndian(n / 256, width - 1) + [(n % 256) as char]
  }

  function Field(value: Text): string {
    BigEndian(|value|, 8) + value
  }

  function EncodeFields(values: seq<Text>): string {
    if values == [] then "" else Field(values[0]) + EncodeFields(values[1..])
  }

  /** The fields that are hashed: the later columns choose between three forms. */
  function Fields(previous: Text, event: Event): seq<Text> {
    var d := event.details;
    var common := [previous, event.occurredAt, d.action, d.target, d.result,
                   d.sourceAddress, d.actorUserID, d.actorUsername, d.actorRole];
    if d.revision != "" || d.resourceDigest != "" then
      [CHAIN_V3] + common + [d.requestID, d.assurance, d.revision, d.resourceDigest]
    else if d.requestID != "" || d.assurance != "" then
      [CHAIN_V2] + common + [d.requestID, d.assurance]
    else
      [CHAIN_V1] + common
  }

  function Encoding(previous: Text, event: Event): string {
    EncodeFields(Fields(previous, event))
  }

  function EventDigest(hash: Hash, previous: Text, event: Event): Text {
    hash(Encoding(previous, event))
  }

  lemma {:induction false} BigEndianInjective(m: nat, n: nat, width: nat)
    requires m < Power256(width) && n < Power256(width) && BigEndian(m, width) == BigEndian(n, width)
    ensures m == n
  {
    if width > 0 {
      var left, right := BigEndian(m, width), BigEndian(n, width);
      assert left[width - 1] == (m % 256) as char && right[width - 1] == (n % 256) as char;
      assert BigEndian(m / 256, width - 1) == left[..width - 1];
      assert BigEndian(n / 256, width - 1) == right[..width - 1];
      BigEndianInjective(m / 256, n / 256, width - 1);
    }
  }

  lemma LengthFits(value: Text)
    ensures |value| < Power256(8)
  {
    assert Power256(2) == 0x1_0000;
    assert Power256(4) == 0x1_0000_0000;
    assert Power256(6) == 0x1_0000_0000_0000;
  }

  lemma FieldCut(a: Text, b: Text, x: string, y: string)
    requires Field(a) + x == Field(b) + y
    ensures a == b && x == y
  {
    var left, right := Field(a) + x, Field(b) + y;
    assert BigEndian(|a|, 8) == left[..8] && BigEndian(|b|, 8) == right[..8];
    LengthFits(a);
    LengthFits(b);
    BigEndianInjective(|a|, |b|, 8);
    assert a == left[8..8 + |a|] && b == right[8..8 + |b|];
    assert x == left[8 + |a|..] && y == right[8 + |b|..];
  }

  /** Length-prefixed fields decode uniquely. */
  lemma {:induction false} FieldsDecode(left: seq<Text>, right: seq<Text>)
    requires EncodeFields(left) == EncodeFields(right)
    ensures left == right
  {
    if left != [] && right != [] {
      FieldCut(left[0], right[0], EncodeFields(left[1..]), EncodeFields(right[1..]));
      FieldsDecode(left[1..], right[1..]);
    }
  }

  /** One encoding belongs to one predecessor and one event, across all three forms. */
  lemma EncodingInjective(p: Text, e: Event, q: Text, f: Event)
    requires Encoding(p, e) == Encoding(q, f)
    ensures p == q && e == f
  {
    var left, right := Fields(p, e), Fields(q, f);
    FieldsDecode(left, right);
    assert CHAIN_V1[25] == '1' && CHAIN_V2[25] == '2' && CHAIN_V3[25] == '3';
    assert left[0] == right[0] && |left| == |right|;
    assert forall i | 1 <= i < |left| :: left[i] == right[i];
    var d, g := e.details, f.details;
    assert p == left[1] && q == right[1];
    assert e.occurredAt == left[2] && f.occurredAt == right[2];
    assert d.action == left[3] && g.action == right[3];
    assert d.target == left[4] && g.target == right[4];
    assert d.result == left[5] && g.result == right[5];
    assert d.sourceAddress == left[6] && g.sourceAddress == right[6];
    assert d.actorUserID == left[7] && g.actorUserID == right[7];
    assert d.actorUsername == left[8] && g.actorUsername == right[8];
    assert d.actorRole == left[9] && g.actorRole == right[9];
    if |left| > 10 {
      assert d.requestID == left[10] && g.requestID == right[10];
      assert d.assurance == left[11] && g.assurance == right[11];
      if |left| > 12 {
        assert d.revision == left[12] && g.revision == right[12];
        assert d.resourceDigest == left[13] && g.resourceDigest == right[13];
      }
    }
  }
}

module AuditChain {
  import opened AuditEncoding
  import opened Wrappers

  /** How SQLite stores the text bound to the INTEGER column `occurred_at`. */
  datatype Column = Number(seconds: int) | NotANumber

  /** What this model does not look into: the hash, SQLite's column affinity, Go's integer
      formatting, and secret redaction. */
  datatype Platform = Platform(hash: Hash, affinity: Text -> Column, format: int -> Text, redact: Details -> Details)

  ghost predicate Sound(platform: Platform) {
    forall text :: platform.hash(text) != ""
  }

  datatype Row = Row(id: nat, occurredAt: Column, details: Details, previous: Text, hash: Text)

  /** `audit_events` in ID order and the single row of `audit_chain_state`; IDs are never reused. */
  datatype Chain = Chain(anchor: Text, tail: Text, rows: seq<Row>, nextID: nat)

  predicate Indexed(chain: Chain) {
    0 < chain.nextID &&
    (forall i | 0 <= i < |chain.rows| :: 0 < chain.rows[i].id < chain.nextID) &&
    forall i, j | 0 <= i < j < |chain.rows| :: chain.rows[i].id < chain.rows[j].id
  }

  /** The event that `Verify` reconstructs from a row. */
  function ReadBack(platform: Platform, row: Row): Event
    requires row.occurredAt.Number?
  {
    Event(platform.format(row.occurredAt.seconds), row.details)
  }

  /** A row is sealed when its own hash is the digest of its predecessor and its contents. */
  predicate Sealed(platform: Platform, row: Row) {
    row.occurredAt.Number? && row.hash != "" &&
    row.hash == EventDigest(platform.hash, row.previous, ReadBack(platform, row))
  }

  /** The digest that row i must point at; for i == |rows| the tail that the list must end in. */
  function Before(anchor: Text, rows: seq<Row>, i: nat): Text
    requires i <= |rows|
  {
    if i == 0 then anchor else rows[i - 1].hash
  }

  function EndOf(anchor: Text, rows: seq<Row>): Text {
    Before(anchor, rows, |rows|)
  }

  predicate LinkedAt(platform: Platform, anchor: Text, rows: seq<Row>, i: nat)
    requires i < |rows|
  {
    rows[i].previous == Before(anchor, rows, i) && Sealed(platform, rows[i])
  }

  predicate Linked(platform: Platform, anchor: Text, rows: seq<Row>) {
    forall i | 0 <= i < |rows| :: LinkedAt(platform, anchor, rows, i)
  }

  predicate Verifies(platform: Platform, chain: Chain) {
    Linked(platform, chain.anchor, chain.rows) && EndOf(chain.anchor, chain.rows) == chain.tail
  }

  /** The checkpoint test: ID 0 means the anchor, any other ID an existing row. */
  predicate Holds(chain: Chain, eventID: nat, digest: Text) {
    if eventID == 0 then chain.anchor == digest
    else digest != "" && exists i | 0 <= i < |chain.rows| :: chain.rows[i].id == eventID && chain.rows[i].hash == digest
  }

  // ---------------------------------------------------------------- one chain against another

  ghost predicate RowsCollide(platform: Platform, a: Row, b: Row) {
    a.occurredAt.Number? && b.occurredAt.Number? &&
    Collide(platform.hash, Encoding(a.previous, ReadBack(platform, a)), Encoding(b.previous, ReadBack(platform, b)))
  }

  ghost predicate SameRecord(platform: Platform, a: Row, b: Row) {
    a.occurredAt.Number? && b.occurredAt.Number? && ReadBack(platform, a) == ReadBack(platform, b) &&
    a.previous == b.previous && a.hash == b.hash
  }

  ghost predicate SameEvents(platform: Platform, left: seq<Row>, right: seq<Row>) {
    |left| == |right| && forall i | 0 <= i < |left| :: SameRecord(platform, left[i], right[i])
  }

  ghost predicate SomeCollision(platform: Platform, left: seq<Row>, right: seq<Row>) {
    exists i | 0 <= i < |left| && i < |right| :: RowsCollide(platform, left[i], right[i])
  }

  lemma LinkedPrefix(platform: Platform, anchor: Text, rows: seq<Row>, count: nat)
    requires count <= |rows| && Linked(platform, anchor, rows)
    ensures Linked(platform, anchor, rows[..count])
  {
    forall i | 0 <= i < count ensures LinkedAt(platform, anchor, rows[..count], i) {
      assert LinkedAt(platform, anchor, rows, i);
    }
  }

  lemma LinkedSuffix(platform: Platform, anchor: Text, rows: seq<Row>, count: nat)
    requires count <= |rows| && Linked(platform, anchor, rows)
    ensures Linked(platform, Before(anchor, rows, count), rows[count..])
    ensures EndOf(Before(anchor, rows, count), rows[count..]) == EndOf(anchor, rows)
  {
    forall i | 0 <= i < |rows| - count ensures LinkedAt(platform, Before(anchor, rows, count), rows[count..], i) {
      assert LinkedAt(platform, anchor, rows, count + i);
    }
  }

  lemma SealsAgree(platform: Platform, a: Row, b: Row)
    requires Sealed(platform, a) && Sealed(platform, b) && a.hash == b.hash
    ensures SameRecord(platform, a, b) || RowsCollide(platform, a, b)
  {
    if !RowsCollide(platform, a, b) {
      EncodingInjective(a.previous, ReadBack(platform, a), b.previous, ReadBack(platform, b));
    }
  }

  lemma LastRowsAgree(platform: Platform, a: Text, left: seq<Row>, b: Text, right: seq<Row>)
    requires |left| == |right| > 0 && Linked(platform, a, left) && Linked(platform, b, right)
    requires EndOf(a, left) == EndOf(b, right)
    ensures var last := |left| - 1;
            && Linked(platform, a, left[..last]) && Linked(platform, b, right[..last])
            && (RowsCollide(platform, left[last], right[last]) ||
                (SameRecord(platform, left[last], right[last]) && EndOf(a, left[..last]) == EndOf(b, right[..last])))
  {
    var last := |left| - 1;
    assert LinkedAt(platform, a, left, last) && LinkedAt(platform, b, right, last);
    SealsAgree(platform, left[last], right[last]);
    LinkedPrefix(platform, a, left, last);
    LinkedPrefix(platform, b, right, last);
  }

  lemma {:induction false} SameEndSameLength(platform: Platform, a: Text, left: seq<Row>, b: Text, right: seq<Row>)
    requires |left| == |right| && Linked(platform, a, left) && Linked(platform, b, right)
    requires EndOf(a, left) == EndOf(b, right)
    ensures (SameEvents(platform, left, right) && a == b) || SomeCollision(platform, left, right)
    decreases |left|
  {
    if left != [] {
      var last := |left| - 1;
      LastRowsAgree(platform, a, left, b, right);
      if !RowsCollide(platform, left[last], right[last]) {
        SameEndSameLength(platform, a, left[..last], b, right[..last]);
        LastAndEarlier(platform, left, right);
      }
    }
  }

  lemma LastAndEarlier(platform: Platform, left: seq<Row>, right: seq<Row>)
    requires |left| == |right| > 0 && SameRecord(platform, left[|left| - 1], right[|left| - 1])
    ensures var last := |left| - 1;
            && (SomeCollision(platform, left[..last], right[..last]) ==> SomeCollision(platform, left, right))
            && (SameEvents(platform, left[..last], right[..last]) ==> SameEvents(platform, left, right))
  {
    var last := |left| - 1;
    if SomeCollision(platform, left[..last], right[..last]) {
      var i :| 0 <= i < last && RowsCollide(platform, left[..last][i], right[..last][i]);
      assert RowsCollide(platform, left[i], right[i]);
    }
    if SameEvents(platform, left[..last], right[..last]) {
      forall i | 0 <= i < last ensures SameRecord(platform, left[i], right[i]) {
        assert SameRecord(platform, left[..last][i], right[..last][i]);
      }
    }
  }

  /** Two linked lists that end in one digest agree on every event back to the start of the shorter
      one, whose anchor is the digest that comes before in the longer one -- or two rows at the same
      distance from the end collide. */
  lemma CommonEnd(platform: Platform, a: Text, shorter: seq<Row>, b: Text, longer: seq<Row>)
    requires |shorter| <= |longer|
    requires Linked(platform, a, shorter) && Linked(platform, b, longer)
    requires EndOf(a, shorter) == EndOf(b, longer)
    ensures var extra := |longer| - |shorter|;
            || (SameEvents(platform, shorter, longer[extra..]) && a == Before(b, longer, extra))
            || SomeCollision(platform, shorter, longer[extra..])
  {
    var extra := |longer| - |shorter|;
    LinkedSuffix(platform, b, longer, extra);
    SameEndSameLength(platform, a, shorter, Before(b, longer, extra), longer[extra..]);
  }

  /** Chains that verify with the same anchor and tail hold the same events, unless two rows collide
      or the longer chain passes through its own anchor again. */
  lemma SameEndsSameEvents(platform: Platform, left: Chain, right: Chain)
    requires Verifies(platform, left) && Verifies(platform, right)
    requires left.anchor == right.anchor && left.tail == right.tail && |left.rows| <= |right.rows|
    ensures || SameEvents(platform, left.rows, right.rows)
            || SomeCollision(platform, left.rows, right.rows[|right.rows| - |left.rows|..])
            || exists i | 0 <= i < |right.rows| :: right.rows[i].hash == right.anchor
  {
    CommonEnd(platform, left.anchor, left.rows, right.anchor, right.rows);
    var extra := |right.rows| - |left.rows|;
    assert right.rows[0..] == right.rows;
  }

  /** From the genesis anchor there is no such cycle. */
  lemma GenesisEndsSameEvents(platform: Platform, left: Chain, right: Chain)
    requires Verifies(platform, left) && Verifies(platform, right)
    requires left.anchor == right.anchor == "" && left.tail == right.tail && |left.rows| <= |right.rows|
    ensures || SameEvents(platform, left.rows, right.rows)
            || SomeCollision(platform, left.rows, right.rows[|right.rows| - |left.rows|..])
  {
    SameEndsSameEvents(platform, left, right);
    assert forall i | 0 <= i < |right.rows| :: LinkedAt(platform, right.anchor, right.rows, i) ==>
             right.rows[i].hash != "";
  }

  /** A chain that verifies and still holds an earlier checkpoint -- the digest of row i of the
      earlier chain in its row j -- agrees with the earlier chain on every event up to the checkpoint
      as far back as both reach: history before a checkpoint can only lose a prefix. */
  lemma CheckpointFixesHistory(platform: Platform, earlier: Chain, later: Chain, i: nat, j: nat)
    requires Verifies(platform, earlier) && Verifies(platform, later)
    requires i < |earlier.rows| && j < |later.rows| && earlier.rows[i].hash == later.rows[j].hash
    ensures if j <= i then
              var common := earlier.rows[i - j..i + 1];
              || (SameEvents(platform, later.rows[..j + 1], common) &&
                  later.anchor == Before(earlier.anchor, earlier.rows, i - j))
              || SomeCollision(platform, later.rows[..j + 1], common)
            else
              var common := later.rows[j - i..j + 1];
              || (SameEvents(platform, earlier.rows[..i + 1], common) &&
                  earlier.anchor == Before(later.anchor, later.rows, j - i))
              || SomeCollision(platform, earlier.rows[..i + 1], common)
  {
    var e, l := earlier.rows[..i + 1], later.rows[..j + 1];
    LinkedPrefix(platform, earlier.anchor, earlier.rows, i + 1);
    LinkedPrefix(platform, later.anchor, later.rows, j + 1);
    if j <= i {
      CommonEnd(platform, later.anchor, l, earlier.anchor, e);
      assert e[i - j..] == earlier.rows[i - j..i + 1];
    } else {
      CommonEnd(platform, earlier.anchor, e, later.anchor, l);
      assert l[j - i..] == later.rows[j - i..j + 1];
    }
  }

  // ---------------------------------------------------------------- appending

  predicate ValidResource(details: Details) {
    |details.revision| <= 128 && (forall c | c in details.revision :: c !in "\r\n\0") &&
    (details.resourceDigest == "" ||
     (|details.resourceDigest| == 64 && forall c | c in details.resourceDigest :: '0' <= c <= '9' || 'a' <= c <= 'f'))
  }

  function Appended(platform: Platform, chain: Chain, event: Event): Option<Chain> {
    var details := platform.redact(event.details);
    if !ValidResource(details) then None
    else
      var digest := EventDigest(platform.hash, chain.tail, Event(event.occurredAt, details));
      var row := Row(chain.nextID, platform.affinity(event.occurredAt), details, chain.tail, digest);
      Some(chain.(tail := digest, rows := chain.rows + [row], nextID := chain.nextID + 1))
  }

  /** The time text survives the trip through the INTEGER column. */
  predicate Canonical(platform: Platform, occurredAt: Text) {
    platform.affinity(occurredAt).Number? && platform.format(platform.affinity(occurredAt).seconds) == occurredAt
  }

  lemma VerifiesExtended(platform: Platform, chain: Chain, row: Row)
    requires Verifies(platform, chain) && row.previous == chain.tail
    ensures Verifies(platform, chain.(tail := row.hash, rows := chain.rows + [row], nextID := chain.nextID + 1))
            <==> Sealed(platform, row)
  {
    var rows := chain.rows + [row];
    forall i | 0 <= i < |chain.rows| ensures LinkedAt(platform, chain.anchor, rows, i) {
      assert LinkedAt(platform, chain.anchor, chain.rows, i);
    }
    assert Sealed(platform, row) <==> LinkedAt(platform, chain.anchor, rows, |chain.rows|);
  }

  /** An appended event keeps the chain verifying exactly when its time text is canonical; a text
      that is not would have to collide with its own reformatted version. */
  lemma AppendVerifiesIffCanonical(platform: Platform, chain: Chain, event: Event)
    requires Sound(platform) && Verifies(platform, chain) && Indexed(chain)
    requires Appended(platform, chain, event).Some?
    ensures var after := Appended(platform, chain, event).value;
            var time := platform.affinity(event.occurredAt);
            var details := platform.redact(event.details);
            && Indexed(after)
            && (Canonical(platform, event.occurredAt) ==> Verifies(platform, after))
            && (Verifies(platform, after) ==>
                  || Canonical(platform, event.occurredAt)
                  || (time.Number? && Collide(platform.hash,
                        Encoding(chain.tail, Event(platform.format(time.seconds), details)),
                        Encoding(chain.tail, Event(event.occurredAt, details)))))
  {
    var after := Appended(platform, chain, event).value;
    var row := after.rows[|chain.rows|];
    VerifiesExtended(platform, chain, row);
    if row.occurredAt.Number? && !Canonical(platform, event.occurredAt)
       && Encoding(chain.tail, ReadBack(platform, row)) == Encoding(chain.tail, Event(event.occurredAt, row.details))
    {
      EncodingInjective(chain.tail, ReadBack(platform, row), chain.tail, Event(event.occurredAt, row.details));
    }
  }

  /** Every checkpoint, the anchor included, survives an append. */
  lemma AppendKeepsCheckpoints(platform: Platform, chain: Chain, event: Event, eventID: nat, digest: Text)
    requires Appended(platform, chain, event).Some? && Holds(chain, eventID, digest)
    ensures Holds(Appended(platform, chain, event).value, eventID, digest)
  {
    var after := Appended(platform, chain, event).value;
    if eventID != 0 {
      var i :| 0 <= i < |chain.rows| && chain.rows[i].id == eventID && chain.rows[i].hash == digest;
      assert after.rows[i] == chain.rows[i];
    }
  }

  // ---------------------------------------------------------------- backfill

  /** The columns that existed before the chain: the later ones read as empty. */
  function Original(details: Details): Details {
    details.(requestID := "", assurance := "", revision := "", resourceDigest := "")
  }

  function Backfilled(platform: Platform, previous: Text, rows: seq<Row>): (filled: seq<Row>)
    requires forall row | row in rows :: row.occurredAt.Number?
    ensures |filled| == |rows|
    decreases |rows|
  {
    if rows == [] then []
    else
      var event := Event(platform.format(rows[0].occurredAt.seconds), Original(rows[0].details));
      var digest := EventDigest(platform.hash, previous, event);
      [rows[0].(previous := previous, hash := digest)] + Backfilled(platform, digest, rows[1..])
  }

  function Stripped(row: Row): Row {
    row.(details := Original(row.details))
  }

  lemma {:induction false} BackfilledRow(platform: Platform, previous: Text, rows: seq<Row>, i: nat)
    requires Sound(platform) && (forall row | row in rows :: row.occurredAt.Number?) && i < |rows|
    ensures var filled := Backfilled(platform, previous, rows);
            && filled[i] == rows[i].(previous := Before(previous, filled, i), hash := filled[i].hash)
            && Sealed(platform, Stripped(filled[i]))
    decreases |rows|
  {
    if i > 0 {
      var first := Backfilled(platform, previous, rows)[0];
      var rest := Backfilled(platform, first.hash, rows[1..]);
      assert Backfilled(platform, previous, rows) == [first] + rest;
      BackfilledRow(platform, first.hash, rows[1..], i - 1);
    }
  }

  lemma SealOfStripped(platform: Platform, row: Row)
    requires Sealed(platform, Stripped(row))
    ensures row.details == Original(row.details) ==> Sealed(platform, row)
    ensures Sealed(platform, row) ==> row.details == Original(row.details) || RowsCollide(platform, row, Stripped(row))
  {
    if Sealed(platform, row) {
      SealsAgree(platform, row, Stripped(row));
    }
  }

  lemma BackfilledLink(platform: Platform, rows: seq<Row>, i: nat)
    requires Sound(platform) && (forall row | row in rows :: row.occurredAt.Number?) && i < |rows|
    ensures var filled := Backfilled(platform, "", rows);
            && filled[i].details == rows[i].details
            && (filled[i].details == Original(filled[i].details) ==> LinkedAt(platform, "", filled, i))
            && (LinkedAt(platform, "", filled, i) ==>
                  filled[i].details == Original(filled[i].details) ||
                      RowsCollide(platform, filled[i], Stripped(filled[i])))
  {
    BackfilledRow(platform, "", rows, i);
    SealOfStripped(platform, Backfilled(platform, "", rows)[i]);
  }

  /** A backfilled chain verifies exactly when no row carries a later column; a row that does would
      have to collide with its own stripped version. */
  lemma BackfillVerifiesIffOriginal(platform: Platform, chain: Chain)
    requires Sound(platform) && forall row | row in chain.rows :: row.occurredAt.Number?
    ensures var rows := Backfilled(platform, "", chain.rows);
            var after := chain.(anchor := "", tail := EndOf("", rows), rows := rows);
            && ((forall row | row in chain.rows :: row.details == Original(row.details)) ==> Verifies(platform, after))
            && (Verifies(platform, after) ==>
                  forall i | 0 <= i < |rows| ::
                    rows[i].details == Original(rows[i].details) || RowsCollide(platform, rows[i], Stripped(rows[i])))
  {
    var rows := Backfilled(platform, "", chain.rows);
    forall i | 0 <= i < |rows|
      ensures rows[i].details == Original(rows[i].details) ==> LinkedAt(platform, "", rows, i)
      ensures LinkedAt(platform, "", rows, i) ==>
                rows[i].details == Original(rows[i].details) || RowsCollide(platform, rows[i], Stripped(rows[i]))
      ensures rows[i].details == chain.rows[i].details
    {
      BackfilledLink(platform, chain.rows, i);
    }
    assert forall i | 0 <= i < |rows| :: chain.rows[i] in chain.rows;
  }

  // ---------------------------------------------------------------- retention

  /** One candidate removed: its hash becomes the anchor. */
  function Dropped(chain: Chain, i: nat): Chain
    requires i < |chain.rows|
  {
    chain.(anchor := chain.rows[i].hash, rows := chain.rows[..i] + chain.rows[i + 1..])
  }

  /** A retention pass over the first |outcomes| rows, where outcomes[i] says whether candidate i was
      deleted; `kept` counts the candidates skipped so far. */
  function Retained(chain: Chain, kept: nat, outcomes: seq<bool>): Chain
    requires kept + |outcomes| <= |chain.rows|
    decreases |outcomes|
  {
    if outcomes == [] then chain
    else if outcomes[0] then Retained(Dropped(chain, kept), kept, outcomes[1..])
    else Retained(chain, kept + 1, outcomes[1..])
  }

  /** No candidate was skipped before one that was deleted. */
  predicate PrefixOnly(outcomes: seq<bool>) {
    forall i, j | 0 <= i < j < |outcomes| :: outcomes[j] ==> outcomes[i]
  }

  /** Two places of the chain -- the anchor is place 0, row i is place i + 1 -- show one digest. */
  predicate SameDigestAt(chain: Chain, i: nat, j: nat)
    requires i <= |chain.rows| && j <= |chain.rows|
  {
    Before(chain.anchor, chain.rows, i) == Before(chain.anchor, chain.rows, j)
  }

  ghost predicate Repeats(chain: Chain) {
    exists i, j | 0 <= i < j <= |chain.rows| :: SameDigestAt(chain, i, j)
  }

  lemma RepeatOneBack(platform: Platform, chain: Chain, i: nat, j: nat)
    requires Linked(platform, chain.anchor, chain.rows)
    requires 0 < i < j <= |chain.rows| && SameDigestAt(chain, i, j)
    ensures SameDigestAt(chain, i - 1, j - 1) || RowsCollide(platform, chain.rows[i - 1], chain.rows[i - 1 + (j - i)])
  {
    assert LinkedAt(platform, chain.anchor, chain.rows, i - 1) && LinkedAt(platform, chain.anchor, chain.rows, j - 1);
    SealsAgree(platform, chain.rows[i - 1], chain.rows[j - 1]);
  }

  /** A repeated digest goes back to two colliding rows, or to a row with the digest of the anchor. */
  lemma {:induction false} RepeatGoesBack(platform: Platform, chain: Chain, i: nat, j: nat)
    requires Linked(platform, chain.anchor, chain.rows)
    requires i < j <= |chain.rows| && SameDigestAt(chain, i, j)
    ensures || SameDigestAt(chain, 0, j - i)
            || exists k | 0 <= k < i :: RowsCollide(platform, chain.rows[k], chain.rows[k + (j - i)])
    decreases i
  {
    if i > 0 {
      RepeatOneBack(platform, chain, i, j);
      if !RowsCollide(platform, chain.rows[i - 1], chain.rows[i - 1 + (j - i)]) {
        RepeatGoesBack(platform, chain, i - 1, j - 1);
      }
    }
  }

  /** From the genesis anchor only a collision repeats a digest. */
  lemma GenesisRepeatCollides(platform: Platform, chain: Chain, i: nat, j: nat)
    requires Verifies(platform, chain) && chain.anchor == ""
    requires i < j <= |chain.rows| && SameDigestAt(chain, i, j)
    ensures exists k | 0 <= k < i :: RowsCollide(platform, chain.rows[k], chain.rows[k + (j - i)])
  {
    RepeatGoesBack(platform, chain, i, j);
    assert LinkedAt(platform, chain.anchor, chain.rows, j - i - 1);
  }

  lemma DropFirstVerifies(platform: Platform, chain: Chain)
    requires Verifies(platform, chain) && chain.rows != []
    ensures Verifies(platform, Dropped(chain, 0)) && (Repeats(Dropped(chain, 0)) ==> Repeats(chain))
  {
    LinkedSuffix(platform, chain.anchor, chain.rows, 1);
    var dropped := Dropped(chain, 0);
    assert dropped.rows == chain.rows[1..];
    if i, j :| 0 <= i < j <= |dropped.rows| && SameDigestAt(dropped, i, j) {
      assert SameDigestAt(chain, i + 1, j + 1);
    }
  }

  /** Skipped first rows stay at the head, so the head keeps pointing at the old anchor. */
  lemma {:induction false} HeadStays(chain: Chain, kept: nat, outcomes: seq<bool>)
    requires 0 < kept && kept + |outcomes| <= |chain.rows|
    ensures var after := Retained(chain, kept, outcomes);
            && after.rows != [] && after.rows[0] == chain.rows[0]
            && (after.anchor == chain.anchor || exists i | 0 <= i < |chain.rows| :: after.anchor == chain.rows[i].hash)
            && (true in outcomes ==> exists i | 0 <= i < |chain.rows| :: after.anchor == chain.rows[i].hash)
    decreases |outcomes|
  {
    if outcomes != [] {
      if outcomes[0] {
        var next := Dropped(chain, kept);
        HeadStays(next, kept, outcomes[1..]);
        var after := Retained(chain, kept, outcomes);
        if after.anchor != next.anchor {
          var i :| 0 <= i < |next.rows| && after.anchor == next.rows[i].hash;
          assert next.rows[i] == chain.rows[if i < kept then i else i + 1];
        }
      } else {
        HeadStays(chain, kept + 1, outcomes[1..]);
      }
    }
  }

  lemma SkippingBreaksLink(platform: Platform, chain: Chain, outcomes: seq<bool>)
    requires Verifies(platform, chain) && |outcomes| <= |chain.rows|
    requires outcomes != [] && !outcomes[0] && true in outcomes[1..]
    ensures Verifies(platform, Retained(chain, 0, outcomes)) ==> Repeats(chain)
  {
    HeadStays(chain, 1, outcomes[1..]);
    var after := Retained(chain, 0, outcomes);
    assert LinkedAt(platform, chain.anchor, chain.rows, 0);
    var i :| 0 <= i < |chain.rows| && after.anchor == chain.rows[i].hash;
    if Verifies(platform, after) {
      assert LinkedAt(platform, after.anchor, after.rows, 0);
      assert SameDigestAt(chain, 0, i + 1);
    }
  }

  lemma PrefixOnlyTail(outcomes: seq<bool>)
    requires outcomes != [] && outcomes[0]
    ensures PrefixOnly(outcomes) <==> PrefixOnly(outcomes[1..])
  {
    if PrefixOnly(outcomes[1..]) {
      forall i, j | 0 <= i < j < |outcomes| && outcomes[j] ensures outcomes[i] {
        if i > 0 { assert outcomes[1..][j - 1] ==> outcomes[1..][i - 1]; }
      }
    } else {
      var i, j :| 0 <= i < j < |outcomes[1..]| && outcomes[1..][j] && !outcomes[1..][i];
      assert outcomes[j + 1] && !outcomes[i + 1];
    }
  }

  /** A retention pass keeps the chain verifying exactly when the rows it deleted form a prefix; a
      chain that survives another deletion shows one digest at two places. */
  lemma {:induction false} RetentionVerifiesIffPrefix(platform: Platform, chain: Chain, outcomes: seq<bool>)
    requires Verifies(platform, chain) && |outcomes| <= |chain.rows|
    ensures PrefixOnly(outcomes) ==> Verifies(platform, Retained(chain, 0, outcomes))
    ensures Verifies(platform, Retained(chain, 0, outcomes)) ==> PrefixOnly(outcomes) || Repeats(chain)
    decreases |outcomes|
  {
    if outcomes != [] {
      if outcomes[0] {
        DropFirstVerifies(platform, chain);
        RetentionVerifiesIffPrefix(platform, Dropped(chain, 0), outcomes[1..]);
        PrefixOnlyTail(outcomes);
      } else if true in outcomes[1..] {
        SkippingBreaksLink(platform, chain, outcomes);
        var j :| 0 <= j < |outcomes[1..]| && outcomes[1..][j];
        assert outcomes[j + 1] && !outcomes[0];
      } else {
        NothingDeleted(chain, 0, outcomes);
        assert forall k | 0 < k < |outcomes| :: outcomes[k] == outcomes[1..][k - 1];
      }
    }
  }

  lemma {:induction false} NothingDeleted(chain: Chain, kept: nat, outcomes: seq<bool>)
    requires kept + |outcomes| <= |chain.rows| && true !in outcomes
    ensures Retained(chain, kept, outcomes) == chain
    decreases |outcomes|
  {
    if outcomes != [] {
      NothingDeleted(chain, kept + 1, outcomes[1..]);
    }
  }

  /** Whatever retention skips, rows outside the candidates survive with their digests. */
  lemma {:induction false} RetentionKeepsLaterRows(chain: Chain, kept: nat, outcomes: seq<bool>, i: nat)
    requires kept + |outcomes| <= i < |chain.rows|
    ensures chain.rows[i] in Retained(chain, kept, outcomes).rows
    decreases |outcomes|
  {
    if outcomes != [] {
      if outcomes[0] {
        var next := Dropped(chain, kept);
        assert next.rows[i - 1] == chain.rows[i];
        RetentionKeepsLaterRows(next, kept, outcomes[1..], i - 1);
      } else {
        RetentionKeepsLaterRows(chain, kept + 1, outcomes[1..], i);
      }
    }
  }

  /** The index of the last deleted row, where rows before `kept` are not candidates. */
  function LastDeleted(kept: nat, outcomes: seq<bool>): (i: nat)
    requires true in outcomes
    ensures kept <= i < kept + |outcomes|
  {
    if outcomes[|outcomes| - 1] then kept + |outcomes| - 1 else LastDeleted(kept, outcomes[..|outcomes| - 1])
  }

  lemma {:induction false} LastDeletedNext(kept: nat, outcomes: seq<bool>)
    requires outcomes != [] && true in outcomes[1..]
    ensures LastDeleted(kept, outcomes) == LastDeleted(kept + 1, outcomes[1..])
    decreases |outcomes|
  {
    var last := |outcomes| - 1;
    if !outcomes[last] {
      assert outcomes[..last][1..] == outcomes[1..][..last - 1];
      LastDeletedNext(kept, outcomes[..last]);
    }
  }

  lemma {:induction false} OnlyFirstDeleted(kept: nat, outcomes: seq<bool>)
    requires outcomes != [] && outcomes[0] && true !in outcomes[1..]
    ensures LastDeleted(kept, outcomes) == kept
    decreases |outcomes|
  {
    var last := |outcomes| - 1;
    if last > 0 {
      assert outcomes[last] == outcomes[1..][last - 1];
      assert forall x | x in outcomes[..last][1..] :: x in outcomes[1..];
      OnlyFirstDeleted(kept, outcomes[..last]);
    }
  }

  /** Any deletion moves the anchor to the digest of the last deleted row, so a checkpoint with event ID 0,
      which is compared with the anchor, survives if and only if it has that digest. */
  lemma {:induction false} RetentionLosesAnchorCheckpoint(chain: Chain, kept: nat, outcomes: seq<bool>, digest: Text)
    requires kept + |outcomes| <= |chain.rows| && true in outcomes
    ensures Holds(Retained(chain, kept, outcomes), 0, digest) <==>
            digest == chain.rows[LastDeleted(kept, outcomes)].hash
    decreases |outcomes|
  {
    if true in outcomes[1..] {
      LastDeletedNext(kept, outcomes);
      if outcomes[0] {
        var next := Dropped(chain, kept);
        var i := LastDeleted(kept, outcomes[1..]);
        ShiftLastDeleted(kept, outcomes[1..]);
        assert next.rows[i] == chain.rows[i + 1];
        RetentionLosesAnchorCheckpoint(next, kept, outcomes[1..], digest);
      } else {
        RetentionLosesAnchorCheckpoint(chain, kept + 1, outcomes[1..], digest);
      }
    } else {
      OnlyFirstDeleted(kept, outcomes);
      NothingDeleted(Dropped(chain, kept), kept, outcomes[1..]);
    }
  }

  lemma {:induction false} ShiftLastDeleted(kept: nat, outcomes: seq<bool>)
    requires true in outcomes
    ensures LastDeleted(kept + 1, outcomes) == LastDeleted(kept, outcomes) + 1
    decreases |outcomes|
  {
    if !outcomes[|outcomes| - 1] {
      ShiftLastDeleted(kept, outcomes[..|outcomes| - 1]);
    }
  }

  // ---------------------------------------------------------------- inputs for which a promise fails

  /** Every time column reads back as the one text. */
  function ReadsAs(hash: Hash, time: Text): Platform {
    Platform(hash, text => Number(0), seconds => time, details => details)
  }

  /** Tells one encoding from all others. */
  function Marks(encoding: string): Hash {
    text => if text == encoding then "a" else "b"
  }

  lemma EncodingsDiffer(p: Text, e: Event, q: Text, f: Event)
    requires p != q || e != f
    ensures Encoding(p, e) != Encoding(q, f)
  {
    if Encoding(p, e) == Encoding(q, f) {
      EncodingInjective(p, e, q, f);
    }
  }

  lemma SecondOfTwoDeleted(chain: Chain)
    requires |chain.rows| == 2
    ensures Retained(chain, 0, [false, true]) == chain.(anchor := chain.rows[1].hash, rows := [chain.rows[0]])
  {
    assert [false, true][1..] == [true] && [true][1..] == [];
    assert Retained(chain, 1, [true]) == Dropped(chain, 1);
    assert chain.rows[..1] + chain.rows[2..] == [chain.rows[0]];
  }

  /** Two events, the first one skipped and the second one deleted: the chain no longer verifies. */
  lemma SkippedRetentionBreaks(time: Text, details: Details) returns (platform: Platform, chain: Chain)
    ensures Sound(platform) && Indexed(chain) && Verifies(platform, chain) && |chain.rows| == 2
    ensures !Verifies(platform, Retained(chain, 0, [false, true]))
  {
    var event := Event(time, details);
    platform := ReadsAs(Marks(Encoding("", event)), time);
    var first, second := Row(1, Number(0), details, "", "a"), Row(2, Number(0), details, "a", "b");
    chain := Chain("", "b", [first, second], 3);
    EncodingsDiffer("a", event, "", event);
    assert LinkedAt(platform, "", chain.rows, 0) && LinkedAt(platform, "", chain.rows, 1);
    SecondOfTwoDeleted(chain);
    assert !LinkedAt(platform, "b", [first], 0);
  }

  /** A time text that is read back as another one: after its append the chain does not verify. */
  lemma NonCanonicalAppendBreaks(time: Text, other: Text, details: Details) returns (platform: Platform, chain: Chain)
    requires time != other && ValidResource(details)
    ensures Sound(platform) && Indexed(chain) && Verifies(platform, chain)
    ensures var after := Appended(platform, chain, Event(other, details));
            after.Some? && !Verifies(platform, after.value)
  {
    var event := Event(other, details);
    platform := ReadsAs(Marks(Encoding("", event)), time);
    chain := Chain("", "", [], 1);
    var after := Appended(platform, chain, event).value;
    EncodingsDiffer("", Event(time, details), "", event);
    assert !LinkedAt(platform, after.anchor, after.rows, 0);
  }

  /** A row with one of the later columns: the backfilled chain does not verify. */
  lemma LaterColumnBreaksBackfill(time: Text, details: Details) returns (platform: Platform, chain: Chain)
    requires details != Original(details)
    ensures Sound(platform) && Indexed(chain) && Verifies(platform, chain)
    ensures forall row | row in chain.rows :: row.occurredAt.Number?
    ensures var rows := Backfilled(platform, "", chain.rows);
            !Verifies(platform, chain.(anchor := "", tail := EndOf("", rows), rows := rows))
  {
    platform := ReadsAs(Marks(Encoding("", Event(time, Original(details)))), time);
    chain := Chain("", "b", [Row(1, Number(0), details, "", "b")], 2);
    EncodingsDiffer("", Event(time, details), "", Event(time, Original(details)));
    assert LinkedAt(platform, "", chain.rows, 0);
    var rows := Backfilled(platform, "", chain.rows);
    assert chain.rows[1..] == [];
    assert !LinkedAt(platform, "", rows, 0);
  }
}
