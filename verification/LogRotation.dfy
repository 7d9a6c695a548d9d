/** Rotating appends: file, file.1, ..., file.`backups`.

    Slot 0 is the current file and slot k the archive file.k.  A file is the sequence of records
    appended to it; every removal, rename and write may fail or be followed by a crash. */
module LogRotation {

  type Slots = map<nat, seq<string>>

  function Slot(slots: Slots, k: nat): seq<string> {
    if k in slots then slots[k] else []
  }

  /** The records from archive `top` down to the current file, missing archives ignored. */
  function Reading(slots: Slots, top: nat): seq<string>
    decreases top, 1
  {
    Slot(slots, top) + ReadingBelow(slots, top)
  }

  function Size(records: seq<string>): nat {
    if records == [] then 0 else Size(records[..|records| - 1]) + |records[|records| - 1]|
  }

  ghost predicate IsSuffix(part: seq<string>, whole: seq<string>) {
    |part| <= |whole| && part == whole[|whole| - |part|..]
  }

  lemma {:induction false} SameSlotsSameReading(a: Slots, b: Slots, top: nat)
    requires forall k | 0 <= k <= top :: Slot(a, k) == Slot(b, k)
    ensures Reading(a, top) == Reading(b, top)
  {
    if top > 0 { SameSlotsSameReading(a, b, top - 1); }
  }

  /** What is read below a slot. */
  function ReadingBelow(slots: Slots, k: nat): seq<string>
    decreases k, 0
  {
    if k == 0 then [] else Reading(slots, k - 1)
  }

  function Advanced(slots: Slots, from: nat): Slots
    requires from in slots
  {
    (slots - {from})[from + 1 := slots[from]]
  }

  /** Moving a file one slot up onto a vacant slot does not change what is read. */
  lemma {:induction false} AdvanceKeepsReading(slots: Slots, from: nat, top: nat)
    requires from < top && from in slots && from + 1 !in slots
    ensures Reading(Advanced(slots, from), top) == Reading(slots, top)
    decreases top
  {
    var moved := Advanced(slots, from);
    if from + 1 == top {
      var below := ReadingBelow(slots, from);
      if from > 0 { SameSlotsSameReading(slots, moved, from - 1); }
      assert ReadingBelow(moved, from) == below;
      assert Reading(slots, from) == slots[from] + below && Reading(moved, from) == [] + below;
      assert Reading(slots, top) == [] + (slots[from] + below) && Reading(moved, top) == slots[from] + ([] + below);
    } else {
      AdvanceKeepsReading(slots, from, top - 1);
      assert Slot(slots, top) == Slot(moved, top);
    }
  }

  /** Removing the oldest archive drops exactly its records from the front. */
  lemma RemoveOldestDropsFront(slots: Slots, top: nat)
    requires top > 0
    ensures Reading(slots - {top}, top) == Reading(slots, top)[|Slot(slots, top)|..]
  {
    SameSlotsSameReading(slots - {top}, slots, top - 1);
  }

  lemma {:induction false} AppendExtendsReading(slots: Slots, record: string, top: nat)
    ensures Reading(slots[0 := Slot(slots, 0) + [record]], top) == Reading(slots, top) + [record]
  {
    if top > 0 { AppendExtendsReading(slots, record, top - 1); }
  }

  lemma SuffixShortens(part: seq<string>, whole: seq<string>, n: nat)
    ensures IsSuffix(part, whole) && n <= |part| ==> IsSuffix(part[n..], whole)
  {
  }

  lemma OldestIsFirst(slots: Slots, top: nat)
    ensures |Slot(slots, top)| <= |Reading(slots, top)|
  {
  }

  lemma SuffixExtends(part: seq<string>, whole: seq<string>, record: string)
    requires IsSuffix(part, whole)
    ensures IsSuffix(part + [record], whole + [record])
  {
  }

  predicate Within(c: char, low: int, high: int) { low <= c as int <= high }

  /** How many bytes encode the first character, or 0 if it is a NUL or no UTF-8. */
  function CharacterLength(s: string): (n: nat)
    requires s != ""
    ensures n <= |s|
  {
    var continued := if |s| >= 2 && Within(s[1], 0x80, 0xBF) then s[1] as int else 0;
    if Within(s[0], 0x01, 0x7F) then 1
    else if continued > 0 && Within(s[0], 0xC2, 0xDF) then 2
    else if |s| < 3 || !Within(s[2], 0x80, 0xBF) || continued == 0 then 0
    else if Within(s[0], 0xE0, 0xEF) then
      if (s[0] as int == 0xE0 && continued < 0xA0) || (s[0] as int == 0xED && continued > 0x9F) then 0 else 3
    else if |s| < 4 || !Within(s[3], 0x80, 0xBF) || !Within(s[0], 0xF0, 0xF4) then 0
    else if (s[0] as int == 0xF0 && continued < 0x90) || (s[0] as int == 0xF4 && continued > 0x8F) then 0 else 4
  }

  /** UTF-8 without NUL. */
  predicate SafeText(s: string) {
    s == "" || (CharacterLength(s) > 0 && SafeText(s[CharacterLength(s)..]))
  }

  class RotatingLog {
    const maxBytes: nat
    const backups: nat
    const reliable: bool  // nothing fails and the process does not die
    var slots: Slots
    ghost var history: seq<string>  // every record ever written

    constructor (maxBytes: nat, backups: nat, reliable: bool)
      requires 1 <= backups
      ensures this.maxBytes == maxBytes && this.backups == backups && this.reliable == reliable
      ensures slots == map[] && history == [] && Valid()
    {
      this.maxBytes, this.backups, this.reliable := maxBytes, backups, reliable;
      slots, history := map[], [];
      new;
      NothingRead(backups);
    }

    lemma {:induction false} NothingRead(top: nat)
      ensures Reading(map[], top) == []
    {
      if top > 0 { NothingRead(top - 1); }
    }

    /** What a reader of the archives and the current file can rely on. */
    ghost predicate Valid()
      reads this
    {
      1 <= backups && (forall k | k in slots :: k <= backups) && IsSuffix(Reading(slots, backups), history)
    }

    ghost predicate Bounded()
      reads this
    {
      forall k | k in slots :: Size(slots[k]) <= maxBytes
    }

    /** `rotateAppendTarget`; false also stands for a crash at any point. */
    method Rotate() returns (ok: bool)
      requires Valid()
      modifies this`slots
      ensures Valid() && (old(Bounded()) ==> Bounded())
      ensures var all := old(Reading(slots, backups)); var oldest := old(Slot(slots, backups));
              Reading(slots, backups) == all[|oldest|..] || (!ok && Reading(slots, backups) == all)
      ensures ok ==> 0 !in slots
      ensures reliable ==> ok
    {
      var stopped: bool := *;
      if stopped && !reliable { return false; }
      RemoveOldestDropsFront(slots, backups);
      SuffixShortens(Reading(slots, backups), history, |Slot(slots, backups)|);
      slots := slots - {backups};
      ok := AdvanceAll();
    }

    /** The renames, from the oldest archive that is left down to the current file. */
    method AdvanceAll() returns (ok: bool)
      requires 1 <= backups && backups !in slots && forall k | k in slots :: k <= backups
      modifies this`slots
      ensures (forall k | k in slots :: k <= backups) && Reading(slots, backups) == old(Reading(slots, backups))
      ensures old(Bounded()) ==> Bounded()
      ensures ok ==> 0 !in slots
      ensures reliable ==> ok
    {
      var generation := backups;
      while generation >= 1
        invariant 0 <= generation <= backups && (forall k | k in slots :: k <= backups)
        invariant generation !in slots && Reading(slots, backups) == old(Reading(slots, backups))
        invariant old(Bounded()) ==> Bounded()
      {
        var stopped: bool := *;
        if stopped && !reliable { return false; }
        generation := generation - 1;
        Advance(generation);
      }
      return true;
    }

    /** Renames slot `from` to the next one; a missing file is not an error. */
    method Advance(from: nat)
      requires from < backups && from + 1 !in slots && forall k | k in slots :: k <= backups
      modifies this`slots
      ensures from !in slots && (forall k | k in slots :: k <= backups)
      ensures Reading(slots, backups) == old(Reading(slots, backups))
      ensures old(Bounded()) ==> Bounded()
    {
      if from in slots {
        AdvanceKeepsReading(slots, from, backups);
        slots := Advanced(slots, from);
      }
    }

    /** Whether the record makes the files rotate. */
    predicate Rotates(record: string)
      reads this
    {
      0 in slots && Size(slots[0]) + |record| > maxBytes
    }

    /** `AppendRotatingText`.  The record may or may not be written when it fails or the process dies; in
        any case only a rotation loses something, and at most the oldest archive.  An unsafe record is
        refused, but only after the rotation. */
    method Append(record: string) returns (ok: bool, ghost lost: nat)
      requires Valid()
      modifies this
      ensures Valid()
      ensures history == old(history) || history == old(history) + [record]
      ensures lost == 0 || (old(Rotates(record)) && lost == |old(Slot(slots, backups))|)
      ensures lost <= |old(Reading(slots, backups))| &&
              Reading(slots, backups) == old(Reading(slots, backups))[lost..] + history[|old(history)|..]
      ensures old(Bounded()) && |record| <= maxBytes ==> Bounded()
      ensures ok ==> history == old(history) + [record]
      ensures !SafeText(record) ==> history == old(history)
      ensures reliable ==> (ok <==> SafeText(record))
      ensures (ok || reliable) && old(Rotates(record)) ==> lost == |old(Slot(slots, backups))|
    {
      ok, lost := true, 0;
      ghost var all, oldest := Reading(slots, backups), |Slot(slots, backups)|;
      OldestIsFirst(slots, backups);
      if Rotates(record) {
        ok := Rotate();
        lost := if Reading(slots, backups) == all[oldest..] then oldest else 0;
        if !ok { return; }
      }
      var stopped: bool := *;
      if (stopped && !reliable) || !SafeText(record) { return false, lost; }
      Write(record);
      ok := *;
      ok := ok || reliable;
    }

    /** Appends to the current file, creating it when it is missing. */
    method Write(record: string)
      requires Valid()
      modifies this
      ensures Valid() && history == old(history) + [record]
      ensures Reading(slots, backups) == old(Reading(slots, backups)) + [record]
      ensures old(Bounded()) && Size(Slot(old(slots), 0)) + |record| <= maxBytes ==> Bounded()
    {
      AppendExtendsReading(slots, record, backups);
      var grown := Slot(slots, 0) + [record];
      assert grown[..|grown| - 1] == Slot(slots, 0);
      SuffixExtends(Reading(slots, backups), history, record);
      slots, history := slots[0 := grown], history + [record];
    }
  }

  /** The records that were written. */
  function Chosen(records: seq<string>, kept: seq<bool>): seq<string>
    requires |records| == |kept|
  {
    if records == [] then []
    else
      var last := |records| - 1;
      Chosen(records[..last], kept[..last]) + if kept[last] then [records[last]] else []
  }

  lemma ChosenMore(records: seq<string>, kept: seq<bool>, record: string, keep: bool)
    requires |records| == |kept|
    ensures Chosen(records + [record], kept + [keep]) == Chosen(records, kept) + if keep then [record] else []
  {
    assert (records + [record])[..|records|] == records && (kept + [keep])[..|kept|] == kept;
  }

  /** Acknowledged records were written, and only safe ones were; with nothing failing, all of these. */
  predicate Honest(records: seq<string>, acked: seq<bool>, kept: seq<bool>, reliable: bool)
    requires |acked| == |kept| == |records|
  {
    && (forall i | 0 <= i < |records| :: (acked[i] ==> kept[i]) && (kept[i] ==> SafeText(records[i])))
    && (reliable ==> forall i | 0 <= i < |records| :: acked[i] <==> SafeText(records[i]))
  }

  lemma HonestMore(records: seq<string>, acked: seq<bool>, kept: seq<bool>, reliable: bool,
                   record: string, ack: bool, keep: bool)
    requires |acked| == |kept| == |records| && Honest(records, acked, kept, reliable)
    requires (ack ==> keep) && (keep ==> SafeText(record)) && (reliable ==> (ack <==> SafeText(record)))
    ensures Honest(records + [record], acked + [ack], kept + [keep], reliable)
  {
  }

  /** Any run of appends from an empty start, with failures and crashes anywhere: every acknowledged record
      was written, nothing else but safe unacknowledged records was, and what is read is a contiguous suffix
      of what was written, in order, in at most `backups` archives; no file outgrows the limit while every
      record fits.  When nothing fails, exactly the safe records are acknowledged and written. */
  method AnyAppends(maxBytes: nat, backups: nat, reliable: bool, records: seq<string>)
    returns (log: RotatingLog, acked: seq<bool>, ghost kept: seq<bool>)
    requires 1 <= backups
    ensures |acked| == |kept| == |records| && log.history == Chosen(records, kept)
    ensures Honest(records, acked, kept, reliable)
    ensures IsSuffix(Reading(log.slots, backups), log.history)
    ensures forall k | k in log.slots :: k <= backups
    ensures (forall record | record in records :: |record| <= maxBytes) ==>
              forall k | k in log.slots :: Size(log.slots[k]) <= maxBytes
  {
    log := new RotatingLog(maxBytes, backups, reliable);
    acked, kept := [], [];
    for i := 0 to |records|
      invariant log.Valid() && fresh(log) && log.maxBytes == maxBytes && log.backups == backups &&
                log.reliable == reliable
      invariant |acked| == |kept| == i && log.history == Chosen(records[..i], kept)
      invariant Honest(records[..i], acked, kept, reliable)
      invariant (forall record | record in records :: |record| <= maxBytes) ==> log.Bounded()
    {
      assert records[i] in records && records[..i + 1] == records[..i] + [records[i]];
      ghost var before := log.history;
      var ok, lost := log.Append(records[i]);
      ghost var keep := |log.history| > |before|;
      ChosenMore(records[..i], kept, records[i], keep);
      HonestMore(records[..i], acked, kept, reliable, records[i], ok, keep);
      acked, kept := acked + [ok], kept + [keep];
    }
    assert records[..|records|] == records;
  }
}
