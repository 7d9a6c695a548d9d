/** The splitter that cuts a container's output stream into log entries, compared with cutting the
    whole stream at once.  A byte is a `char`; `max` is the size limit of an entry. */
module LineSplitter {

  const NEWLINE := '\n'
  const RETURN := '\r'

  type Size = n: nat | n > 0 witness 1

  /** The index of the first newline, or the length when there is none. */
  function LineEnd(s: string): (n: nat)
    ensures n <= |s| && (n < |s| ==> s[n] == NEWLINE) && forall i | 0 <= i < n :: s[i] != NEWLINE
  {
    if s == "" || s[0] == NEWLINE then 0 else 1 + LineEnd(s[1..])
  }

  /** Whether the next cut is forced by the size limit. */
  predicate IsSplit(s: string, max: Size) {
    LineEnd(s) == |s| || LineEnd(s) >= max
  }

  /** The length of the next cut, or 0 while the splitter waits for more. */
  function Cut(s: string, max: Size): (n: nat)
    ensures n <= |s|
  {
    if !IsSplit(s, max) then LineEnd(s) + 1 else if |s| >= max then max else 0
  }

  /** What is emitted for the next cut: without its newline, and without a carriage return before it
      -- which is also taken off a forced cut when some newline is already there. */
  function CutText(s: string, max: Size): string
    requires Cut(s, max) > 0
  {
    var raw := s[..if IsSplit(s, max) then max else LineEnd(s)];
    if LineEnd(s) < |s| && raw != "" && raw[|raw| - 1] == RETURN then raw[..|raw| - 1] else raw
  }

  // ---------------------------------------------------------------- cutting a whole stream

  /** A stretch of the stream: `continuation` when the stretch before it was cut by size, and whether
      it was itself. */
  datatype Segment = Segment(bytes: string, continuation: bool, split: bool)

  function Segments(s: string, continuation: bool, max: Size): seq<Segment>
    decreases |s|
  {
    var n := Cut(s, max);
    if n == 0 then []
    else [Segment(s[..n], continuation, IsSplit(s, max))] + Segments(s[n..], IsSplit(s, max), max)
  }

  function Texts(s: string, max: Size): seq<string>
    decreases |s|
  {
    var n := Cut(s, max);
    if n == 0 then [] else [CutText(s, max)] + Texts(s[n..], max)
  }

  /** What stays pending, and whether it continues a line. */
  function Rest(s: string, max: Size): (rest: string)
    ensures Cut(rest, max) == 0
    decreases |s|
  {
    var n := Cut(s, max);
    if n == 0 then s else Rest(s[n..], max)
  }

  function Continues(s: string, continuation: bool, max: Size): bool
    decreases |s|
  {
    var n := Cut(s, max);
    if n == 0 then continuation else Continues(s[n..], IsSplit(s, max), max)
  }

  function Bytes(segments: seq<Segment>): string {
    if segments == [] then "" else segments[0].bytes + Bytes(segments[1..])
  }

  lemma {:induction false} NothingIsLost(s: string, continuation: bool, max: Size)
    ensures Bytes(Segments(s, continuation, max)) + Rest(s, max) == s
    decreases |s|
  {
    var n := Cut(s, max);
    if n > 0 {
      NothingIsLost(s[n..], IsSplit(s, max), max);
      var tail := Segments(s[n..], IsSplit(s, max), max);
      BytesOfMore(Segment(s[..n], continuation, IsSplit(s, max)), tail, Rest(s, max));
      Halves(s, n);
    } else {
      Halves(s, 0);
    }
  }

  lemma Halves(s: string, n: nat)
    requires n <= |s|
    ensures s[..n] + s[n..] == s && "" + s == s
  {
  }

  lemma BytesOfMore(first: Segment, tail: seq<Segment>, rest: string)
    ensures Bytes([first] + tail) + rest == first.bytes + (Bytes(tail) + rest)
  {
    assert ([first] + tail)[1..] == tail;
  }

  /** A segment is a line with its newline, or exactly `max` bytes of a longer line; what waits is
      shorter than that and no line. */
  predicate WellCut(segment: Segment, max: Size) {
    var n := |segment.bytes|;
    if segment.split then n == max && LineEnd(segment.bytes) == n
    else 0 < n <= max && LineEnd(segment.bytes) == n - 1
  }

  /** A segment continues a line exactly when the one before it was cut by size. */
  predicate Chained(segments: seq<Segment>, first: bool, last: bool) {
    if segments == [] then first == last
    else segments[0].continuation == first && Chained(segments[1..], segments[0].split, last)
  }

  lemma LineEndIs(s: string, n: nat)
    requires n <= |s| && (forall i | 0 <= i < n :: s[i] != NEWLINE) && (n < |s| ==> s[n] == NEWLINE)
    ensures LineEnd(s) == n
  {
    var m := LineEnd(s);
    assert m < |s| ==> s[m] == NEWLINE;
    assert n < |s| ==> s[n] == NEWLINE;
  }

  lemma {:induction false} SegmentsAreWellCut(s: string, continuation: bool, max: Size)
    ensures forall segment | segment in Segments(s, continuation, max) :: WellCut(segment, max)
    ensures Chained(Segments(s, continuation, max), continuation, Continues(s, continuation, max))
    ensures |Rest(s, max)| < max && LineEnd(Rest(s, max)) == |Rest(s, max)|
    decreases |s|
  {
    var n := Cut(s, max);
    if n > 0 {
      var tail := Segments(s[n..], IsSplit(s, max), max);
      SegmentsAreWellCut(s[n..], IsSplit(s, max), max);
      assert Segments(s, continuation, max)[1..] == tail;
      LineEndIs(s[..n], if IsSplit(s, max) then n else n - 1);
    }
  }

  // ---------------------------------------------------------------- more bytes do not move a cut

  lemma LineEndOfMore(s: string, t: string)
    ensures LineEnd(s) < |s| ==> LineEnd(s + t) == LineEnd(s)
    ensures LineEnd(s) == |s| ==> LineEnd(s + t) >= |s|
  {
    if LineEnd(s) < |s| {
      LineEndIs(s + t, LineEnd(s));
    } else {
      var m := LineEnd(s + t);
      assert m < |s + t| ==> (s + t)[m] == NEWLINE;
      assert forall i | 0 <= i < |s| :: (s + t)[i] == s[i] && s[i] != NEWLINE;
    }
  }

  lemma CutIsStable(s: string, t: string, max: Size)
    requires Cut(s, max) > 0
    ensures Cut(s + t, max) == Cut(s, max) && IsSplit(s + t, max) == IsSplit(s, max)
    ensures var n := Cut(s, max); (s + t)[..n] == s[..n] && (s + t)[n..] == s[n..] + t
  {
    LineEndOfMore(s, t);
  }

  /** Bytes that arrive later only add to what was waiting. */
  lemma {:induction false} CuttingJoins(s: string, t: string, continuation: bool, max: Size)
    ensures var later := Rest(s, max) + t;
            && Segments(s + t, continuation, max) ==
               Segments(s, continuation, max) + Segments(later, Continues(s, continuation, max), max)
            && Rest(s + t, max) == Rest(later, max)
            && Continues(s + t, continuation, max) == Continues(later, Continues(s, continuation, max), max)
    decreases |s|
  {
    var n := Cut(s, max);
    if n > 0 {
      CutIsStable(s, t, max);
      CuttingJoins(s[n..], t, IsSplit(s, max), max);
    }
  }

  // ---------------------------------------------------------------- a stream that arrives in writes

  function Flat(writes: seq<string>): string {
    if writes == [] then "" else Flat(writes[..|writes| - 1]) + writes[|writes| - 1]
  }

  /** The texts that are emitted when the stream arrives as `writes`. */
  function Streamed(writes: seq<string>, max: Size): seq<string> {
    if writes == [] then []
    else
      var before := writes[..|writes| - 1];
      Streamed(before, max) + Texts(Rest(Flat(before), max) + writes[|writes| - 1], max)
  }

  /** The same for the segments. */
  function StreamedSegments(writes: seq<string>, max: Size): seq<Segment> {
    if writes == [] then []
    else
      var before := writes[..|writes| - 1];
      StreamedSegments(before, max) +
      Segments(Rest(Flat(before), max) + writes[|writes| - 1], Continues(Flat(before), false, max), max)
  }

  /** However the stream is cut into writes, the cuts and the continuation marks are those of the
      whole stream. */
  lemma {:induction false} WritesDoNotMoveCuts(writes: seq<string>, max: Size)
    ensures StreamedSegments(writes, max) == Segments(Flat(writes), false, max)
    decreases |writes|
  {
    if writes != [] {
      var before := writes[..|writes| - 1];
      WritesDoNotMoveCuts(before, max);
      CuttingJoins(Flat(before), writes[|writes| - 1], false, max);
    }
  }

  /** The next cut is forced by size, ends in a carriage return, and a newline comes after it. */
  predicate LosesFirstReturn(s: string, max: Size) {
    Cut(s, max) > 0 && IsSplit(s, max) && s[Cut(s, max) - 1] == RETURN && LineEnd(s) < |s|
  }

  /** The same for any cut of the stream. */
  predicate LosesReturn(s: string, max: Size)
    decreases |s|
  {
    LosesFirstReturn(s, max) || (Cut(s, max) > 0 && LosesReturn(s[Cut(s, max)..], max))
  }

  lemma CutTextOfMore(s: string, t: string, max: Size)
    requires Cut(s, max) > 0 && !LosesReturn(s + t, max)
    ensures var n := Cut(s, max);
            && Cut(s + t, max) == n && (s + t)[n..] == s[n..] + t
            && CutText(s + t, max) == CutText(s, max)
            && !LosesFirstReturn(s, max) && !LosesReturn(s[n..] + t, max)
  {
    CutIsStable(s, t, max);
    LineEndOfMore(s, t);
    var n := if IsSplit(s, max) then max else LineEnd(s);
    assert (s + t)[..n] == s[..n];
  }

  lemma {:induction false} TextsJoin(s: string, t: string, max: Size)
    requires !LosesReturn(s + t, max)
    ensures Texts(s + t, max) == Texts(s, max) + Texts(Rest(s, max) + t, max)
    ensures !LosesReturn(s, max)
    decreases |s|
  {
    var n := Cut(s, max);
    if n > 0 {
      CutTextOfMore(s, t, max);
      TextsJoin(s[n..], t, max);
    }
  }

  lemma {:induction false} SameTexts(writes: seq<string>, max: Size)
    requires !LosesReturn(Flat(writes), max)
    ensures Streamed(writes, max) == Texts(Flat(writes), max)
    decreases |writes|
  {
    if writes != [] {
      var before := writes[..|writes| - 1];
      TextsJoin(Flat(before), writes[|writes| - 1], max);
      SameTexts(before, max);
    }
  }

  /** Where to cut the stream so that the returned entry keeps its carriage return. */
  lemma {:induction false} ReturnKept(s: string, max: Size) returns (n: nat, k: nat)
    requires LosesReturn(s, max)
    ensures n <= |s| && k < |Texts(s[..n], max)| && k < |Texts(s, max)|
    ensures Texts(s[..n], max)[k] != Texts(s, max)[k]
    decreases |s|
  {
    var c := Cut(s, max);
    if LosesFirstReturn(s, max) {
      n, k := c, 0;
      FirstReturnKept(s, max);
    } else {
      var m, j := ReturnKept(s[c..], max);
      n, k := c + m, j + 1;
      BeginningCuts(s, n, max);
      assert s[..n][c..] == s[c..][..m];
      TextAfterCut(s, j, max);
      TextAfterCut(s[..n], j, max);
    }
  }

  lemma FirstReturnKept(s: string, max: Size)
    requires LosesFirstReturn(s, max)
    ensures var c := Cut(s, max);
            Texts(s[..c], max) != [] && Texts(s, max) != [] && Texts(s[..c], max)[0] != Texts(s, max)[0]
  {
    var c := Cut(s, max);
    LineEndIs(s[..c], c);
    assert CutText(s[..c], max) == s[..c];
    assert |CutText(s, max)| == c - 1;
  }

  lemma TextAfterCut(s: string, j: nat, max: Size)
    requires Cut(s, max) > 0 && j < |Texts(s[Cut(s, max)..], max)|
    ensures j + 1 < |Texts(s, max)| && Texts(s, max)[j + 1] == Texts(s[Cut(s, max)..], max)[j]
  {
  }

  lemma BeginningCuts(s: string, n: nat, max: Size)
    requires 0 < Cut(s, max) <= n <= |s|
    ensures Cut(s[..n], max) == Cut(s, max)
  {
    if IsSplit(s, max) {
      assert forall i | 0 <= i < max :: s[..n][i] != NEWLINE;
      var m := LineEnd(s[..n]);
      assert m < |s[..n]| ==> s[..n][m] == NEWLINE;
    } else {
      LineEndIs(s[..n], LineEnd(s));
    }
  }

  lemma OneWrite(content: string, max: Size)
    ensures Flat([content]) == content && Streamed([content], max) == Texts(content, max)
  {
    assert [content][..0] == [];
    assert Streamed([], max) == [] && Flat([]) == "" && Rest("", max) == "";
    Halves(content, 0);
  }

  lemma OneWriteMore(writes: seq<string>, content: string, max: Size)
    ensures Flat(writes + [content]) == Flat(writes) + content
    ensures Streamed(writes + [content], max) == Streamed(writes, max) + Texts(Rest(Flat(writes), max) + content, max)
    ensures StreamedSegments(writes + [content], max) ==
            StreamedSegments(writes, max) +
            Segments(Rest(Flat(writes), max) + content, Continues(Flat(writes), false, max), max)
  {
    assert (writes + [content])[..|writes|] == writes;
  }

  lemma DifferAt<T>(a: seq<T>, b: seq<T>, c: seq<T>, k: nat)
    requires k < |a| && k < |c| && a[k] != c[k]
    ensures a + b != c
  {
    assert (a + b)[k] == a[k];
  }

  ghost predicate EmitsAsWhole(writes: seq<string>, max: Size) {
    Streamed(writes, max) == Texts(Flat(writes), max)
  }

  /** A way to cut the stream into two writes that shows in the emitted texts. */
  lemma LossShows(s: string, max: Size) returns (writes: seq<string>)
    requires LosesReturn(s, max)
    ensures Flat(writes) == s && !EmitsAsWhole(writes, max)
  {
    var n, k := ReturnKept(s, max);
    writes := [s[..n]] + [s[n..]];
    OneWrite(s[..n], max);
    OneWriteMore([s[..n]], s[n..], max);
    Halves(s, n);
    DifferAt(Texts(s[..n], max), Texts(Rest(s[..n], max) + s[n..], max), Texts(s, max), k);
  }

  /** The emitted texts do not depend on how the stream arrives, exactly when no cut forced by size
      ends in a carriage return with a newline after it. */
  lemma TextsDoNotDependOnWrites(s: string, max: Size)
    ensures (forall writes | Flat(writes) == s :: EmitsAsWhole(writes, max)) <==> !LosesReturn(s, max)
  {
    if LosesReturn(s, max) {
      var writes := LossShows(s, max);
    } else {
      forall writes | Flat(writes) == s ensures EmitsAsWhole(writes, max) {
        SameTexts(writes, max);
      }
    }
  }

  // ---------------------------------------------------------------- the writer

  datatype Entry = Entry(text: string, continuation: bool)

  /** What one call emits for the pending bytes. */
  function Entries(s: string, continuation: bool, max: Size): (entries: seq<Entry>)
    decreases |s|
  {
    var n := Cut(s, max);
    if n == 0 then []
    else [Entry(CutText(s, max), continuation)] + Entries(s[n..], IsSplit(s, max), max)
  }

  lemma {:induction false} EntriesShow(s: string, continuation: bool, max: Size)
    ensures var entries, texts := Entries(s, continuation, max), Texts(s, max);
            var segments := Segments(s, continuation, max);
            && |entries| == |texts| == |segments|
            && forall i | 0 <= i < |entries| ::
                 entries[i].text == texts[i] && entries[i].continuation == segments[i].continuation
    decreases |s|
  {
    var n := Cut(s, max);
    if n > 0 {
      EntriesShow(s[n..], IsSplit(s, max), max);
    }
  }

  /** With `todo` still to emit, `now` is on the way from `before` to `all`. */
  predicate OnTheWay(before: seq<Entry>, now: seq<Entry>, todo: seq<Entry>, all: seq<Entry>) {
    before <= now && now + todo == all
  }

  lemma OneEntryMore(before: seq<Entry>, now: seq<Entry>, entry: Entry, later: seq<Entry>, all: seq<Entry>)
    requires OnTheWay(before, now, [entry] + later, all)
    ensures OnTheWay(before, now + [entry], later, all)
  {
  }

  lemma Underway(before: seq<Entry>, todo: seq<Entry>)
    ensures OnTheWay(before, before, todo, before + todo)
  {
  }

  class LineWriter {
    const max: Size
    /** Whether the receiver of the entries takes every one. */
    const reliable: bool
    var pending: string
    var continuation: bool
    /** What the receiver of the entries has been given. */
    var emitted: seq<Entry>

    constructor (max: Size, reliable: bool)
      ensures this.max == max && this.reliable == reliable
      ensures pending == "" && !continuation && emitted == []
    {
      this.reliable := reliable;
      this.max, pending, continuation, emitted := max, "", false, [];
    }

    /** The receiver takes the entry or fails. */
    method Emit(entry: Entry) returns (ok: bool)
      modifies this`emitted
      ensures emitted == if ok then old(emitted) + [entry] else old(emitted)
      ensures reliable ==> ok
    {
      ok := *;
      ok := ok || reliable;
      if ok {
        emitted := emitted + [entry];
      }
    }

    /** Emits what the arrived bytes complete.  If the receiver fails on an entry, that entry and all
        later ones are still pending. */
    method Write(content: string) returns (ok: bool)
      modifies this
      ensures var arrived := old(pending) + content;
              && OnTheWay(old(emitted), emitted, Entries(pending, continuation, max),
                          old(emitted) + Entries(arrived, old(continuation), max))
              && Rest(pending, max) == Rest(arrived, max)
              && Continues(pending, continuation, max) == Continues(arrived, old(continuation), max)
      ensures ok <==> Cut(pending, max) == 0
      ensures reliable ==> ok
    {
      pending := pending + content;
      ghost var before, arrived := emitted, pending;
      ghost var all := before + Entries(arrived, continuation, max);
      Underway(before, Entries(arrived, continuation, max));
      ok := true;
      while ok && Cut(pending, max) > 0
        invariant OnTheWay(before, emitted, Entries(pending, continuation, max), all)
        invariant Rest(pending, max) == Rest(arrived, max)
        invariant Continues(pending, continuation, max) == Continues(arrived, old(continuation), max)
        invariant !ok ==> Cut(pending, max) > 0 && !reliable
        decreases |pending|, ok
      {
        var split := IsSplit(pending, max);
        var entry := Entry(CutText(pending, max), continuation);
        ghost var later := Entries(pending[Cut(pending, max)..], split, max);
        OneEntryMore(before, emitted, entry, later, all);
        ok := Emit(entry);
        if ok {
          pending := pending[Cut(pending, max)..];
          continuation := split;
        }
      }
    }

    method Flush() returns (ok: bool)
      modifies this
      ensures pending == "" && continuation == old(continuation)
      ensures emitted == old(emitted) + if ok && old(pending) != "" then [Entry(old(pending), continuation)] else []
      ensures reliable ==> ok
    {
      ok := true;
      if pending != "" {
        var entry := Entry(pending, continuation);
        pending := "";
        ok := Emit(entry);
      }
    }
  }

  /** The entries of a whole stream, the unfinished last one included. */
  function AllEntries(s: string, max: Size): seq<Entry> {
    Entries(s, false, max) + Unfinished(s, max)
  }

  function Unfinished(s: string, max: Size): seq<Entry> {
    if Rest(s, max) == "" then [] else [Entry(Rest(s, max), Continues(s, false, max))]
  }

  lemma EntriesJoin(s: string, t: string, max: Size)
    requires !LosesReturn(s + t, max)
    ensures Entries(s + t, false, max) ==
            Entries(s, false, max) + Entries(Rest(s, max) + t, Continues(s, false, max), max)
  {
    var later := Rest(s, max) + t;
    TextsJoin(s, t, max);
    CuttingJoins(s, t, false, max);
    EntriesShow(s, false, max);
    EntriesShow(s + t, false, max);
    EntriesShow(later, Continues(s, false, max), max);
  }

  function Marks(entries: seq<Entry>): seq<bool> {
    if entries == [] then [] else [entries[0].continuation] + Marks(entries[1..])
  }

  lemma {:induction false} MarksOfBoth(a: seq<Entry>, b: seq<Entry>)
    ensures Marks(a + b) == Marks(a) + Marks(b)
  {
    if a == [] {
      assert a + b == b;
    } else {
      assert (a + b)[1..] == a[1..] + b;
      MarksOfBoth(a[1..], b);
    }
  }

  /** Whatever the texts, the continuation marks of a longer stream add to those before. */
  lemma {:induction false} MarksJoin(s: string, t: string, continuation: bool, max: Size)
    ensures Marks(Entries(s + t, continuation, max)) ==
            Marks(Entries(s, continuation, max)) +
            Marks(Entries(Rest(s, max) + t, Continues(s, continuation, max), max))
    decreases |s|
  {
    var n := Cut(s, max);
    if n > 0 {
      CutIsStable(s, t, max);
      MarksJoin(s[n..], t, IsSplit(s, max), max);
    }
  }

  /** The emitted entries are those of the stream so far, as far as the writer promises it. */
  predicate Faithful(emitted: seq<Entry>, s: string, max: Size) {
    Marks(emitted) == Marks(Entries(s, false, max)) && (!LosesReturn(s, max) ==> emitted == Entries(s, false, max))
  }

  /** One write that the receiver took completely. */
  lemma FaithfulMore(before: seq<Entry>, after: seq<Entry>, s: string, t: string, max: Size)
    requires Faithful(before, s, max)
    requires OnTheWay(before, after, [], before + Entries(Rest(s, max) + t, Continues(s, false, max), max))
    ensures Faithful(after, s + t, max)
  {
    assert after + [] == after;
    MarksJoin(s, t, false, max);
    MarksOfBoth(before, Entries(Rest(s, max) + t, Continues(s, false, max), max));
    if !LosesReturn(s + t, max) {
      TextsJoin(s, t, max);
      EntriesJoin(s, t, max);
    }
  }

  lemma FaithfulFlush(emitted: seq<Entry>, s: string, max: Size)
    requires Faithful(emitted, s, max)
    ensures Marks(emitted + Unfinished(s, max)) == Marks(AllEntries(s, max))
    ensures !LosesReturn(s, max) ==> emitted + Unfinished(s, max) == AllEntries(s, max)
  {
    MarksOfBoth(emitted, Unfinished(s, max));
    MarksOfBoth(Entries(s, false, max), Unfinished(s, max));
  }

  /** What was emitted is a beginning of the entries of the whole stream, as far as the writer promises
      it. */
  predicate Beginning(emitted: seq<Entry>, s: string, max: Size) {
    Marks(emitted) <= Marks(AllEntries(s, max)) && (!LosesReturn(s, max) ==> emitted <= AllEntries(s, max))
  }

  lemma BeginningOf(emitted: seq<Entry>, all: seq<Entry>, s: string, t: string, max: Size)
    requires emitted <= all && Faithful(all, s, max)
    ensures Beginning(emitted, s + t, max)
  {
    MarksOfBoth(emitted, all[|emitted|..]);
    assert emitted + all[|emitted|..] == all;
    MarksJoin(s, t, false, max);
    MarksOfBoth(Entries(s + t, false, max), Unfinished(s + t, max));
    if !LosesReturn(s + t, max) {
      TextsJoin(s, t, max);
      EntriesJoin(s, t, max);
    }
  }

  /** What a write that the receiver cut short emitted. */
  lemma CutShort(before: seq<Entry>, now: seq<Entry>, todo: seq<Entry>, s: string, t: string, later: string, max: Size)
    requires Faithful(before, s, max)
    requires OnTheWay(before, now, todo, before + Entries(Rest(s, max) + t, Continues(s, false, max), max))
    ensures Beginning(now, s + t + later, max)
  {
    var all := before + Entries(Rest(s, max) + t, Continues(s, false, max), max);
    assert all + [] == all;
    FaithfulMore(before, all, s, t, max);
    BeginningOf(now, all, s + t, later, max);
  }

  lemma {:induction false} FlatJoins(a: seq<string>, b: seq<string>)
    ensures Flat(a + b) == Flat(a) + Flat(b)
    decreases |b|
  {
    if b == [] {
      assert a + b == a;
    } else {
      var last := |b| - 1;
      assert (a + b)[..|a| + last] == a + b[..last];
      FlatJoins(a, b[..last]);
    }
  }

  lemma FlatSplits(writes: seq<string>, i: nat)
    requires i < |writes|
    ensures Flat(writes) == Flat(writes[..i]) + writes[i] + Flat(writes[i + 1..])
  {
    assert writes == writes[..i + 1] + writes[i + 1..] && writes[..i + 1][..i] == writes[..i];
    FlatJoins(writes[..i + 1], writes[i + 1..]);
  }

  /** A stream that arrives in any writes and is then flushed, unless the receiver fails before. */
  method AnyStream(writes: seq<string>, max: Size, reliable: bool) returns (ok: bool, emitted: seq<Entry>)
    ensures reliable ==> ok
    ensures ok ==> Marks(emitted) == Marks(AllEntries(Flat(writes), max))
    ensures ok && !LosesReturn(Flat(writes), max) ==> emitted == AllEntries(Flat(writes), max)
    ensures Beginning(emitted, Flat(writes), max)
  {
    var writer := new LineWriter(max, reliable);
    ok := true;
    assert Rest("", max) == "";
    for i := 0 to |writes|
      invariant writer.max == max && writer.reliable == reliable && (reliable ==> ok)
      invariant ok ==> Current(writer, Flat(writes[..i]))
      invariant !ok ==> Beginning(writer.emitted, Flat(writes), max)
    {
      if ok {
        ok := NextWrite(writer, writes, i);
      }
    }
    assert writes[..|writes|] == writes;
    if ok {
      ghost var before := writer.emitted;
      assert Flat(writes) + "" == Flat(writes);
      FaithfulFlush(before, Flat(writes), max);
      BeginningOf(before, before, Flat(writes), "", max);
      ok := writer.Flush();
      assert before + [] == before;
      assert writer.emitted == if ok then before + Unfinished(Flat(writes), max) else before;
    }
    emitted := writer.emitted;
  }

  /** The writer is through with the entries of the stream so far. */
  ghost predicate Current(writer: LineWriter, s: string)
    reads writer
  {
    && writer.pending == Rest(s, writer.max) && writer.continuation == Continues(s, false, writer.max)
    && Faithful(writer.emitted, s, writer.max)
  }

  /** One more write; if the receiver fails on the way, the stream ends here. */
  method NextWrite(writer: LineWriter, writes: seq<string>, i: nat) returns (ok: bool)
    requires i < |writes| && Current(writer, Flat(writes[..i]))
    modifies writer
    ensures writer.reliable ==> ok
    ensures ok ==> Current(writer, Flat(writes[..i + 1]))
    ensures !ok ==> Beginning(writer.emitted, Flat(writes), writer.max)
  {
    ghost var s, before, max := Flat(writes[..i]), writer.emitted, writer.max;
    assert writes[..i + 1] == writes[..i] + [writes[i]];
    OneWriteMore(writes[..i], writes[i], max);
    CuttingJoins(s, writes[i], false, max);
    ok := writer.Write(writes[i]);
    if ok {
      FaithfulMore(before, writer.emitted, s, writes[i], max);
    } else {
      FlatSplits(writes, i);
      CutShort(before, writer.emitted, Entries(writer.pending, writer.continuation, max), s, writes[i],
               Flat(writes[i + 1..]), max);
    }
  }
}
