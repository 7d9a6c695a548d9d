/** Pages of a container's log history, read backwards from the newest entry. */
module LogPages {

  import opened Wrappers

  datatype Entry = Entry(cursor: string, text: string)

  datatype Page = Page(entries: seq<Entry>, before: string, hasMore: bool)

  function Total(entries: seq<Entry>): nat {
    if entries == [] then 0 else |entries[0].text| + Total(entries[1..])
  }

  predicate Fits(entries: seq<Entry>, lines: nat, bytes: nat) {
    |entries| <= lines && Total(entries) <= bytes
  }

  /** The end of the entries that is left when the oldest are dropped until the rest fits. */
  function Window(entries: seq<Entry>, lines: nat, bytes: nat): (w: seq<Entry>)
    ensures |w| <= |entries| && Fits(w, lines, bytes)
  {
    if Fits(entries, lines, bytes) then entries else Window(entries[1..], lines, bytes)
  }

  lemma {:induction false} WindowIsEnd(entries: seq<Entry>, lines: nat, bytes: nat)
    ensures var w := Window(entries, lines, bytes); w == entries[|entries| - |w|..]
  {
    if !Fits(entries, lines, bytes) {
      WindowIsEnd(entries[1..], lines, bytes);
    }
  }

  lemma {:induction false} TotalJoins(a: seq<Entry>, b: seq<Entry>)
    ensures Total(a + b) == Total(a) + Total(b)
  {
    if a == [] {
      assert a + b == b;
    } else {
      assert (a + b)[1..] == a[1..] + b;
      TotalJoins(a[1..], b);
    }
  }

  ghost predicate FitsFrom(entries: seq<Entry>, k: nat, lines: nat, bytes: nat)
    requires k <= |entries|
  {
    Fits(entries[k..], lines, bytes)
  }

  /** No longer end of the entries fits. */
  lemma {:induction false} WindowIsLongest(entries: seq<Entry>, lines: nat, bytes: nat, k: nat)
    requires k <= |entries| && FitsFrom(entries, k, lines, bytes)
    ensures |Window(entries, lines, bytes)| >= |entries| - k
  {
    if !Fits(entries, lines, bytes) {
      assert entries[0..] == entries;
      assert entries[1..][k - 1..] == entries[k..];
      WindowIsLongest(entries[1..], lines, bytes, k - 1);
    }
  }

  /** Dropping as the entries arrive leaves the same as dropping at the end. */
  lemma {:induction false} WindowOfMore(entries: seq<Entry>, entry: Entry, lines: nat, bytes: nat)
    ensures Window(entries + [entry], lines, bytes) == Window(Window(entries, lines, bytes) + [entry], lines, bytes)
  {
    if !Fits(entries, lines, bytes) {
      TotalJoins(entries, [entry]);
      assert (entries + [entry])[1..] == entries[1..] + [entry];
      WindowOfMore(entries[1..], entry, lines, bytes);
    }
  }

  /** The entries before the first one with the cursor; all of them without a cursor. */
  function Shown(stream: seq<Entry>, before: string): (shown: seq<Entry>)
    ensures |shown| <= |stream|
  {
    if stream == [] || (before != "" && stream[0].cursor == before) then []
    else [stream[0]] + Shown(stream[1..], before)
  }

  /** Whether the page boundary is in the stream. */
  predicate Bounded(stream: seq<Entry>, before: string) {
    |Shown(stream, before)| < |stream|
  }

  lemma {:induction false} ShownUpTo(stream: seq<Entry>, before: string, k: nat)
    requires k <= |stream| && forall i | 0 <= i < k :: before == "" || stream[i].cursor != before
    requires k < |stream| ==> before != "" && stream[k].cursor == before
    ensures Shown(stream, before) == stream[..k]
  {
    if k > 0 {
      ShownUpTo(stream[1..], before, k - 1);
      assert stream[..k] == [stream[0]] + stream[1..][..k - 1];
    }
  }

  lemma {:induction false} ShownOfMore(stream: seq<Entry>, entry: Entry, before: string)
    ensures Shown(stream + [entry], before) ==
            if Bounded(stream, before) || (before != "" && entry.cursor == before) then Shown(stream, before)
            else Shown(stream, before) + [entry]
  {
    if stream == [] {
      assert [entry][1..] == [];
    } else {
      assert (stream + [entry])[1..] == stream[1..] + [entry];
      ShownOfMore(stream[1..], entry, before);
    }
  }

  lemma TotalOfMore(entries: seq<Entry>, entry: Entry)
    ensures Total(entries + [entry]) == Total(entries) + |entry.text|
  {
    TotalJoins(entries, [entry]);
    assert [entry][1..] == [];
  }

  /** Drops the oldest entries of the page until it fits. */
  method Trim(arrived: seq<Entry>, size: nat, lines: nat, bytes: nat)
    returns (entries: seq<Entry>, total: nat, dropped: bool)
    requires size == Total(arrived)
    ensures entries == Window(arrived, lines, bytes) && total == Total(entries)
    ensures dropped <==> |entries| < |arrived|
  {
    entries, total, dropped := arrived, size, false;
    while |entries| > lines || total > bytes
      invariant total == Total(entries) && |entries| <= |arrived|
      invariant Window(entries, lines, bytes) == Window(arrived, lines, bytes)
      invariant dropped <==> |entries| < |arrived|
      decreases |entries|
    {
      total := total - |entries[0].text|;
      entries := entries[1..];
      dropped := true;
    }
  }

  /** One page: the longest end of what precedes the boundary that fits.  Fails exactly when the
      boundary is not in the stream. */
  method History(stream: seq<Entry>, before: string, lines: nat, bytes: nat) returns (page: Option<Page>)
    ensures page.None? <==> before != "" && !Bounded(stream, before)
    ensures page.Some? ==> page.value == PageOf(Shown(stream, before), lines, bytes)
  {
    var entries: seq<Entry>, total, dropped, boundaryFound := [], 0, false, before == "";
    for i := 0 to |stream|
      invariant Collected(stream[..i], before, lines, bytes, entries, total, dropped, boundaryFound)
    {
      var entry := stream[i];
      assert stream[..i + 1] == stream[..i] + [entry];
      ShownOfMore(stream[..i], entry, before);
      if before != "" && entry.cursor == before {
        boundaryFound := true;
      } else if !(boundaryFound && before != "") {
        TotalOfMore(entries, entry);
        Taken(stream[..i], entry, before, lines, bytes, entries, total, dropped, boundaryFound);
        var trimmed;
        entries, total, trimmed := Trim(entries + [entry], total + |entry.text|, lines, bytes);
        dropped := dropped || trimmed;
      }
    }
    assert stream[..|stream|] == stream;
    if !boundaryFound {
      return None;
    }
    return Some(Page(entries, if entries == [] then "" else entries[0].cursor, dropped || |entries| == lines));
  }

  /** The state of the page after the entries `seen` of the stream. */
  ghost predicate Collected(seen: seq<Entry>, before: string, lines: nat, bytes: nat,
                            entries: seq<Entry>, total: int, dropped: bool, boundaryFound: bool)
  {
    && entries == Window(Shown(seen, before), lines, bytes)
    && total == Total(entries)
    && (dropped <==> |entries| < |Shown(seen, before)|)
    && (boundaryFound <==> before == "" || Bounded(seen, before))
  }

  lemma Taken(seen: seq<Entry>, entry: Entry, before: string, lines: nat, bytes: nat,
              entries: seq<Entry>, total: nat, dropped: bool, boundaryFound: bool)
    requires Collected(seen, before, lines, bytes, entries, total, dropped, boundaryFound)
    requires before == "" || (entry.cursor != before && !boundaryFound)
    ensures var next := Window(entries + [entry], lines, bytes);
            Collected(seen + [entry], before, lines, bytes, next, Total(next),
                      dropped || |next| < |entries| + 1, boundaryFound)
  {
    ShownOfMore(seen, entry, before);
    NeverBounded(seen, before);
    WindowOfMore(Shown(seen, before), entry, lines, bytes);
  }

  function PageOf(shown: seq<Entry>, lines: nat, bytes: nat): Page {
    var entries := Window(shown, lines, bytes);
    Page(entries, if entries == [] then "" else entries[0].cursor, |entries| < |shown| || |entries| == lines)
  }

  lemma NeverBounded(stream: seq<Entry>, before: string)
    ensures before == "" ==> !Bounded(stream, before)
  {
    if before == "" {
      ShownUpTo(stream, before, |stream|);
    }
  }

  // ---------------------------------------------------------------- reading all of a log

  predicate DistinctCursors(log: seq<Entry>) {
    && (forall i | 0 <= i < |log| :: log[i].cursor != "")
    && forall i, j | 0 <= i < j < |log| :: log[i].cursor != log[j].cursor
  }

  /** Every entry fits a page of its own. */
  predicate Readable(log: seq<Entry>, lines: nat, bytes: nat) {
    lines > 0 && DistinctCursors(log) && forall i | 0 <= i < |log| :: |log[i].text| <= bytes
  }

  lemma LastFits(shown: seq<Entry>, lines: nat, bytes: nat)
    requires lines > 0 && shown != [] && |shown[|shown| - 1].text| <= bytes
    ensures Window(shown, lines, bytes) != []
  {
    var k := |shown| - 1;
    var last := shown[k..];
    assert |last| == 1 && last[0] == shown[k] && last[1..] == [];
    assert Total(last) == |last[0].text| + Total(last[1..]);
    WindowIsLongest(shown, lines, bytes, k);
  }

  lemma EndOfSlice(log: seq<Entry>, from: nat, k: nat, n: nat)
    requires from <= k <= |log| && n <= k - from
    ensures log[from..k][k - from - n..] == log[k - n..k]
    ensures n > 0 ==> log[k - n..k][0] == log[k - n]
  {
  }

  lemma NotEmpty(log: seq<Entry>, from: nat, k: nat, lines: nat, bytes: nat)
    requires Readable(log, lines, bytes) && from <= k <= |log|
    ensures from < k ==> Window(log[from..k], lines, bytes) != []
  {
    if from < k {
      assert log[from..k][k - from - 1] == log[k - 1];
      LastFits(log[from..k], lines, bytes);
    }
  }

  /** A page of the entries before `k` takes some of them, and says when it took the last. */
  lemma PageBefore(log: seq<Entry>, from: nat, k: nat, shown: seq<Entry>, lines: nat, bytes: nat)
    requires Readable(log, lines, bytes) && from <= k <= |log| && (from == 0 || k - from == lines)
    requires shown == log[from..k]
    ensures var page := PageOf(shown, lines, bytes);
            var n := |page.entries|;
            && from + n <= k && page.entries == log[k - n..k] && (n > 0 ==> page.before == log[k - n].cursor)
            && (k > 0 ==> n > 0) && (page.hasMore || n == k)
  {
    var n := |Window(shown, lines, bytes)|;
    WindowIsEnd(shown, lines, bytes);
    EndOfSlice(log, from, k, n);
    NotEmpty(log, from, k, lines, bytes);
  }

  /** A boundary ends the page right before it, however far the stream goes beyond it. */
  lemma ShownBefore(log: seq<Entry>, k: nat, end: nat)
    requires DistinctCursors(log) && k < end <= |log|
    ensures Shown(log[..end], log[k].cursor) == log[0..k] && Bounded(log[..end], log[k].cursor)
  {
    ShownUpTo(log[..end], log[k].cursor, k);
    assert log[..end][..k] == log[0..k];
  }

  /** Everything from entry `k` on is read and `page` is the oldest part of it. */
  ghost predicate Reading(log: seq<Entry>, k: nat, page: Page, read: seq<Entry>) {
    && k <= |log| && read == log[k..]
    && (page.entries != [] ==> k < |log| && page.before == log[k].cursor)
    && (!page.hasMore || page.entries == [] ==> k == 0)
  }

  lemma Started(log: seq<Entry>, from: nat, lines: nat, bytes: nat)
    requires Readable(log, lines, bytes) && from <= |log| && (from == 0 || |log| - from == lines)
    ensures var page := PageOf(log[from..], lines, bytes);
            |page.entries| <= |log| && Reading(log, |log| - |page.entries|, page, page.entries)
  {
    PageBefore(log, from, |log|, log[from..|log|], lines, bytes);
    assert log[from..|log|] == log[from..];
    var k := |log| - |PageOf(log[from..], lines, bytes).entries|;
    assert log[k..|log|] == log[k..];
  }

  lemma Continued(log: seq<Entry>, k: nat, read: seq<Entry>, lines: nat, bytes: nat)
    requires Readable(log, lines, bytes) && k <= |log| && read == log[k..]
    ensures var next := PageOf(log[0..k], lines, bytes);
            && |next.entries| <= k && Reading(log, k - |next.entries|, next, next.entries + read)
            && (k > 0 ==> next.entries != [])
  {
    PageBefore(log, 0, k, log[0..k], lines, bytes);
    var from := k - |PageOf(log[0..k], lines, bytes).entries|;
    assert log[from..k] + log[k..] == log[from..];
  }

  lemma AllRead(log: seq<Entry>, page: Page, read: seq<Entry>)
    requires Reading(log, 0, page, read)
    ensures read == log
  {
  }

  /** The latest page, which starts at entry `k`. */
  method FirstPage(log: seq<Entry>, lines: nat, bytes: nat) returns (page: Page, k: nat)
    requires Readable(log, lines, bytes)
    ensures Reading(log, k, page, page.entries)
  {
    var first := if |log| > lines then |log| - lines else 0;
    var stream := log[first..];
    ShownUpTo(stream, "", |stream|);
    Started(log, first, lines, bytes);
    var result := History(stream, "", lines, bytes);
    assert stream[..|stream|] == stream;
    page := result.value;
    k := |log| - |page.entries|;
  }

  /** The page before `page`, which started at entry `k`, from a stream that goes on beyond the boundary
      as far as it likes. */
  method NextPage(log: seq<Entry>, k: nat, page: Page, ghost read: seq<Entry>, lines: nat, bytes: nat)
    returns (next: Page, start: nat)
    requires Readable(log, lines, bytes) && Reading(log, k, page, read) && page.entries != []
    ensures start == k - |next.entries| && Reading(log, start, next, next.entries + read)
    ensures start < k || next.entries == []
  {
    var end :| k < end <= |log|;
    ShownBefore(log, k, end);
    Continued(log, k, read, lines, bytes);
    var result := History(log[..end], page.before, lines, bytes);
    next := result.value;
    start := k - |next.entries|;
  }

  /** Reading page after page until there is no more gives the whole log, every entry once and in
      order, wherever the daemon ends the stream after a boundary. */
  method ReadAll(log: seq<Entry>, lines: nat, bytes: nat) returns (read: seq<Entry>)
    requires Readable(log, lines, bytes)
    ensures read == log
  {
    var page, k := FirstPage(log, lines, bytes);
    read := page.entries;
    while page.hasMore && page.entries != []
      invariant Reading(log, k, page, read)
      decreases if page.entries == [] then 0 else k + 1
    {
      page, k := NextPage(log, k, page, read, lines, bytes);
      read := page.entries + read;
    }
    AllRead(log, page, read);
  }
}
