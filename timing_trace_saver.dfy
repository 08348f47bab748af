/**
 * lighthouse-core/lib/timing-trace-saver.js: user-timing measures turned into Chromium
 * trace events. The entries are sorted in place by start time (a stable sort, as
 * `Array.prototype.sort` is guaranteed to be since ECMAScript 2019); every entry then gives an async begin event (or an instant
 * event when its duration is zero) and a matching end event, and one metadata event
 * labels the process. Times are in milliseconds and become microseconds.
 */
module TimingTraceSaver {
  import opened Wrappers
  import opened JsString

  /** A user-timing measure; `gather` marks the entries of the gather phase. */
  datatype Entry = Entry(name: string, startTime: real, duration: real, gather: bool)

  /** The `args` of an event: empty, or the process labels of the metadata event. */
  datatype Args = NoArgs | Labels(labels: string)

  /** A trace event; `id` and `s` are absent from the metadata event, `s` also from timed events. */
  datatype TraceEvent = TraceEvent(
    name: string, cat: string, ts: real, args: Args, dur: real, pid: int, tid: int,
    ph: char, id: Option<string>, s: Option<char>)

  /** The modifier letter colon that stands in for ':' in names. */
  const ModifierColon: char := '\U{A789}'

  /** `s.replace('lh:', '').replace(/:/g, '꞉')`. */
  function TraceName(name: string): (r: string)
    ensures |r| <= |name|
    ensures ':' !in r
  {
    var stripped := ReplaceFirst(name, "lh:", "");
    var r := ReplaceAllChar(stripped, ':', ModifierColon);
    assert forall k :: 0 <= k < |r| ==> r[k] != ':';
    r
  }

  /** A name with the prefix has it removed and every other colon replaced. */
  lemma TraceNameOfPrefixed(x: string)
    ensures TraceName("lh:" + x) == ReplaceAllChar(x, ':', ModifierColon)
  {
    var s := "lh:" + x;
    assert s[..3] == "lh:";
    ReplaceFirstPrefix(s, "lh:");
    assert s[3..] == x;
  }

  /** A name without a colon is kept. */
  lemma TraceNameWithoutColon(name: string)
    requires ':' !in name
    ensures TraceName(name) == name
  {
    forall k ensures !OccursAt(name, "lh:", k) {
      if 0 <= k && k + 3 <= |name| {
        assert name[k..k + 3][2] == name[k + 2] != ':';
      }
    }
    var r := ReplaceAllChar(name, ':', ModifierColon);
    assert forall k :: 0 <= k < |name| ==> r[k] == name[k];
  }

  // ----- the sort -----

  predicate SortedByStart(s: seq<Entry>) {
    forall i, j :: 0 <= i < j < |s| ==> s[i].startTime <= s[j].startTime
  }

  /** x placed after every element that does not start later than it. */
  function Insert(s: seq<Entry>, x: Entry): seq<Entry> {
    if |s| == 0 then [x]
    else if s[|s| - 1].startTime <= x.startTime then s + [x]
    else Insert(s[..|s| - 1], x) + [s[|s| - 1]]
  }

  /** Stable insertion sort by start time: the order `entries.sort` leaves. */
  function SortByStart(s: seq<Entry>): seq<Entry> {
    if |s| == 0 then [] else Insert(SortByStart(s[..|s| - 1]), s[|s| - 1])
  }

  lemma {:induction false} InsertPermutes(s: seq<Entry>, x: Entry)
    ensures multiset(Insert(s, x)) == multiset(s) + multiset{x}
  {
    if |s| > 0 && s[|s| - 1].startTime > x.startTime {
      var init, last := s[..|s| - 1], s[|s| - 1];
      InsertPermutes(init, x);
      assert s == init + [last];
    }
  }

  lemma {:induction false} InsertSorted(s: seq<Entry>, x: Entry)
    requires SortedByStart(s)
    ensures SortedByStart(Insert(s, x))
    ensures |Insert(s, x)| == |s| + 1
  {
    if |s| > 0 && s[|s| - 1].startTime > x.startTime {
      var init, last := s[..|s| - 1], s[|s| - 1];
      InsertSorted(init, x);
      InsertPermutes(init, x);
      var r := Insert(init, x);
      forall k | 0 <= k < |r| ensures r[k].startTime <= last.startTime {
        assert r[k] in multiset(init) + multiset{x};
        if r[k] in multiset(init) {
          assert r[k] in init;
        }
      }
    }
  }

  /** The sorted entries: in start-time order and the same entries. */
  lemma SortByStartCorrect(s: seq<Entry>)
    ensures SortedByStart(SortByStart(s))
    ensures multiset(SortByStart(s)) == multiset(s)
  {
    SortByStartSorted(s);
    SortByStartPermutes(s);
  }

  lemma {:induction false} SortByStartSorted(s: seq<Entry>)
    ensures SortedByStart(SortByStart(s))
  {
    if |s| > 0 {
      SortByStartSorted(s[..|s| - 1]);
      InsertSorted(SortByStart(s[..|s| - 1]), s[|s| - 1]);
    }
  }

  lemma {:induction false} SortByStartPermutes(s: seq<Entry>)
    ensures multiset(SortByStart(s)) == multiset(s)
  {
    if |s| > 0 {
      var init := s[..|s| - 1];
      SortByStartPermutes(init);
      InsertPermutes(SortByStart(init), s[|s| - 1]);
      assert s == init + [s[|s| - 1]];
    }
  }

  /** Already sorted entries stay as they are. */
  lemma {:induction false} SortByStartOfSorted(s: seq<Entry>)
    requires SortedByStart(s)
    ensures SortByStart(s) == s
  {
    if |s| > 0 {
      var init := s[..|s| - 1];
      SortByStartOfSorted(init);
      assert s == init + [s[|s| - 1]];
      if |init| > 0 {
        assert init[|init| - 1].startTime <= s[|s| - 1].startTime;
      }
    }
  }

  /** x goes right after the last element that does not start later than it. */
  lemma {:induction false} InsertAt(s: seq<Entry>, x: Entry, j: nat)
    requires j <= |s| && (j == 0 || s[j - 1].startTime <= x.startTime)
    requires forall k :: j <= k < |s| ==> s[k].startTime > x.startTime
    ensures Insert(s, x) == s[..j] + [x] + s[j..]
    decreases |s|
  {
    if |s| == j {
      assert s[..j] == s && s[j..] == [];
    } else {
      var init, last := s[..|s| - 1], s[|s| - 1];
      InsertAt(init, x, j);
      assert init[..j] == s[..j] && init[j..] + [last] == s[j..];
    }
  }

  /** A sequence laid out as sorted[..j] + [key] + sorted[j..], where key belongs at j. */
  lemma InsertPlaced(sorted: seq<Entry>, key: Entry, j: nat, r: seq<Entry>)
    requires j <= |sorted| && |r| == |sorted| + 1 && r[j] == key
    requires forall k :: 0 <= k < j ==> r[k] == sorted[k]
    requires forall k :: j < k < |r| ==> r[k] == sorted[k - 1]
    requires j == 0 || sorted[j - 1].startTime <= key.startTime
    requires forall k :: j <= k < |sorted| ==> sorted[k].startTime > key.startTime
    ensures r == Insert(sorted, key)
  {
    InsertAt(sorted, key, j);
    assert r == sorted[..j] + [key] + sorted[j..];
  }

  /**
   * One step of the insertion sort: a[i] moves down past the later-starting elements of
   * the sorted prefix a[..i], which each move up by one.
   */
  method InsertNext(a: array<Entry>, i: nat)
    requires i < a.Length
    modifies a
    ensures a[..i + 1] == Insert(old(a[..i]), old(a[i]))
    ensures a[i + 1..] == old(a[i + 1..])
  {
    ghost var sorted := a[..i];
    var key := a[i];
    var j := i;
    while j > 0 && a[j - 1].startTime > key.startTime
      invariant 0 <= j <= i
      invariant forall k :: 0 <= k < j ==> a[k] == sorted[k]
      invariant forall k :: j < k <= i ==> a[k] == sorted[k - 1]
      invariant forall k :: i < k < a.Length ==> a[k] == old(a[k])
      invariant forall k :: j <= k < i ==> sorted[k].startTime > key.startTime
    {
      a[j] := a[j - 1];
      j := j - 1;
    }
    a[j] := key;
    InsertPlaced(sorted, key, j, a[..i + 1]);
    assert a[i + 1..] == old(a[i + 1..]);
  }

  /** `entries.sort((a, b) => a.startTime - b.startTime)`, in place. */
  method SortEntries(a: array<Entry>)
    modifies a
    ensures a[..] == SortByStart(old(a[..]))
  {
    ghost var original := a[..];
    var i := 0;
    while i < a.Length
      invariant 0 <= i <= a.Length
      invariant a[..i] == SortByStart(original[..i])
      invariant a[i..] == original[i..]
    {
      assert a[i] == original[i] && a[i + 1..] == original[i + 1..];
      InsertNext(a, i);
      assert original[..i + 1][..i] == original[..i] && original[..i + 1][i] == original[i];
      assert a[..i + 1] == SortByStart(original[..i + 1]);
      i := i + 1;
    }
    assert a[..] == a[..a.Length] && original[..a.Length] == original;
  }

  // ----- the events -----

  /** The start event of the entry at sorted position i. */
  function StartEvent(e: Entry, i: nat, threadId: int): (r: TraceEvent)
    ensures r.ph in {'b', 'n'} && r.id == Some("0x" + Hex(i)) && r.tid == threadId
    ensures r.ph == 'n' <==> e.duration == 0.0
    ensures r.s == (if e.duration == 0.0 then Some('t') else None)
  {
    var evt := TraceEvent(TraceName(e.name), "blink.user_timing", e.startTime * 1000.0, NoArgs, 0.0, 0, threadId,
      'b', Some("0x" + Hex(i)), None);
    if e.duration == 0.0 then evt.(ph := 'n', s := Some('t')) else evt
  }

  /** The end event: the start event, ending `duration` later. */
  function EndEvent(e: Entry, i: nat, threadId: int): TraceEvent {
    var startEvt := StartEvent(e, i, threadId);
    startEvt.(ph := 'e', ts := startEvt.ts + e.duration * 1000.0)
  }

  /** The labels event that ends the trace. */
  function MetadataEvent(threadId: int): TraceEvent {
    TraceEvent("process_labels", "__metadata", 0.0, Labels("Lighthouse Timing"), 0.0, 0, threadId, 'M', None, None)
  }

  /** The begin/end pairs of the sorted entries, in order. */
  function EventPairs(sorted: seq<Entry>, threadId: int): seq<TraceEvent> {
    if |sorted| == 0 then []
    else
      var n := |sorted| - 1;
      EventPairs(sorted[..n], threadId) + [StartEvent(sorted[n], n, threadId), EndEvent(sorted[n], n, threadId)]
  }

  /** What `generateTraceEvents` returns for entries already in sorted order. */
  function TraceEvents(sorted: seq<Entry>, threadId: int): seq<TraceEvent> {
    EventPairs(sorted, threadId) + [MetadataEvent(threadId)]
  }

  /** One turn of the `forEach`: the entry's start event, patched when its duration is 0, then its end event. */
  method PushEntry(currentTrace: seq<TraceEvent>, entry: Entry, i: nat, threadId: int) returns (next: seq<TraceEvent>)
    ensures next == currentTrace + [StartEvent(entry, i, threadId), EndEvent(entry, i, threadId)]
  {
    var startEvt := TraceEvent(TraceName(entry.name), "blink.user_timing", entry.startTime * 1000.0, NoArgs, 0.0, 0,
      threadId, 'b', Some("0x" + Hex(i)), None);
    if entry.duration == 0.0 {
      startEvt := startEvt.(ph := 'n', s := Some('t'));
    }
    var endEvt := startEvt.(ph := 'e', ts := startEvt.ts + entry.duration * 1000.0);
    next := currentTrace + [startEvt, endEvt];
  }

  /** The `forEach` over the sorted entries and the final push of the labels event. */
  method PushEvents(entries: array<Entry>, threadId: int) returns (currentTrace: seq<TraceEvent>)
    ensures currentTrace == TraceEvents(entries[..], threadId)
  {
    currentTrace := [];
    var i := 0;
    while i < entries.Length
      invariant 0 <= i <= entries.Length
      invariant currentTrace == EventPairs(entries[..i], threadId)
    {
      assert entries[..i + 1][..i] == entries[..i] && entries[..i + 1][i] == entries[i];
      EventPairsStep(entries[..i + 1], i, threadId);
      currentTrace := PushEntry(currentTrace, entries[i], i, threadId);
      i := i + 1;
    }
    assert entries[..i] == entries[..];
    currentTrace := currentTrace + [MetadataEvent(threadId)];
  }

  /**
   * `generateTraceEvents(entries, threadId)`; `null` stands for a value that is no array.
   * The caller's array is left sorted.
   */
  method GenerateTraceEvents(entries: array?<Entry>, threadId: int) returns (currentTrace: seq<TraceEvent>)
    modifies entries
    ensures entries == null ==> currentTrace == []
    ensures entries != null ==>
      entries[..] == SortByStart(old(entries[..])) && currentTrace == TraceEvents(entries[..], threadId)
  {
    if entries == null {
      return [];
    }
    SortEntries(entries);
    currentTrace := PushEvents(entries, threadId);
  }

  /** One more entry adds its pair at the end. */
  lemma EventPairsStep(s: seq<Entry>, i: nat, threadId: int)
    requires |s| == i + 1
    ensures EventPairs(s, threadId) ==
      EventPairs(s[..i], threadId) + [StartEvent(s[i], i, threadId), EndEvent(s[i], i, threadId)]
  {
  }

  /** Two events per entry, in sorted position order. */
  lemma EventPairsAt(sorted: seq<Entry>, threadId: int)
    ensures |EventPairs(sorted, threadId)| == 2 * |sorted|
    ensures forall k :: 0 <= k < |sorted| ==>
      EventPairs(sorted, threadId)[2 * k] == StartEvent(sorted[k], k, threadId) &&
      EventPairs(sorted, threadId)[2 * k + 1] == EndEvent(sorted[k], k, threadId)
  {
    EventPairsLength(sorted, threadId);
    forall k | 0 <= k < |sorted|
      ensures EventPairs(sorted, threadId)[2 * k] == StartEvent(sorted[k], k, threadId) &&
        EventPairs(sorted, threadId)[2 * k + 1] == EndEvent(sorted[k], k, threadId)
    {
      EventPairAt(sorted, threadId, k);
    }
  }

  lemma {:induction false} EventPairsLength(sorted: seq<Entry>, threadId: int)
    ensures |EventPairs(sorted, threadId)| == 2 * |sorted|
  {
    if |sorted| > 0 {
      EventPairsLength(sorted[..|sorted| - 1], threadId);
    }
  }

  /** The pair of the entry at sorted position k. */
  lemma {:induction false} EventPairAt(sorted: seq<Entry>, threadId: int, k: nat)
    requires k < |sorted|
    ensures 2 * k + 1 < |EventPairs(sorted, threadId)|
    ensures EventPairs(sorted, threadId)[2 * k] == StartEvent(sorted[k], k, threadId)
    ensures EventPairs(sorted, threadId)[2 * k + 1] == EndEvent(sorted[k], k, threadId)
  {
    var n := |sorted| - 1;
    var front := EventPairs(sorted[..n], threadId);
    var pairs := EventPairs(sorted, threadId);
    EventPairsLength(sorted[..n], threadId);
    assert pairs == front + [StartEvent(sorted[n], n, threadId), EndEvent(sorted[n], n, threadId)];
    if k < n {
      EventPairAt(sorted[..n], threadId, k);
      assert sorted[..n][k] == sorted[k];
      assert pairs[2 * k] == front[2 * k] && pairs[2 * k + 1] == front[2 * k + 1];
    } else {
      assert 2 * k == |front| && sorted[k] == sorted[n];
      assert pairs[2 * k] == StartEvent(sorted[n], n, threadId) && pairs[2 * k + 1] == EndEvent(sorted[n], n, threadId);
    }
  }

  /**
   * The trace has 2n + 1 events: for the entry at sorted position k its start event at
   * 2k and its end event at 2k + 1, then the metadata event.
   */
  lemma TraceShape(sorted: seq<Entry>, threadId: int)
    ensures |TraceEvents(sorted, threadId)| == 2 * |sorted| + 1
    ensures forall k :: 0 <= k < |sorted| ==>
      TraceEvents(sorted, threadId)[2 * k] == StartEvent(sorted[k], k, threadId) &&
      TraceEvents(sorted, threadId)[2 * k + 1] == EndEvent(sorted[k], k, threadId)
    ensures TraceEvents(sorted, threadId)[2 * |sorted|] == MetadataEvent(threadId)
  {
    EventPairsAt(sorted, threadId);
  }

  /**
   * The pair of one entry shares its id and its name, ends `duration` after it starts,
   * and is an instant begin ('n', scope 't') exactly when the duration is zero.
   */
  lemma PairFields(e: Entry, i: nat, threadId: int)
    ensures var b, z := StartEvent(e, i, threadId), EndEvent(e, i, threadId);
      b.id == z.id == Some("0x" + Hex(i)) && b.name == z.name == TraceName(e.name) &&
      b.ts == e.startTime * 1000.0 && z.ts == b.ts + e.duration * 1000.0 &&
      z.ph == 'e' && z.s == b.s && b.cat == z.cat == "blink.user_timing" && b.pid == z.pid == 0 &&
      z.tid == b.tid == threadId && b.dur == z.dur == 0.0 && b.args == z.args == NoArgs
  {
  }

  /** Different entries have different ids. */
  lemma IdsDistinct(sorted: seq<Entry>, threadId: int, k: nat, l: nat)
    requires k < |sorted| && l < |sorted| && k != l
    ensures StartEvent(sorted[k], k, threadId).id != StartEvent(sorted[l], l, threadId).id
  {
    HexInjective(k, l);
    assert ("0x" + Hex(k))[2..] == Hex(k) && ("0x" + Hex(l))[2..] == Hex(l);
  }

  /** Every begin and end event is a user-timing event of the given thread with a colon-free name. */
  lemma {:induction false} PairsFields(sorted: seq<Entry>, threadId: int)
    ensures forall e :: e in EventPairs(sorted, threadId) ==>
      e.tid == threadId && e.pid == 0 && e.cat == "blink.user_timing" && ':' !in e.name
  {
    if |sorted| > 0 {
      var n := |sorted| - 1;
      PairsFields(sorted[..n], threadId);
      PairFields(sorted[n], n, threadId);
    }
  }

  /** Every event runs in process 0 on the given thread, and no event name contains ':'. */
  lemma TraceFields(sorted: seq<Entry>, threadId: int)
    ensures forall e :: e in TraceEvents(sorted, threadId) ==> e.tid == threadId && e.pid == 0 && ':' !in e.name
  {
    PairsFields(sorted, threadId);
  }

  /** Two events per entry and the labels event. */
  lemma {:induction false} TraceLength(sorted: seq<Entry>, threadId: int)
    ensures |EventPairs(sorted, threadId)| == 2 * |sorted|
    ensures |TraceEvents(sorted, threadId)| == 2 * |sorted| + 1
  {
    if |sorted| > 0 {
      TraceLength(sorted[..|sorted| - 1], threadId);
    }
  }

  /** The events at 2k and 2k + 1 are the pair of the entry at sorted position k. */
  lemma TraceAt(sorted: seq<Entry>, threadId: int, k: nat)
    requires k < |sorted|
    ensures |TraceEvents(sorted, threadId)| == 2 * |sorted| + 1
    ensures TraceEvents(sorted, threadId)[2 * k] == StartEvent(sorted[k], k, threadId)
    ensures TraceEvents(sorted, threadId)[2 * k + 1] == EndEvent(sorted[k], k, threadId)
  {
    TraceShape(sorted, threadId);
  }

  /** In a sorted trace the start events' timestamps do not decrease. */
  lemma SortedStartsInOrder(sorted: seq<Entry>, threadId: int, k: nat, l: nat)
    requires SortedByStart(sorted) && k <= l < |sorted|
    ensures var t := TraceEvents(sorted, threadId); 2 * l < |t| && t[2 * k].ts <= t[2 * l].ts
  {
    TraceAt(sorted, threadId, k);
    TraceAt(sorted, threadId, l);
    PairFields(sorted[k], k, threadId);
    PairFields(sorted[l], l, threadId);
    assert sorted[k].startTime <= sorted[l].startTime;
  }

  /** Sorting keeps the number of entries. */
  lemma SortByStartLength(s: seq<Entry>)
    ensures |SortByStart(s)| == |s|
  {
    SortByStartCorrect(s);
    assert |multiset(SortByStart(s))| == |multiset(s)|;
  }

  /** The event at k runs on the given thread. */
  lemma ThreadAt(sorted: seq<Entry>, threadId: int, k: nat)
    requires k < |TraceEvents(sorted, threadId)|
    ensures TraceEvents(sorted, threadId)[k].tid == threadId
  {
    TraceFields(sorted, threadId);
    assert TraceEvents(sorted, threadId)[k] in TraceEvents(sorted, threadId);
  }

  /** Start events follow the sorted order, so their timestamps do not decrease. */
  lemma StartsInOrder(entries: seq<Entry>, threadId: int, k: nat, l: nat)
    requires k <= l < |entries|
    ensures var t := TraceEvents(SortByStart(entries), threadId); 2 * l < |t| && t[2 * k].ts <= t[2 * l].ts
  {
    SortByStartCorrect(entries);
    SortByStartLength(entries);
    SortedStartsInOrder(SortByStart(entries), threadId, k, l);
  }

  // ----- createTraceString -----

  /** The entries of the audit phase, in order. */
  function AuditEntries(entries: seq<Entry>): (r: seq<Entry>)
    ensures multiset(r) + multiset(GatherEntries(entries)) == multiset(entries)
    ensures forall e :: e in r <==> e in entries && !e.gather
  {
    if |entries| == 0 then []
    else
      var n := |entries| - 1;
      assert entries == entries[..n] + [entries[n]];
      AuditEntries(entries[..n]) + if entries[n].gather then [] else [entries[n]]
  }

  /** `lhr.timing.entries.filter(entry => entry.gather)`. */
  function GatherEntries(entries: seq<Entry>): (r: seq<Entry>)
    ensures forall e :: e in r <==> e in entries && e.gather
  {
    if |entries| == 0 then []
    else
      var n := |entries| - 1;
      assert entries == entries[..n] + [entries[n]];
      GatherEntries(entries[..n]) + if entries[n].gather then [entries[n]] else []
  }

  /** The events `createTraceString` serialises: the audit trace (tid 0), then the gather trace (tid 10). */
  function TraceOf(entries: seq<Entry>): seq<TraceEvent> {
    TraceEvents(SortByStart(AuditEntries(entries)), 0) + TraceEvents(SortByStart(GatherEntries(entries)), 10)
  }

  /** The two `generateTraceEvents` calls on fresh filtered arrays. */
  method CreateTraceEvents(entries: seq<Entry>) returns (events: seq<TraceEvent>)
    ensures events == TraceOf(entries)
  {
    var gatherEntries := GatherEntries(entries);
    var auditEntries := AuditEntries(entries);
    var audit := new Entry[|auditEntries|](k requires 0 <= k < |auditEntries| => auditEntries[k]);
    var gather := new Entry[|gatherEntries|](k requires 0 <= k < |gatherEntries| => gatherEntries[k]);
    assert audit[..] == auditEntries && gather[..] == gatherEntries;
    var auditEvents := GenerateTraceEvents(audit, 0);
    var gatherEvents := GenerateTraceEvents(gather, 10);
    events := auditEvents + gatherEvents;
  }

  /**
   * The audit events come first, all on tid 0, and the gather events after them, all on
   * tid 10; every entry lands in exactly one of the two parts.
   */
  lemma TracePartition(entries: seq<Entry>)
    ensures var audit, gather := SortByStart(AuditEntries(entries)), SortByStart(GatherEntries(entries));
      |audit| + |gather| == |entries| &&
      |TraceOf(entries)| == 2 * |entries| + 2 &&
      (forall k :: 0 <= k < 2 * |audit| + 1 ==> TraceOf(entries)[k].tid == 0) &&
      (forall k :: 2 * |audit| + 1 <= k < |TraceOf(entries)| ==> TraceOf(entries)[k].tid == 10)
  {
    PartSizes(entries);
    PartThreads(SortByStart(AuditEntries(entries)), SortByStart(GatherEntries(entries)));
  }

  /** Every entry is in one of the two parts. */
  lemma PartSizes(entries: seq<Entry>)
    ensures |SortByStart(AuditEntries(entries))| + |SortByStart(GatherEntries(entries))| == |entries|
  {
    var a, g := AuditEntries(entries), GatherEntries(entries);
    SortByStartLength(a);
    SortByStartLength(g);
    assert |multiset(a) + multiset(g)| == |multiset(entries)|;
  }

  /** The audit trace on thread 0 followed by the gather trace on thread 10. */
  lemma PartThreads(audit: seq<Entry>, gather: seq<Entry>)
    ensures var t := TraceEvents(audit, 0) + TraceEvents(gather, 10);
      |t| == 2 * |audit| + 2 * |gather| + 2 &&
      (forall k :: 0 <= k < 2 * |audit| + 1 ==> t[k].tid == 0) &&
      (forall k :: 2 * |audit| + 1 <= k < |t| ==> t[k].tid == 10)
  {
    TraceLength(audit, 0);
    TraceLength(gather, 10);
    var ta, tg := TraceEvents(audit, 0), TraceEvents(gather, 10);
    var t := ta + tg;
    forall k | 0 <= k < |ta| ensures t[k].tid == 0 {
      ThreadAt(audit, 0, k);
    }
    forall k | |ta| <= k < |t| ensures t[k].tid == 10 {
      ThreadAt(gather, 10, k - |ta|);
    }
  }
}
