/**
 * The history channel of one property of one tracked object: the values recorded at
 * (frame, phase) keys, oldest first.
 *
 * A value recorded at key k is the value the property had at k, saved just before the
 * property changed. So the value at k is the earliest entry at or after k, and when there
 * is no such entry the property has not changed since k and the live value still holds
 * ("clean").
 */
module PropertyHistory {
  import opened Wrappers
  import opened FramePhase

  datatype Entry<T> = Entry(key: FrameAndPhase, value: T)

  datatype Channel<T> = Channel(entries: seq<Entry<T>>)

  /** Keys strictly increase along the channel: the discipline every writer keeps. */
  ghost predicate Sorted<T>(c: Channel<T>) {
    SortedEntries(c.entries)
  }

  ghost predicate SortedEntries<T>(es: seq<Entry<T>>) {
    forall i, j :: 0 <= i < j < |es| ==> Before(es[i].key, es[j].key)
  }

  function EmptyChannel<T>(): (c: Channel<T>)
    ensures IsEmpty(c) && Sorted(c)
    ensures forall k :: IsClean(c, k)
  {
    Channel([])
  }

  predicate IsEmpty<T>(c: Channel<T>) {
    |c.entries| == 0
  }

  /** Nothing is recorded at or after k. */
  predicate IsClean<T>(c: Channel<T>, k: FrameAndPhase) {
    forall i :: 0 <= i < |c.entries| ==> Before(c.entries[i].key, k)
  }

  /** The position of the first entry whose key is at or after k, or |es| when there is none. */
  function FirstAtOrAfter<T>(es: seq<Entry<T>>, k: FrameAndPhase): (i: nat)
    ensures i <= |es|
    ensures forall j :: 0 <= j < i ==> Before(es[j].key, k)
    ensures i < |es| ==> !Before(es[i].key, k)
  {
    if es == [] then 0
    else if !Before(es[0].key, k) then 0
    else 1 + FirstAtOrAfter(es[1..], k)
  }

  /** The value the property had at k, when the channel holds one. */
  function Read<T>(c: Channel<T>, k: FrameAndPhase): (r: Option<T>)
    ensures r.None? <==> IsClean(c, k)
    ensures r.Some? ==> exists i :: 0 <= i < |c.entries| && !Before(c.entries[i].key, k) && c.entries[i].value == r.value
  {
    var i := FirstAtOrAfter(c.entries, k);
    if i < |c.entries| then Some(c.entries[i].value) else None
  }

  /** In a sorted channel, Read returns the entry with the least key at or after k. */
  lemma ReadIsEarliestAtOrAfter<T>(c: Channel<T>, k: FrameAndPhase)
    requires Sorted(c)
    requires !IsClean(c, k)
    ensures exists i :: 0 <= i < |c.entries| && Read(c, k) == Some(c.entries[i].value) && !Before(c.entries[i].key, k)
                        && (forall j :: 0 <= j < |c.entries| && !Before(c.entries[j].key, k) ==> !Before(c.entries[j].key, c.entries[i].key))
  {
    var i := FirstAtOrAfter(c.entries, k);
    forall j | 0 <= j < |c.entries| && !Before(c.entries[j].key, k)
      ensures !Before(c.entries[j].key, c.entries[i].key)
    {
      if j > i {
        assert Before(c.entries[i].key, c.entries[j].key);
        BeforeIsStrictTotalOrder(c.entries[i].key, c.entries[j].key, c.entries[i].key);
      }
    }
  }

  /** In a sorted channel, reading at a recorded key returns the value recorded there. */
  lemma ReadAtRecordedKey<T>(c: Channel<T>, i: nat)
    requires Sorted(c)
    requires i < |c.entries|
    ensures Read(c, c.entries[i].key) == Some(c.entries[i].value)
  {
    var k := c.entries[i].key;
    var f := FirstAtOrAfter(c.entries, k);
    BeforeIsStrictTotalOrder(k, k, k);
  }

  /** Nothing is recorded strictly after k: k is at or after the latest recorded key. */
  predicate NothingAfter<T>(c: Channel<T>, k: FrameAndPhase) {
    forall i :: 0 <= i < |c.entries| ==> !Before(k, c.entries[i].key)
  }

  /** Something is recorded at or after k0 and strictly before k. */
  predicate RecordedBetween<T>(c: Channel<T>, k0: FrameAndPhase, k: FrameAndPhase) {
    exists i :: 0 <= i < |c.entries| && !Before(c.entries[i].key, k0) && Before(c.entries[i].key, k)
  }

  /** A channel clean at k has nothing after k, and no entry at k. */
  lemma CleanHasNothingAfter<T>(c: Channel<T>, k: FrameAndPhase)
    requires IsClean(c, k)
    ensures NothingAfter(c, k)
    ensures forall i :: 0 <= i < |c.entries| ==> c.entries[i].key != k
  {
    BeforeIsStrictTotalOrder(k, k, k);
    forall i | 0 <= i < |c.entries| ensures !Before(k, c.entries[i].key) {
      BeforeIsStrictTotalOrder(c.entries[i].key, k, c.entries[i].key);
    }
  }

  /**
   * In a sorted channel with nothing after k, every entry but the latest is before k, and the
   * channel is clean at k unless the latest entry is at k.
   */
  lemma NothingAfterSorted<T>(c: Channel<T>, k: FrameAndPhase)
    requires Sorted(c) && NothingAfter(c, k)
    ensures forall i :: 0 <= i < |c.entries| - 1 ==> Before(c.entries[i].key, k)
    ensures !IsClean(c, k) ==> |c.entries| > 0 && c.entries[|c.entries| - 1].key == k
  {
    var n := |c.entries|;
    forall i | 0 <= i < n - 1 ensures Before(c.entries[i].key, k) {
      assert Before(c.entries[i].key, c.entries[n - 1].key);
      BeforeIsStrictTotalOrder(c.entries[i].key, k, c.entries[n - 1].key);
    }
    if n > 0 && c.entries[n - 1].key != k {
      BeforeIsStrictTotalOrder(c.entries[n - 1].key, k, k);
    }
  }

  /** Whether the latest entry is recorded at k. */
  predicate LatestAt<T>(c: Channel<T>, k: FrameAndPhase) {
    |c.entries| > 0 && c.entries[|c.entries| - 1].key == k
  }

  /**
   * Records v at k when k is at or after the latest recorded key: a value already recorded at
   * k (the latest entry) is overwritten, otherwise the entry is appended. A write behind
   * recorded data violates the channel's monotonic-write check and is dropped.
   */
  function WriteAccessMonotonic<T>(c: Channel<T>, k: FrameAndPhase, v: T): (c': Channel<T>)
    ensures IsClean(c, k) ==> c'.entries == c.entries + [Entry(k, v)]
    ensures NothingAfter(c, k) && LatestAt(c, k) ==> c'.entries == c.entries[..|c.entries| - 1] + [Entry(k, v)]
    ensures !NothingAfter(c, k) ==> c' == c
    ensures NothingAfter(c, k) ==> |c'.entries| > 0 && c'.entries[|c'.entries| - 1] == Entry(k, v)
  {
    if !NothingAfter(c, k) then c
    else if LatestAt(c, k) then Channel(c.entries[..|c.entries| - 1] + [Entry(k, v)])
    else Channel(c.entries + [Entry(k, v)])
  }

  /** A write keeps a sorted channel sorted; in a sorted channel it only ever replaces the latest entry at k. */
  lemma WriteKeepsSorted<T>(c: Channel<T>, k: FrameAndPhase, v: T)
    requires Sorted(c)
    ensures Sorted(WriteAccessMonotonic(c, k, v))
    ensures NothingAfter(c, k) && !IsClean(c, k) ==> LatestAt(c, k)
  {
    if NothingAfter(c, k) {
      NothingAfterSorted(c, k);
      var c' := WriteAccessMonotonic(c, k, v);
      var n := |c'.entries|;
      forall i, j | 0 <= i < j < n ensures Before(c'.entries[i].key, c'.entries[j].key) {
        if j == n - 1 {
          if !LatestAt(c, k) {
            assert IsClean(c, k);
          }
        } else {
          assert c'.entries[i] == c.entries[i] && c'.entries[j] == c.entries[j];
        }
      }
    }
  }

  /**
   * The non-decreasing write: it records v at k, and reports so, exactly when k is at or after the
   * latest recorded key; a write at the latest key overwrites that entry, an earlier key is refused.
   */
  function WriteAccessNonDecreasing<T>(c: Channel<T>, k: FrameAndPhase, v: T): (r: (Channel<T>, bool))
    ensures r.1 <==> NothingAfter(c, k)
    ensures r.1 ==> r.0 == WriteAccessMonotonic(c, k, v)
    ensures !r.1 ==> r.0 == c
  {
    (WriteAccessMonotonic(c, k, v), NothingAfter(c, k))
  }

  /** A write keeps every recorded key, so a channel dirty at k0 stays dirty there. */
  lemma WriteKeepsDirty<T>(c: Channel<T>, k: FrameAndPhase, v: T, k0: FrameAndPhase)
    requires !IsClean(c, k0)
    ensures !IsClean(WriteAccessMonotonic(c, k, v), k0)
  {
    var c' := WriteAccessMonotonic(c, k, v);
    var i :| 0 <= i < |c.entries| && !Before(c.entries[i].key, k0);
    if NothingAfter(c, k) {
      if LatestAt(c, k) && i == |c.entries| - 1 {
        assert c'.entries[i].key == c.entries[i].key;
      } else {
        assert c'.entries[i] == c.entries[i];
      }
    }
  }

  /** The first entry at or after k depends only on the entries up to one that is at or after k. */
  lemma FirstAtOrAfterPrefix<T>(es: seq<Entry<T>>, es': seq<Entry<T>>, k: FrameAndPhase, j: nat)
    requires j < |es| && j < |es'| && es[..j + 1] == es'[..j + 1] && !Before(es[j].key, k)
    ensures FirstAtOrAfter(es, k) == FirstAtOrAfter(es', k)
  {
    var i, i' := FirstAtOrAfter(es, k), FirstAtOrAfter(es', k);
    assert es'[j] == es'[..j + 1][j];
    assert i <= j && i' <= j;
  }

  /** A write at k leaves a read at k0 unchanged when a value is recorded between k0 and k. */
  lemma WriteKeepsEarlierReads<T>(c: Channel<T>, k: FrameAndPhase, v: T, k0: FrameAndPhase)
    requires RecordedBetween(c, k0, k)
    ensures Read(WriteAccessMonotonic(c, k, v), k0) == Read(c, k0)
  {
    var c' := WriteAccessMonotonic(c, k, v);
    if NothingAfter(c, k) {
      var j :| 0 <= j < |c.entries| && !Before(c.entries[j].key, k0) && Before(c.entries[j].key, k);
      BeforeIsStrictTotalOrder(k, k, k);
      assert c'.entries[..j + 1] == c.entries[..j + 1];
      FirstAtOrAfterPrefix(c.entries, c'.entries, k0, j);
      var i := FirstAtOrAfter(c.entries, k0);
      assert c'.entries[i] == c'.entries[..j + 1][i];
    }
  }

  /**
   * A write is read back at its key when the channel is clean there, or, in a sorted channel, when
   * nothing is recorded after the key.
   */
  lemma WriteThenRead<T>(c: Channel<T>, k: FrameAndPhase, v: T)
    requires IsClean(c, k) || (Sorted(c) && NothingAfter(c, k))
    ensures Read(WriteAccessMonotonic(c, k, v), k) == Some(v)
  {
    var c' := WriteAccessMonotonic(c, k, v);
    if !IsClean(c, k) {
      NothingAfterSorted(c, k);
    }
    BeforeIsStrictTotalOrder(k, k, k);
    if IsClean(c, k) {
      assert forall i :: 0 <= i < |c'.entries| - 1 ==> c'.entries[i] == c.entries[i];
    } else {
      assert forall i :: 0 <= i < |c'.entries| - 1 ==> c'.entries[i] == c.entries[i];
    }
    assert FirstAtOrAfter(c'.entries, k) == |c'.entries| - 1;
  }

  function InsertSorted<T>(es: seq<Entry<T>>, k: FrameAndPhase, v: T): (r: seq<Entry<T>>)
    ensures Entry(k, v) in r
    ensures forall e :: e in r ==> e == Entry(k, v) || e in es
    ensures forall e :: e in es && e.key != k ==> e in r
  {
    if es == [] then [Entry(k, v)]
    else if Before(k, es[0].key) then [Entry(k, v)] + es
    else if es[0].key == k then [Entry(k, v)] + es[1..]
    else [es[0]] + InsertSorted(es[1..], k, v)
  }

  /**
   * Records v at an arbitrary key, keeping the keys in order and replacing a value
   * already recorded at k. Used for externally supplied targets, which may arrive for any frame.
   */
  function Insert<T>(c: Channel<T>, k: FrameAndPhase, v: T): (c': Channel<T>)
    ensures Entry(k, v) in c'.entries
    ensures forall e :: e in c'.entries ==> e == Entry(k, v) || e in c.entries
    ensures forall e :: e in c.entries && e.key != k ==> e in c'.entries
  {
    Channel(InsertSorted(c.entries, k, v))
  }

  lemma SortedHead<T>(es: seq<Entry<T>>)
    requires SortedEntries(es) && es != []
    ensures SortedEntries(es[1..])
    ensures forall e :: e in es[1..] ==> Before(es[0].key, e.key)
  {
    forall e | e in es[1..] ensures Before(es[0].key, e.key) {
      var m :| 0 <= m < |es[1..]| && es[1..][m] == e;
      assert es[m + 1] == e;
    }
  }

  lemma SortedCons<T>(e: Entry<T>, es: seq<Entry<T>>)
    requires SortedEntries(es)
    requires forall x :: x in es ==> Before(e.key, x.key)
    ensures SortedEntries([e] + es)
  {
    var r := [e] + es;
    forall i, j | 0 <= i < j < |r| ensures Before(r[i].key, r[j].key) {
      assert r[j] == es[j - 1];
      if i > 0 {
        assert r[i] == es[i - 1];
      }
    }
  }

  lemma {:induction false} InsertSortedKeepsOrder<T>(es: seq<Entry<T>>, k: FrameAndPhase, v: T)
    requires SortedEntries(es)
    ensures SortedEntries(InsertSorted(es, k, v))
    ensures forall e :: e in InsertSorted(es, k, v) ==> e == Entry(k, v) || (e in es && e.key != k)
    decreases |es|
  {
    if es == [] {
    } else {
      SortedHead(es);
      if Before(k, es[0].key) {
        forall x | x in es ensures Before(k, x.key) {
          if x != es[0] {
            BeforeIsStrictTotalOrder(k, es[0].key, x.key);
          }
        }
        SortedCons(Entry(k, v), es);
      } else if es[0].key == k {
        SortedCons(Entry(k, v), es[1..]);
        forall x | x in es[1..] ensures x.key != k {
          BeforeIsStrictTotalOrder(k, k, k);
        }
      } else {
        InsertSortedKeepsOrder(es[1..], k, v);
        BeforeIsStrictTotalOrder(es[0].key, k, es[0].key);
        SortedCons(es[0], InsertSorted(es[1..], k, v));
        BeforeIsStrictTotalOrder(es[0].key, es[0].key, es[0].key);
      }
    }
  }

  /** Insert keeps a sorted channel sorted, and a read at k then returns the inserted value. */
  lemma InsertThenRead<T>(c: Channel<T>, k: FrameAndPhase, v: T)
    requires Sorted(c)
    ensures Sorted(Insert(c, k, v))
    ensures forall e :: e in Insert(c, k, v).entries ==> e == Entry(k, v) || (e in c.entries && e.key != k)
    ensures Read(Insert(c, k, v), k) == Some(v)
  {
    InsertSortedKeepsOrder(c.entries, k, v);
    var c' := Insert(c, k, v);
    var i :| 0 <= i < |c'.entries| && c'.entries[i] == Entry(k, v);
    ReadAtRecordedKey(c', i);
  }

  function KeepBefore<T>(es: seq<Entry<T>>, k: FrameAndPhase): (r: seq<Entry<T>>)
    ensures forall e :: e in r ==> e in es && Before(e.key, k)
    ensures forall e :: e in es && Before(e.key, k) ==> e in r
    ensures |r| <= |es|
  {
    if es == [] then []
    else (if Before(es[0].key, k) then [es[0]] else []) + KeepBefore(es[1..], k)
  }

  /** Discards everything recorded at k and later; what was recorded before k stays. */
  function ClearPhaseAndFuture<T>(c: Channel<T>, k: FrameAndPhase): (c': Channel<T>)
    ensures IsClean(c', k)
    ensures forall e :: e in c'.entries ==> e in c.entries && Before(e.key, k)
    ensures forall e :: e in c.entries && Before(e.key, k) ==> e in c'.entries
  {
    var r := Channel(KeepBefore(c.entries, k));
    assert forall i :: 0 <= i < |r.entries| ==> r.entries[i] in r.entries;
    r
  }

  /** The recorded value at k, if any, agrees with the live value. */
  predicate IsInSync<T(==)>(c: Channel<T>, k: FrameAndPhase, live: T) {
    match Read(c, k)
    case None => true
    case Some(v) => v == live
  }
}
