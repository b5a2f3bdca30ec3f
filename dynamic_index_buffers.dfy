/**
 * The transient index buffers of the renderer: one pool per index width (16- and 32-bit), each a
 * list of buffers and a current buffer that allocations bump through. A buffer stays in its pool
 * until it has gone unused for the configured number of frames.
 */
module DynamicIndexBuffers {
  import opened Wrappers
  import opened Sequences
  import opened DynamicBuffers

  datatype IndexBufferState = IndexBufferState(bufferSize: nat, allocatedByteCount: nat, stride: nat, mapped: bool, numFramesUnused: int)

  /**
   * A buffer of a pool of the given stride: a whole number of 64 KB blocks, allocated in whole
   * indices, and empty whenever it is not locked for writing.
   */
  predicate WellFormed(b: IndexBufferState, stride: nat) {
    (stride == 2 || stride == 4) && b.stride == stride
    && b.bufferSize % BufferAlignment == 0 && b.bufferSize >= BufferAlignment
    && b.allocatedByteCount <= b.bufferSize && WholeIndices(b.allocatedByteCount, stride)
    && (!b.mapped ==> b.allocatedByteCount == 0)
    && b.numFramesUnused >= 0
  }

  /** Whether n bytes are a whole number of indices of a 2- or 4-byte stride. */
  predicate WholeIndices(n: nat, stride: nat) {
    if stride == 2 then n % 2 == 0 else n % 4 == 0
  }

  /** Whole indices stay whole when more whole indices are added, and divide exactly into indices. */
  lemma WholeIndicesAdd(a: nat, b: nat, stride: nat)
    requires (stride == 2 || stride == 4) && WholeIndices(a, stride) && WholeIndices(b, stride)
    ensures WholeIndices(a + b, stride) && a / stride * stride == a
  {
    var q, r := a / stride, b / stride;
    if stride == 2 {
      assert a == 2 * q && b == 2 * r;
      assert a + b == 2 * (q + r);
    } else {
      assert a == 4 * q && b == 4 * r;
      assert a + b == 4 * (q + r);
    }
  }

  /** Whether sizeInBytes more bytes fit in the buffer. */
  predicate Fits(b: IndexBufferState, sizeInBytes: nat) {
    b.allocatedByteCount + sizeInBytes <= b.bufferSize
  }

  /** The buffer a new index buffer starts as: sized for the request, unlocked and empty. */
  function NewIndexBuffer(sizeInBytes: nat, stride: nat): (b: IndexBufferState)
    requires stride == 2 || stride == 4
    ensures WellFormed(b, stride) && !b.mapped && Fits(b, sizeInBytes)
  {
    IndexBufferState(DynamicBufferSize(sizeInBytes), 0, stride, false, 0)
  }

  /** The first buffer of the list with room for the request, or None when none has. */
  function FirstFit(buffers: seq<IndexBufferState>, sizeInBytes: nat): (r: Option<nat>)
    ensures r.Some? ==> r.value < |buffers| && Fits(buffers[r.value], sizeInBytes)
    ensures r.Some? ==> forall j :: 0 <= j < r.value ==> !Fits(buffers[j], sizeInBytes)
    ensures r.None? ==> forall j :: 0 <= j < |buffers| ==> !Fits(buffers[j], sizeInBytes)
  {
    if buffers == [] then None
    else if Fits(buffers[0], sizeInBytes) then Some(0)
    else match FirstFit(buffers[1..], sizeInBytes)
      case None => None
      case Some(k) => Some(k + 1)
  }

  /**
   * How one allocation of numIndices indices of stride bytes changes a pool's buffer list, given
   * the list and the current position before it: the current buffer is used if the request fits
   * in it, else the first buffer with room, else a new buffer appended for the request. The chosen
   * buffer is locked and its allocated count grows by the request, the allocation starting at
   * the index where the count stood; every other buffer is unchanged.
   */
  ghost predicate AllocatedFrom(before: seq<IndexBufferState>, current: Option<nat>, stride: nat, numIndices: nat,
                                after: seq<IndexBufferState>, bufferIndex: nat, firstIndex: nat)
    requires stride == 2 || stride == 4
  {
    var size := numIndices * stride;
    var currentFits := current.Some? && current.value < |before| && Fits(before[current.value], size);
    (currentFits ==> bufferIndex == current.value)
    && (!currentFits ==>
          match FirstFit(before, size)
          case Some(k) => bufferIndex == k
          case None => bufferIndex == |before|)
    && (bufferIndex == |before| ==>
          after == before + [NewIndexBuffer(size, stride).(mapped := true, allocatedByteCount := size)]
          && firstIndex == 0)
    && (bufferIndex < |before| ==>
          after == before[bufferIndex := before[bufferIndex].(
            mapped := true, allocatedByteCount := before[bufferIndex].allocatedByteCount + size)]
          && firstIndex * stride == before[bufferIndex].allocatedByteCount)
    && bufferIndex <= |before|
  }

  /**
   * What the end of a frame does to one buffer: a locked buffer is unlocked and emptied and its
   * unused count restarts; with a non-zero threshold an unlocked empty buffer counts one more
   * unused frame and is released (None) once the count reaches the threshold.
   */
  function CommitBuffer(b: IndexBufferState, threshold: int): Option<IndexBufferState> {
    if b.mapped then Some(b.(mapped := false, allocatedByteCount := 0, numFramesUnused := 0))
    else if threshold != 0 && b.allocatedByteCount == 0 then
      if b.numFramesUnused + 1 >= threshold then None
      else Some(b.(numFramesUnused := b.numFramesUnused + 1))
    else Some(b)
  }

  /** The buffers that survive the end of a frame, each as CommitBuffer leaves it, in list order. */
  function CommitAll(buffers: seq<IndexBufferState>, threshold: int): seq<IndexBufferState> {
    if buffers == [] then []
    else
      var rest := CommitAll(buffers[1..], threshold);
      match CommitBuffer(buffers[0], threshold)
      case None => rest
      case Some(b) => [b] + rest
  }

  /** The end-of-frame results, this many frames in a row with no allocation in between. */
  function CommitRepeatedly(buffers: seq<IndexBufferState>, threshold: int, frames: nat): seq<IndexBufferState>
    decreases frames
  {
    if frames == 0 then buffers else CommitRepeatedly(CommitAll(buffers, threshold), threshold, frames - 1)
  }

  lemma {:induction false} CommitAllConcat(a: seq<IndexBufferState>, b: seq<IndexBufferState>, threshold: int)
    ensures CommitAll(a + b, threshold) == CommitAll(a, threshold) + CommitAll(b, threshold)
    decreases |a|
  {
    if a == [] {
      assert a + b == b;
    } else {
      assert (a + b)[0] == a[0] && (a + b)[1..] == a[1..] + b;
      CommitAllConcat(a[1..], b, threshold);
    }
  }

  /** After the end of a frame every remaining buffer of a well-formed pool is unlocked, empty and still well formed. */
  lemma {:induction false} CommitAllUnlocks(buffers: seq<IndexBufferState>, threshold: int, stride: nat)
    requires forall b :: b in buffers ==> WellFormed(b, stride)
    ensures forall b :: b in CommitAll(buffers, threshold) ==>
              WellFormed(b, stride) && !b.mapped && b.allocatedByteCount == 0 && (threshold > 0 ==> b.numFramesUnused < threshold)
    decreases |buffers|
  {
    if buffers != [] {
      assert buffers[0] in buffers;
      assert forall b :: b in buffers[1..] ==> b in buffers;
      CommitAllUnlocks(buffers[1..], threshold, stride);
    }
  }

  /** A threshold of 0 turns releasing off: every buffer survives the end of a frame. */
  lemma {:induction false} CommitAllWithoutThresholdKeepsAll(buffers: seq<IndexBufferState>)
    ensures |CommitAll(buffers, 0)| == |buffers|
    decreases |buffers|
  {
    if buffers != [] {
      CommitAllWithoutThresholdKeepsAll(buffers[1..]);
    }
  }

  /**
   * At the end of a frame with a non-zero threshold, an unlocked empty pool ages by one frame:
   * each survivor has one more unused frame than before and was below the threshold.
   */
  lemma {:induction false} CommitAllAgesIdle(buffers: seq<IndexBufferState>, threshold: int, unused: int)
    requires threshold != 0
    requires forall b :: b in buffers ==> !b.mapped && b.allocatedByteCount == 0 && b.numFramesUnused >= unused
    ensures forall b :: b in CommitAll(buffers, threshold) ==>
              !b.mapped && b.allocatedByteCount == 0 && b.numFramesUnused >= unused + 1 && b.numFramesUnused < threshold
    decreases |buffers|
  {
    if buffers != [] {
      assert buffers[0] in buffers;
      assert forall b :: b in buffers[1..] ==> b in buffers;
      CommitAllAgesIdle(buffers[1..], threshold, unused);
    }
  }

  /**
   * With a positive threshold, a pool that receives no allocations is empty after threshold + 1
   * ends of frame: the first unlocks every buffer, and each later one ages the survivors until
   * they reach the threshold.
   */
  lemma IdlePoolEmptiesAfterThreshold(buffers: seq<IndexBufferState>, threshold: int, stride: nat)
    requires threshold > 0
    requires forall b :: b in buffers ==> WellFormed(b, stride)
    ensures CommitRepeatedly(buffers, threshold, threshold + 1) == []
  {
    var first := CommitAll(buffers, threshold);
    CommitAllUnlocks(buffers, threshold, stride);
    IdleAging(first, threshold, 0, threshold);
  }

  /** With a non-zero threshold, an unlocked empty pool whose buffers all reach it at this end of frame is released entirely. */
  lemma {:induction false} CommitAllReleasesAll(buffers: seq<IndexBufferState>, threshold: int)
    requires threshold != 0
    requires forall b :: b in buffers ==> !b.mapped && b.allocatedByteCount == 0 && b.numFramesUnused + 1 >= threshold
    ensures CommitAll(buffers, threshold) == []
    decreases |buffers|
  {
    if buffers != [] {
      assert buffers[0] in buffers;
      assert forall b :: b in buffers[1..] ==> b in buffers;
      CommitAllReleasesAll(buffers[1..], threshold);
    }
  }

  /**
   * An unlocked empty pool whose buffers have all been unused for at least unused frames is
   * empty after frames more ends of frame once unused + frames reaches the threshold.
   */
  lemma {:induction false} IdleAging(buffers: seq<IndexBufferState>, threshold: int, unused: int, frames: nat)
    requires threshold > 0 && frames >= 1 && unused + frames >= threshold
    requires forall b :: b in buffers ==> !b.mapped && b.allocatedByteCount == 0 && b.numFramesUnused >= unused
    ensures CommitRepeatedly(buffers, threshold, frames) == []
    decreases frames
  {
    if frames == 1 {
      CommitAllReleasesAll(buffers, threshold);
    } else {
      CommitAllAgesIdle(buffers, threshold, unused);
      IdleAging(CommitAll(buffers, threshold), threshold, unused + 1, frames - 1);
    }
  }

  /** A pool of index buffers of one stride. */
  class IndexBufferPool {
    var indexBuffers: seq<IndexBufferState>
    /** The position of the buffer allocations are being made from, if any. */
    var current: Option<nat>
    const bufferStride: nat

    ghost predicate Valid()
      reads this
    {
      (bufferStride == 2 || bufferStride == 4)
      && (forall b :: b in indexBuffers ==> WellFormed(b, bufferStride))
      && (current.Some? ==> current.value < |indexBuffers| && indexBuffers[current.value].mapped)
    }

    constructor(bufferStride: nat)
      requires bufferStride == 2 || bufferStride == 4
      ensures Valid() && this.bufferStride == bufferStride && indexBuffers == [] && current == None
    {
      this.bufferStride := bufferStride;
      indexBuffers := [];
      current := None;
    }

    /** Whether the current buffer exists and has room for sizeInBytes more bytes. */
    predicate CurrentFits(sizeInBytes: nat)
      requires Valid()
      reads this
    {
      current.Some? && Fits(indexBuffers[current.value], sizeInBytes)
    }

    /** Searches the buffers from the front for one with room for the request. */
    method FindFirstFit(sizeInBytes: nat) returns (fit: Option<nat>)
      ensures fit == FirstFit(indexBuffers, sizeInBytes)
    {
      fit := None;
      var bufferIndex := 0;
      while bufferIndex < |indexBuffers|
        invariant 0 <= bufferIndex <= |indexBuffers|
        invariant forall j :: 0 <= j < bufferIndex ==> !Fits(indexBuffers[j], sizeInBytes)
      {
        if Fits(indexBuffers[bufferIndex], sizeInBytes) {
          fit := Some(bufferIndex);
          break;
        }
        bufferIndex := bufferIndex + 1;
      }
      FirstFitIsFirst(indexBuffers, sizeInBytes, fit);
    }

    /** Appends a new buffer sized for the request and returns its position. */
    method AddBuffer(sizeInBytes: nat) returns (bufferIndex: nat)
      requires Valid()
      modifies this`indexBuffers
      ensures Valid() && indexBuffers == old(indexBuffers) + [NewIndexBuffer(sizeInBytes, bufferStride)]
      ensures bufferIndex == old(|indexBuffers|)
    {
      bufferIndex := |indexBuffers|;
      indexBuffers := indexBuffers + [NewIndexBuffer(sizeInBytes, bufferStride)];
    }

    /**
     * Takes numIndices indices: from the current buffer if they fit, else from the first buffer
     * with room, else from a new buffer; the chosen buffer is locked and becomes current. The
     * allocation starts where the buffer's previous allocations ended, on a whole index.
     */
    method Allocate(numIndices: nat) returns (bufferIndex: nat, firstIndex: nat)
      requires Valid()
      modifies this`indexBuffers, this`current
      ensures Valid() && current == Some(bufferIndex)
      ensures AllocatedFrom(old(indexBuffers), old(current), bufferStride, numIndices, indexBuffers, bufferIndex, firstIndex)
    {
      var size := numIndices * bufferStride;
      MultipleOfStride(numIndices, bufferStride);
      if !CurrentFits(size) {
        bufferIndex := SwitchBuffer(size);
      } else {
        bufferIndex := current.value;
      }
      firstIndex := Bump(bufferIndex, size);
    }

    /**
     * Makes the first buffer with room for the request current, or a new buffer when none has
     * room, locking it if it is not locked.
     */
    method SwitchBuffer(sizeInBytes: nat) returns (bufferIndex: nat)
      requires Valid()
      modifies this`indexBuffers, this`current
      ensures Valid() && current == Some(bufferIndex) && bufferIndex < |indexBuffers|
      ensures Fits(indexBuffers[bufferIndex], sizeInBytes)
      ensures match FirstFit(old(indexBuffers), sizeInBytes)
              case Some(k) =>
                bufferIndex == k && indexBuffers == old(indexBuffers)[k := old(indexBuffers[k]).(mapped := true)]
              case None =>
                bufferIndex == old(|indexBuffers|)
                && indexBuffers == old(indexBuffers) + [NewIndexBuffer(sizeInBytes, bufferStride).(mapped := true)]
    {
      var fit := FindFirstFit(sizeInBytes);
      if fit.Some? {
        bufferIndex := fit.value;
      } else {
        bufferIndex := AddBuffer(sizeInBytes);
      }
      ghost var before := indexBuffers;
      assert before[bufferIndex] in before;
      if !indexBuffers[bufferIndex].mapped {
        indexBuffers := indexBuffers[bufferIndex := indexBuffers[bufferIndex].(mapped := true)];
        UpdateMembers(before, bufferIndex, indexBuffers[bufferIndex]);
      } else {
        assert indexBuffers == before[bufferIndex := before[bufferIndex].(mapped := true)];
      }
      current := Some(bufferIndex);
    }

    /** Takes sizeInBytes bytes, a whole number of indices, from the locked buffer at bufferIndex; returns the first index taken. */
    method Bump(bufferIndex: nat, sizeInBytes: nat) returns (firstIndex: nat)
      requires Valid() && bufferIndex < |indexBuffers| && indexBuffers[bufferIndex].mapped
      requires Fits(indexBuffers[bufferIndex], sizeInBytes) && WholeIndices(sizeInBytes, bufferStride)
      modifies this`indexBuffers
      ensures Valid()
      ensures indexBuffers == old(indexBuffers)[bufferIndex := old(indexBuffers[bufferIndex]).(
                allocatedByteCount := old(indexBuffers[bufferIndex].allocatedByteCount) + sizeInBytes)]
      ensures firstIndex * bufferStride == old(indexBuffers[bufferIndex].allocatedByteCount)
    {
      var b := indexBuffers[bufferIndex];
      assert b in indexBuffers;
      WholeIndicesAdd(b.allocatedByteCount, sizeInBytes, bufferStride);
      firstIndex := b.allocatedByteCount / bufferStride;
      var b' := b.(allocatedByteCount := b.allocatedByteCount + sizeInBytes);
      UpdateMembers(indexBuffers, bufferIndex, b');
      indexBuffers := indexBuffers[bufferIndex := b'];
    }

    /**
     * The end of a frame for this pool: every locked buffer is unlocked, buffers unused for the
     * threshold number of frames are released, and no buffer is current. Releasing moves the last
     * buffer into the gap, so the survivors are the buffers CommitAll keeps, in some order.
     */
    method Commit(threshold: int)
      requires Valid()
      modifies this`indexBuffers, this`current
      ensures Valid() && current == None
      ensures multiset(indexBuffers) == multiset(CommitAll(old(indexBuffers), threshold))
      ensures forall b :: b in indexBuffers ==> !b.mapped && b.allocatedByteCount == 0
    {
      indexBuffers := CommitBuffers(indexBuffers, threshold, bufferStride);
      current := None;
    }
  }

  /**
   * The end-of-frame loop over a pool's buffers: visits each position once, staying at a position
   * whose buffer was released because the last buffer has moved into it.
   */
  method CommitBuffers(buffers: seq<IndexBufferState>, threshold: int, stride: nat) returns (r: seq<IndexBufferState>)
    requires (stride == 2 || stride == 4) && forall b :: b in buffers ==> WellFormed(b, stride)
    ensures multiset(r) == multiset(CommitAll(buffers, threshold))
    ensures forall b :: b in r ==> WellFormed(b, stride) && !b.mapped && b.allocatedByteCount == 0
  {
    ghost var committed := multiset(CommitAll(buffers, threshold));
    CommittingStart(buffers, threshold, stride);
    r := buffers;
    var bufferIndex := 0;
    var numBuffers := |r|;
    while bufferIndex < numBuffers
      invariant numBuffers == |r| && Committing(r, bufferIndex, threshold, stride, committed)
      decreases numBuffers - bufferIndex
    {
      var released;
      r, released := CommitAt(r, bufferIndex, threshold, stride, committed);
      if released {
        numBuffers := numBuffers - 1;
      } else {
        bufferIndex := bufferIndex + 1;
      }
    }
    CommittingDone(r, threshold, stride, committed);
  }

  /** Before any buffer is visited, what CommitAll makes of all of them is what is left to commit. */
  lemma CommittingStart(s: seq<IndexBufferState>, threshold: int, stride: nat)
    requires (stride == 2 || stride == 4) && forall b :: b in s ==> WellFormed(b, stride)
    ensures Committing(s, 0, threshold, stride, multiset(CommitAll(s, threshold)))
  {
    assert s[..0] == [] && s[0..] == s;
  }

  /** Once every buffer has been visited, the buffers are exactly the committed ones, all unlocked and empty. */
  lemma CommittingDone(s: seq<IndexBufferState>, threshold: int, stride: nat, committed: multiset<IndexBufferState>)
    requires Committing(s, |s|, threshold, stride, committed)
    ensures multiset(s) == committed
    ensures forall b :: b in s ==> WellFormed(b, stride) && !b.mapped && b.allocatedByteCount == 0
  {
    assert s[..|s|] == s;
    assert s[|s|..] == [];
    forall b | b in s ensures !b.mapped {
      var j :| 0 <= j < |s| && s[j] == b;
    }
  }

  /**
   * The visit of the buffer at index: a locked buffer is unlocked; with a non-zero threshold an
   * unlocked empty one ages by a frame and, once it reaches the threshold, is released by moving
   * the last buffer into its place, so the same position is visited next.
   */
  method CommitAt(s: seq<IndexBufferState>, index: nat, threshold: int, stride: nat, ghost committed: multiset<IndexBufferState>)
    returns (r: seq<IndexBufferState>, released: bool)
    requires Committing(s, index, threshold, stride, committed) && index < |s|
    ensures released ==> Committing(r, index, threshold, stride, committed) && |r| == |s| - 1
    ensures !released ==> Committing(r, index + 1, threshold, stride, committed) && |r| == |s|
  {
    var b := s[index];
    released := false;
    if b.mapped {
      r := UnlockAt(s, index, threshold, stride, committed);
    } else if threshold != 0 && b.allocatedByteCount == 0 {
      r, released := AgeAt(s, index, threshold, stride, committed);
    } else {
      CommitKeepStep(s, index, threshold, stride, committed, b);
      assert s[index := b] == s;
      r := s;
    }
  }

  /** Unlocks the locked buffer at index, emptying it and restarting its unused count. */
  method UnlockAt(s: seq<IndexBufferState>, index: nat, threshold: int, stride: nat, ghost committed: multiset<IndexBufferState>)
    returns (r: seq<IndexBufferState>)
    requires Committing(s, index, threshold, stride, committed) && index < |s| && s[index].mapped
    ensures Committing(r, index + 1, threshold, stride, committed) && |r| == |s|
    ensures r == s[index := s[index].(mapped := false, allocatedByteCount := 0, numFramesUnused := 0)]
  {
    var b' := s[index].(mapped := false, allocatedByteCount := 0, numFramesUnused := 0);
    CommitKeepStep(s, index, threshold, stride, committed, b');
    r := s[index := b'];
  }

  /** Counts one more unused frame for the empty buffer at index, releasing it once the count reaches the threshold. */
  method AgeAt(s: seq<IndexBufferState>, index: nat, threshold: int, stride: nat, ghost committed: multiset<IndexBufferState>)
    returns (r: seq<IndexBufferState>, released: bool)
    requires Committing(s, index, threshold, stride, committed) && index < |s|
    requires !s[index].mapped && threshold != 0 && s[index].allocatedByteCount == 0
    ensures released <==> s[index].numFramesUnused + 1 >= threshold
    ensures Committing(r, if released then index else index + 1, threshold, stride, committed)
    ensures |r| == if released then |s| - 1 else |s|
  {
    var b := s[index];
    var b' := b.(numFramesUnused := b.numFramesUnused + 1);
    r := s[index := b'];
    released := b'.numFramesUnused >= threshold;
    if released {
      CommitReleaseStep(s, index, threshold, stride, committed);
      RemoveAtSwapIgnoresGap(s, r, index);
      r := RemoveAtSwap(r, index);
    } else {
      CommitKeepStep(s, index, threshold, stride, committed, b');
    }
  }

  /**
   * The state of the end-of-frame pass over s after visiting index buffers: those are unlocked, and
   * together with what CommitAll makes of the rest they are the committed buffers.
   */
  ghost predicate Committing(s: seq<IndexBufferState>, index: nat, threshold: int, stride: nat, committed: multiset<IndexBufferState>) {
    (stride == 2 || stride == 4) && index <= |s|
    && (forall b :: b in s ==> WellFormed(b, stride))
    && (forall j :: 0 <= j < index ==> !s[j].mapped)
    && committed == multiset(s[..index]) + multiset(CommitAll(s[index..], threshold))
  }

  /** Putting what the end of a frame makes of the visited buffer in its place moves the pass on by one. */
  lemma CommitKeepStep(s: seq<IndexBufferState>, index: nat, threshold: int, stride: nat,
                       committed: multiset<IndexBufferState>, b': IndexBufferState)
    requires Committing(s, index, threshold, stride, committed) && index < |s|
    requires CommitBuffer(s[index], threshold) == Some(b')
    ensures Committing(s[index := b'], index + 1, threshold, stride, committed)
  {
    CommitKeepMembers(s, index, threshold, stride, b');
    CommitKeepCounts(s, index, threshold, committed, b');
  }

  /** The buffer put in place is well formed and unmapped, like every other member. */
  lemma CommitKeepMembers(s: seq<IndexBufferState>, index: nat, threshold: int, stride: nat, b': IndexBufferState)
    requires index < |s| && (forall b :: b in s ==> WellFormed(b, stride))
    requires forall j :: 0 <= j < index ==> !s[j].mapped
    requires CommitBuffer(s[index], threshold) == Some(b')
    ensures var s' := s[index := b'];
            (forall b :: b in s' ==> WellFormed(b, stride)) && (forall j :: 0 <= j < index + 1 ==> !s'[j].mapped)
  {
    assert s[index] in s;
    UpdateMembers(s, index, b');
  }

  /** The visited prefix gains the buffer put in place exactly as the rest of the pass loses it. */
  lemma CommitKeepCounts(s: seq<IndexBufferState>, index: nat, threshold: int,
                         committed: multiset<IndexBufferState>, b': IndexBufferState)
    requires index < |s| && committed == multiset(s[..index]) + multiset(CommitAll(s[index..], threshold))
    requires CommitBuffer(s[index], threshold) == Some(b')
    ensures var s' := s[index := b'];
            committed == multiset(s'[..index + 1]) + multiset(CommitAll(s'[index + 1..], threshold))
  {
    var s' := s[index := b'];
    CommitFirst(s[index..], threshold);
    assert s[index..][1..] == s[index + 1..] == s'[index + 1..];
    assert s'[..index + 1] == s[..index] + [b'];
  }

  /** The end-of-frame survivors of a non-empty list: what becomes of its first buffer, then the rest's. */
  lemma CommitFirst(s: seq<IndexBufferState>, threshold: int)
    requires s != []
    ensures CommitBuffer(s[0], threshold).Some? ==>
              CommitAll(s, threshold) == [CommitBuffer(s[0], threshold).value] + CommitAll(s[1..], threshold)
    ensures CommitBuffer(s[0], threshold).None? ==> CommitAll(s, threshold) == CommitAll(s[1..], threshold)
  {
  }

  /** Swap-removing a visited buffer that the end of a frame releases leaves the pass at the same position. */
  lemma CommitReleaseStep(s: seq<IndexBufferState>, index: nat, threshold: int, stride: nat, committed: multiset<IndexBufferState>)
    requires Committing(s, index, threshold, stride, committed) && index < |s|
    requires CommitBuffer(s[index], threshold).None?
    ensures Committing(RemoveAtSwap(s, index), index, threshold, stride, committed)
  {
    ReleaseKeepsCommitted(s, s, index, threshold);
    var r := RemoveAtSwap(s, index);
    forall j | 0 <= j < index ensures !r[j].mapped {
      assert r[j] == r[..index][j];
    }
  }

  lemma MultipleOfStride(n: nat, stride: nat)
    requires stride == 2 || stride == 4
    ensures WholeIndices(n * stride, stride)
  {
    if stride == 2 {
      assert n * stride == n * 2;
    } else {
      assert n * stride == n * 4;
    }
  }

  /** A position with no fitting buffer before it and a fitting one at it (or none at all) is what FirstFit finds. */
  lemma {:induction false} FirstFitIsFirst(buffers: seq<IndexBufferState>, sizeInBytes: nat, fit: Option<nat>)
    requires fit.Some? ==> fit.value < |buffers| && Fits(buffers[fit.value], sizeInBytes)
    requires forall j :: 0 <= j < (if fit.Some? then fit.value else |buffers|) ==> !Fits(buffers[j], sizeInBytes)
    ensures fit == FirstFit(buffers, sizeInBytes)
    decreases |buffers|
  {
    if buffers != [] && fit != Some(0) {
      var fit' := if fit.Some? then Some(fit.value - 1) else None;
      forall j | 0 <= j < (if fit'.Some? then fit'.value else |buffers[1..]|) ensures !Fits(buffers[1..][j], sizeInBytes) {
        assert buffers[1..][j] == buffers[j + 1];
      }
      FirstFitIsFirst(buffers[1..], sizeInBytes, fit');
    }
  }

  /** Committing two runs of buffers in either order leaves the same survivors. */
  lemma CommitAllSwapped(a: seq<IndexBufferState>, b: seq<IndexBufferState>, threshold: int)
    ensures multiset(CommitAll(a + b, threshold)) == multiset(CommitAll(b + a, threshold))
  {
    CommitAllConcat(a, b, threshold);
    CommitAllConcat(b, a, threshold);
    var ca, cb := CommitAll(a, threshold), CommitAll(b, threshold);
    assert multiset(ca + cb) == multiset(cb + ca);
  }

  /**
   * Releasing the buffer at index by moving the last one into its place leaves the same
   * end-of-frame survivors still to come.
   */
  lemma ReleaseKeepsCommitted(s: seq<IndexBufferState>, before: seq<IndexBufferState>, index: nat, threshold: int)
    requires index < |s| == |before| && s[..index] == before[..index] && s[index + 1..] == before[index + 1..]
    requires CommitBuffer(before[index], threshold).None?
    ensures RemoveAtSwap(s, index)[..index] == before[..index]
    ensures multiset(CommitAll(RemoveAtSwap(s, index)[index..], threshold)) == multiset(CommitAll(before[index..], threshold))
  {
    var r := RemoveAtSwap(s, index);
    var last := |s| - 1;
    assert before[index..] == [before[index]] + before[index + 1..];
    assert CommitAll(before[index..], threshold) == CommitAll(before[index + 1..], threshold);
    if index < last {
      var moved, middle := [s[last]], s[index + 1..last];
      assert r[index..] == moved + middle;
      assert before[index + 1..] == middle + moved;
      CommitAllSwapped(moved, middle, threshold);
    } else {
      assert r[index..] == [];
      assert before[index + 1..] == [];
    }
  }

  /** The result of an index allocation: empty for an unsupported stride. */
  datatype IndexAllocation =
    | EmptyAllocation
    | IndexAllocation(wide: bool, bufferIndex: nat, firstIndex: nat)

  /** The two pools: 16-bit indices and 32-bit indices. */
  class GlobalDynamicIndexBuffer {
    const pool16: IndexBufferPool
    const pool32: IndexBufferPool

    ghost predicate Valid()
      reads this, pool16, pool32
    {
      pool16 != pool32 && pool16.Valid() && pool32.Valid()
      && pool16.bufferStride == 2 && pool32.bufferStride == 4
    }

    constructor()
      ensures Valid() && fresh(pool16) && fresh(pool32)
      ensures pool16.indexBuffers == [] && pool32.indexBuffers == []
    {
      pool16 := new IndexBufferPool(2);
      pool32 := new IndexBufferPool(4);
    }

    /** The pool a stride is served from: stride 2 (2 / 4 == 0) by the 16-bit pool, 4 (4 / 4 == 1) by the 32-bit pool. */
    function PoolFor(indexStride: nat): (p: IndexBufferPool)
      requires Valid() && (indexStride == 2 || indexStride == 4)
      reads this, pool16, pool32
      ensures p.bufferStride == indexStride
    {
      if indexStride / 4 == 0 then pool16 else pool32
    }

    /**
     * Allocates numIndices indices of indexStride bytes each from the pool of that width; any
     * stride other than 2 or 4 yields an empty allocation and changes nothing.
     */
    method Allocate(numIndices: nat, indexStride: nat) returns (a: IndexAllocation)
      requires Valid()
      modifies pool16`indexBuffers, pool16`current, pool32`indexBuffers, pool32`current
      ensures Valid()
      ensures indexStride != 2 && indexStride != 4 ==>
                a == EmptyAllocation
                && pool16.indexBuffers == old(pool16.indexBuffers) && pool16.current == old(pool16.current)
                && pool32.indexBuffers == old(pool32.indexBuffers) && pool32.current == old(pool32.current)
      ensures indexStride == 2 || indexStride == 4 ==>
                a.IndexAllocation? && a.wide == (indexStride == 4)
                && (var p := PoolFor(indexStride);
                    p.current == Some(a.bufferIndex) && a.bufferIndex < |p.indexBuffers|
                    && p.indexBuffers[a.bufferIndex].mapped
                    && p.indexBuffers[a.bufferIndex].allocatedByteCount == (a.firstIndex + numIndices) * indexStride
                    && Fits(p.indexBuffers[a.bufferIndex], 0)
                    && AllocatedFrom(old(p.indexBuffers), old(p.current), indexStride, numIndices,
                                     p.indexBuffers, a.bufferIndex, a.firstIndex))
      ensures indexStride == 2 ==> pool32.indexBuffers == old(pool32.indexBuffers) && pool32.current == old(pool32.current)
      ensures indexStride == 4 ==> pool16.indexBuffers == old(pool16.indexBuffers) && pool16.current == old(pool16.current)
    {
      if indexStride != 2 && indexStride != 4 {
        return EmptyAllocation;
      }
      var pool := PoolFor(indexStride);
      var bufferIndex, firstIndex := pool.Allocate(numIndices);
      a := IndexAllocation(indexStride == 4, bufferIndex, firstIndex);
    }

    /** The end of a frame for both pools. */
    method Commit(threshold: int)
      requires Valid()
      modifies pool16`indexBuffers, pool16`current, pool32`indexBuffers, pool32`current
      ensures Valid() && pool16.current == None && pool32.current == None
      ensures multiset(pool16.indexBuffers) == multiset(CommitAll(old(pool16.indexBuffers), threshold))
      ensures multiset(pool32.indexBuffers) == multiset(CommitAll(old(pool32.indexBuffers), threshold))
    {
      pool16.Commit(threshold);
      pool32.Commit(threshold);
    }
  }
}
