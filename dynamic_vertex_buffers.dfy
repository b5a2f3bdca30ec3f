/**
 * Sizing shared by the transient vertex and index buffers of the renderer, and the two
 * console variables that age them out and raise the allocation alarm.
 */
module DynamicBuffers {
  /** Every dynamic buffer is a whole number of 64 KB blocks. */
  const BufferAlignment: nat := 65536
  /** The smallest request the vertex buffer pool serves. */
  const MinimumBufferSize: nat := 65536
  /** Default number of unused frames after which a buffer is released. */
  const DefaultFramesUnusedThreshold: int := 30
  /** Default byte total above which vertex allocations are reported. */
  const DefaultMaxVertexBytesAllocatedPerFrame: int := 32 * 1024 * 1024

  /** n rounded up to a whole number of 64 KB blocks. */
  function Align(n: nat): (r: nat)
    ensures r % BufferAlignment == 0 && n <= r < n + BufferAlignment
  {
    (n + BufferAlignment - 1) / BufferAlignment * BufferAlignment
  }

  /** The size a dynamic buffer gets for a request: the request rounded up to 64 KB, and never less than 64 KB. */
  function DynamicBufferSize(minSize: nat): (s: nat)
    ensures s % BufferAlignment == 0 && s >= minSize && s >= BufferAlignment
  {
    var a := Align(minSize);
    if a > BufferAlignment then a else BufferAlignment
  }

  /** No smaller multiple of 64 KB serves the request: the size is the least one that is at least the request and 64 KB. */
  lemma DynamicBufferSizeIsLeast(minSize: nat, m: nat)
    requires m % BufferAlignment == 0 && m >= minSize && m >= BufferAlignment
    ensures DynamicBufferSize(minSize) <= m
  {
    var a := Align(minSize);
    if a > m {
      assert m / BufferAlignment * BufferAlignment == m;
      assert a / BufferAlignment * BufferAlignment == a;
      assert m < minSize + BufferAlignment - BufferAlignment + BufferAlignment;
    }
  }
}

/**
 * The pool of transient vertex buffers and the per-frame bump allocator that draws from it.
 * Buffers are handles into the pool's table; a buffer is live from its creation until garbage
 * collection deletes it, free when it may be handed out again, and reclaimed between being
 * given back and the next collection.
 */
module DynamicVertexBuffers {
  import opened Wrappers
  import opened Sequences
  import opened DynamicBuffers

  type BufferId = nat

  datatype VertexBufferState = VertexBufferState(bufferSize: nat, allocatedByteCount: nat, mapped: bool, lastUsedFrame: nat)

  /** A buffer that is not locked for writing and has nothing allocated from it. */
  predicate Idle(b: VertexBufferState) { !b.mapped && b.allocatedByteCount == 0 }

  predicate WellFormed(b: VertexBufferState) {
    b.bufferSize % BufferAlignment == 0 && b.bufferSize >= BufferAlignment
    && b.allocatedByteCount <= b.bufferSize && (!b.mapped ==> b.allocatedByteCount == 0)
  }

  /** Collection deletes a buffer unused for threshold frames; a threshold of 0 or less disables it. */
  predicate Expired(b: VertexBufferState, threshold: int, frameCounter: nat) {
    threshold > 0 && b.lastUsedFrame + threshold <= frameCounter
  }

  function ExpiredIds(buffers: map<BufferId, VertexBufferState>, threshold: int, frameCounter: nat): set<BufferId> {
    set id | id in buffers && Expired(buffers[id], threshold, frameCounter)
  }

  function SumSizes(ids: seq<BufferId>, buffers: map<BufferId, VertexBufferState>): nat
    requires forall id :: id in ids ==> id in buffers
  {
    if ids == [] then 0 else buffers[ids[0]].bufferSize + SumSizes(ids[1..], buffers)
  }

  lemma {:induction false} SumSizesConcat(a: seq<BufferId>, b: seq<BufferId>, buffers: map<BufferId, VertexBufferState>)
    requires forall id :: id in a + b ==> id in buffers
    ensures SumSizes(a + b, buffers) == SumSizes(a, buffers) + SumSizes(b, buffers)
    decreases |a|
  {
    if a == [] {
      assert a + b == b;
    } else {
      assert (a + b)[0] == a[0] && (a + b)[1..] == a[1..] + b;
      SumSizesConcat(a[1..], b, buffers);
    }
  }

  /** The total only depends on the sizes of the listed buffers. */
  lemma {:induction false} SumSizesSameSizes(ids: seq<BufferId>, m1: map<BufferId, VertexBufferState>, m2: map<BufferId, VertexBufferState>)
    requires forall id :: id in ids ==> id in m1 && id in m2 && m1[id].bufferSize == m2[id].bufferSize
    ensures SumSizes(ids, m1) == SumSizes(ids, m2)
    decreases |ids|
  {
    if ids != [] {
      SumSizesSameSizes(ids[1..], m1, m2);
    }
  }

  /** Deleting an entry of a list of distinct buffers, and the buffer from the table, takes its size off the total. */
  lemma SumSizesRemoveAt(l: seq<BufferId>, index: nat, m: map<BufferId, VertexBufferState>)
    requires index < |l| && Distinct(l) && forall id :: id in l ==> id in m
    ensures forall id :: id in RemoveAt(l, index) ==> id in m - {l[index]}
    ensures SumSizes(RemoveAt(l, index), m - {l[index]}) == SumSizes(l, m) - m[l[index]].bufferSize
  {
    var id := l[index];
    RemoveAtDistinct(l, index);
    assert l == l[..index] + [id] + l[index + 1..];
    SumSizesConcat(l[..index] + [id], l[index + 1..], m);
    SumSizesConcat(l[..index], [id], m);
    SumSizesConcat(l[..index], l[index + 1..], m);
    SumSizesSameSizes(RemoveAt(l, index), m, m - {id});
  }

  /**
   * The free-list position Acquire takes: the topmost (last) buffer large enough for the request,
   * so recently reclaimed buffers are handed out first; None when no free buffer is large enough.
   */
  function TopmostFit(free: seq<BufferId>, buffers: map<BufferId, VertexBufferState>, size: nat): (r: Option<nat>)
    requires forall id :: id in free ==> id in buffers
    ensures r.Some? ==> r.value < |free| && buffers[free[r.value]].bufferSize >= size
    ensures r.Some? ==> forall j :: r.value < j < |free| ==> buffers[free[j]].bufferSize < size
    ensures r.None? ==> forall j :: 0 <= j < |free| ==> buffers[free[j]].bufferSize < size
  {
    if free == [] then None
    else if buffers[free[|free| - 1]].bufferSize >= size then Some(|free| - 1)
    else TopmostFit(free[..|free| - 1], buffers, size)
  }

  /** The live list a collection pass leaves as written: after a removal the next buffer moves into the visited slot and is passed over. */
  function SweepAsWritten(live: seq<BufferId>, expired: set<BufferId>): (r: seq<BufferId>)
    ensures forall x :: x in r ==> x in live
  {
    if live == [] then []
    else if live[0] !in expired then [live[0]] + SweepAsWritten(live[1..], expired)
    else if |live| == 1 then []
    else [live[1]] + SweepAsWritten(live[2..], expired)
  }

  /** Two neighbouring expired buffers: the pass as written deletes the first and keeps the second alive. */
  lemma SweepAsWrittenKeepsExpiredNeighbour()
    ensures SweepAsWritten([7, 8], {7, 8}) == [8]
    ensures exists x :: x in SweepAsWritten([7, 8], {7, 8}) && x in {7, 8}
  {
    assert [7, 8][1..] == [8];
    assert [7, 8][2..] == [];
    assert 8 in SweepAsWritten([7, 8], {7, 8});
  }

  /**
   * The state of a collection pass over the live list that has visited index entries: the entries
   * before index stay, every expired buffer has been deleted or is still ahead, and the deleted
   * ones are gone from the table and the free list.
   */
  ghost predicate Swept(live: seq<BufferId>, m: map<BufferId, VertexBufferState>, free: seq<BufferId>, index: nat,
                        expired: set<BufferId>, live0: seq<BufferId>, b0: map<BufferId, VertexBufferState>,
                        free0: seq<BufferId>, removed: set<BufferId>)
  {
    index <= |live|
    && Without(live0, expired) == live[..index] + Without(live[index..], expired)
    && (forall j :: 0 <= j < index ==> live[j] !in expired)
    && removed <= expired && m == b0 - removed
    && (forall x :: x in expired ==> x in removed || x in live[index..])
    && free == Without(free0, removed)
  }

  /** Passing over a buffer that has not expired moves the pass on by one. */
  lemma SweptSkip(live: seq<BufferId>, m: map<BufferId, VertexBufferState>, free: seq<BufferId>, index: nat,
                  expired: set<BufferId>, live0: seq<BufferId>, b0: map<BufferId, VertexBufferState>,
                  free0: seq<BufferId>, removed: set<BufferId>)
    requires Swept(live, m, free, index, expired, live0, b0, free0, removed) && index < |live| && live[index] !in expired
    ensures Swept(live, m, free, index + 1, expired, live0, b0, free0, removed)
  {
    var id := live[index];
    WithoutSkip(live, index, expired);
    forall x | x in expired && x !in removed ensures x in live[index + 1..] {
      var k :| 0 <= k < |live[index..]| && live[index..][k] == x;
      assert live[index + 1..][k - 1] == x;
    }
  }

  /** Deleting an expired buffer at index from the live list, the table and the free list keeps the pass at index. */
  lemma SweptRemove(live: seq<BufferId>, m: map<BufferId, VertexBufferState>, free: seq<BufferId>, index: nat,
                    expired: set<BufferId>, live0: seq<BufferId>, b0: map<BufferId, VertexBufferState>,
                    free0: seq<BufferId>, removed: set<BufferId>)
    requires Swept(live, m, free, index, expired, live0, b0, free0, removed) && index < |live| && live[index] in expired
    ensures Swept(RemoveAt(live, index), m - {live[index]}, Without(free, {live[index]}), index,
                  expired, live0, b0, free0, removed + {live[index]})
  {
    var id := live[index];
    var l := RemoveAt(live, index);
    var removed' := removed + {id};
    WithoutTwice(free0, removed, {id});
    assert Without(free, {id}) == Without(free0, removed');
    assert m - {id} == b0 - removed';
    WithoutRemoveAt(live, index, expired);
    assert Without(live0, expired) == l[..index] + Without(l[index..], expired);
    ExpiredStillAhead(live, index, expired, removed);
    assert forall j :: 0 <= j < index ==> l[j] == l[..index][j] == live[j];
  }

  /** Every expired buffer not yet deleted is still ahead of the pass once the one at index is deleted. */
  lemma ExpiredStillAhead(live: seq<BufferId>, index: nat, expired: set<BufferId>, removed: set<BufferId>)
    requires index < |live|
    requires forall x :: x in expired ==> x in removed || x in live[index..]
    ensures forall x :: x in expired ==> x in removed + {live[index]} || x in RemoveAt(live, index)[index..]
  {
    forall x | x in expired && x !in removed + {live[index]} ensures x in RemoveAt(live, index)[index..] {
      var k :| 0 <= k < |live[index..]| && live[index..][k] == x;
      assert live[index + 1..][k - 1] == x;
    }
  }

  /** Unlocks each listed buffer in turn: it is no longer mapped and holds no allocation. */
  method UnlockAll(ids: seq<BufferId>, b0: map<BufferId, VertexBufferState>) returns (m: map<BufferId, VertexBufferState>)
    requires Distinct(ids) && forall id :: id in ids ==> id in b0
    ensures m.Keys == b0.Keys
    ensures forall id :: id in ids ==> m[id] == b0[id].(mapped := false, allocatedByteCount := 0)
    ensures forall id :: id in b0 && id !in ids ==> m[id] == b0[id]
  {
    m := b0;
    for i := 0 to |ids|
      invariant m.Keys == b0.Keys
      invariant forall id :: id in ids[..i] ==> m[id] == b0[id].(mapped := false, allocatedByteCount := 0)
      invariant forall id :: id in b0 && id !in ids[..i] ==> m[id] == b0[id]
    {
      assert ids[i] !in ids[..i] by {
        forall j | 0 <= j < i ensures ids[..i][j] != ids[i] {
          assert ids[..i][j] == ids[j];
        }
      }
      m := m[ids[i] := m[ids[i]].(mapped := false, allocatedByteCount := 0)];
      assert ids[..i + 1] == ids[..i] + [ids[i]];
    }
    assert ids[..|ids|] == ids;
  }

  /**
   * The pool's invariant: every live buffer is listed once; the free and reclaim lists hold distinct,
   * idle, live buffers and share none; handles are below the next one; and the memory total is the
   * sum of the live buffers' sizes.
   */
  ghost predicate PoolValid(buffers: map<BufferId, VertexBufferState>, liveList: seq<BufferId>, freeList: seq<BufferId>,
                            reclaimList: seq<BufferId>, totalAllocatedMemory: int, nextId: BufferId)
  {
    Distinct(liveList) && (forall id :: id in liveList <==> id in buffers)
    && Distinct(freeList) && Distinct(reclaimList) && (forall id :: id in freeList ==> id !in reclaimList)
    && (forall id :: id in freeList ==> id in buffers && Idle(buffers[id]))
    && (forall id :: id in reclaimList ==> id in buffers && Idle(buffers[id]))
    && (forall id :: id in buffers ==> id < nextId && WellFormed(buffers[id]))
    && totalAllocatedMemory == SumSizes(liveList, buffers)
  }

  /** Locking and stamping an idle buffer that is on neither idle list keeps the invariant. */
  lemma StampKeepsPool(buffers: map<BufferId, VertexBufferState>, liveList: seq<BufferId>, freeList: seq<BufferId>,
                       reclaimList: seq<BufferId>, totalAllocatedMemory: int, nextId: BufferId,
                       id: BufferId, frameCounter: nat)
    requires PoolValid(buffers, liveList, freeList, reclaimList, totalAllocatedMemory, nextId)
    requires id in buffers && Idle(buffers[id]) && id !in freeList && id !in reclaimList
    ensures PoolValid(buffers[id := buffers[id].(mapped := true, lastUsedFrame := frameCounter)],
                      liveList, freeList, reclaimList, totalAllocatedMemory, nextId)
  {
    SumSizesSameSizes(liveList, buffers, buffers[id := buffers[id].(mapped := true, lastUsedFrame := frameCounter)]);
  }

  /** Adding a well-formed buffer under the next handle, at the end of the live list, keeps the invariant. */
  lemma CreateKeepsPool(buffers: map<BufferId, VertexBufferState>, liveList: seq<BufferId>, freeList: seq<BufferId>,
                        reclaimList: seq<BufferId>, totalAllocatedMemory: int, nextId: BufferId, b: VertexBufferState)
    requires PoolValid(buffers, liveList, freeList, reclaimList, totalAllocatedMemory, nextId) && WellFormed(b)
    ensures nextId !in buffers
    ensures PoolValid(buffers[nextId := b], liveList + [nextId], freeList, reclaimList,
                      totalAllocatedMemory + b.bufferSize, nextId + 1)
  {
    var m := buffers[nextId := b];
    SumSizesSameSizes(liveList, buffers, m);
    SumSizesConcat(liveList, [nextId], m);
    assert SumSizes([nextId], m) == b.bufferSize;
    DistinctConcat(liveList, [nextId]);
  }

  /** The buffers once size more bytes of buffer id are counted as allocated. */
  function Bumped(buffers: map<BufferId, VertexBufferState>, id: BufferId, size: nat): (r: map<BufferId, VertexBufferState>)
    requires id in buffers
    ensures r.Keys == buffers.Keys && r[id].allocatedByteCount == buffers[id].allocatedByteCount + size
    ensures forall x :: x in buffers && x != id ==> r[x] == buffers[x]
  {
    buffers[id := buffers[id].(allocatedByteCount := buffers[id].allocatedByteCount + size)]
  }

  /**
   * What acquiring a buffer for a request of sizeInBytes does to a pool, the acquired buffer `id` ending
   * with `used` bytes allocated: the topmost free buffer of at least max(sizeInBytes, 64 KB) bytes leaves
   * the free list; when none is large enough, a buffer of the dynamic size is created under the next
   * handle and joins the live list and the memory total. The buffer is locked and stamped with the frame,
   * and no other buffer changes.
   */
  ghost predicate AcquiredFrom(buffers0: map<BufferId, VertexBufferState>, live0: seq<BufferId>, free0: seq<BufferId>,
                               total0: int, next0: BufferId, sizeInBytes: nat, frameCounter: nat, used: nat,
                               buffers: map<BufferId, VertexBufferState>, live: seq<BufferId>, free: seq<BufferId>,
                               total: int, next: BufferId, id: BufferId)
    requires forall x :: x in free0 ==> x in buffers0
  {
    var size := if sizeInBytes > MinimumBufferSize then sizeInBytes else MinimumBufferSize;
    match TopmostFit(free0, buffers0, size)
    case Some(i) =>
      id == free0[i] && free == RemoveAt(free0, i) && live == live0 && total == total0 && next == next0
      && buffers == buffers0[id := buffers0[id].(mapped := true, lastUsedFrame := frameCounter, allocatedByteCount := used)]
    case None =>
      id == next0 && id !in buffers0 && free == free0 && live == live0 + [id]
      && total == total0 + DynamicBufferSize(size) && next == next0 + 1
      && buffers == buffers0[id := VertexBufferState(DynamicBufferSize(size), used, true, frameCounter)]
  }

  /** Allocating from the acquired buffer, whose count starts at 0, only changes the count it ends with. */
  lemma AcquiredThenBumped(buffers0: map<BufferId, VertexBufferState>, live0: seq<BufferId>, free0: seq<BufferId>,
                           total0: int, next0: BufferId, sizeInBytes: nat, frameCounter: nat, used: nat,
                           buffers: map<BufferId, VertexBufferState>, live: seq<BufferId>, free: seq<BufferId>,
                           total: int, next: BufferId, id: BufferId, bumped: map<BufferId, VertexBufferState>)
    requires forall x :: x in free0 ==> x in buffers0 && Idle(buffers0[x])
    requires AcquiredFrom(buffers0, live0, free0, total0, next0, sizeInBytes, frameCounter, 0, buffers, live, free, total, next, id)
    requires id in buffers && bumped == Bumped(buffers, id, used)
    ensures AcquiredFrom(buffers0, live0, free0, total0, next0, sizeInBytes, frameCounter, used, bumped, live, free, total, next, id)
  {
  }

  class VertexBufferPool {
    /** Every live buffer by handle. */
    var buffers: map<BufferId, VertexBufferState>
    var liveList: seq<BufferId>
    var freeList: seq<BufferId>
    var reclaimList: seq<BufferId>
    var totalAllocatedMemory: int
    /** The next unused handle. */
    var nextId: BufferId

    ghost predicate Valid()
      reads this
    {
      PoolValid(buffers, liveList, freeList, reclaimList, totalAllocatedMemory, nextId)
    }

    constructor()
      ensures Valid() && buffers == map[] && liveList == [] && freeList == [] && reclaimList == [] && totalAllocatedMemory == 0
    {
      buffers := map[];
      liveList := [];
      freeList := [];
      reclaimList := [];
      totalAllocatedMemory := 0;
      nextId := 0;
    }

    /** Whether a vertex allocation is reported: the live buffers reach the per-frame limit, when a limit is set. */
    predicate IsRenderAlarmLoggingEnabled(maxBytesPerFrame: int)
      reads this
    {
      maxBytesPerFrame > 0 && totalAllocatedMemory >= maxBytesPerFrame
    }

    /** The alarm measures the bytes held by live buffers, so releasing buffers can silence it. */
    lemma AlarmCountsLiveBuffers(maxBytesPerFrame: int)
      requires Valid()
      ensures IsRenderAlarmLoggingEnabled(maxBytesPerFrame) <==> maxBytesPerFrame > 0 && SumSizes(liveList, buffers) >= maxBytesPerFrame
    {
    }

    method Lock(id: BufferId)
      requires id in buffers && Idle(buffers[id])
      modifies this`buffers
      ensures buffers == old(buffers)[id := old(buffers[id]).(mapped := true)]
    {
      buffers := buffers[id := buffers[id].(mapped := true)];
    }

    method Unlock(id: BufferId)
      requires id in buffers && buffers[id].mapped
      modifies this`buffers
      ensures buffers == old(buffers)[id := old(buffers[id]).(mapped := false, allocatedByteCount := 0)]
    {
      buffers := buffers[id := buffers[id].(mapped := false, allocatedByteCount := 0)];
    }

    /** Takes the free buffer at index off the free list. */
    method TakeFree(index: nat) returns (id: BufferId)
      requires Valid() && index < |freeList|
      modifies this`freeList
      ensures Valid()
      ensures id == old(freeList)[index] && freeList == RemoveAt(old(freeList), index)
      ensures id in buffers && Idle(buffers[id]) && id !in freeList && id !in reclaimList
    {
      id := freeList[index];
      RemoveAtDistinct(freeList, index);
      freeList := RemoveAt(freeList, index);
    }

    /** Creates a buffer for a request, adds it to the live list and its size to the memory total. */
    method CreateBuffer(size: nat) returns (id: BufferId)
      requires Valid()
      modifies this`buffers, this`liveList, this`totalAllocatedMemory, this`nextId
      ensures Valid()
      ensures id !in old(buffers) && buffers == old(buffers)[id := VertexBufferState(DynamicBufferSize(size), 0, false, 0)]
      ensures liveList == old(liveList) + [id]
      ensures totalAllocatedMemory == old(totalAllocatedMemory) + DynamicBufferSize(size)
      ensures id == old(nextId) && nextId == old(nextId) + 1
      ensures id !in freeList && id !in reclaimList
    {
      id := nextId;
      var b := VertexBufferState(DynamicBufferSize(size), 0, false, 0);
      CreateKeepsPool(buffers, liveList, freeList, reclaimList, totalAllocatedMemory, nextId, b);
      buffers, liveList, totalAllocatedMemory, nextId := buffers[id := b], liveList + [id], totalAllocatedMemory + b.bufferSize, nextId + 1;
    }

    /** Searches the free list from the top for a buffer of at least size bytes. */
    method FindTopmostFit(size: nat) returns (fit: Option<nat>)
      requires Valid()
      ensures fit == TopmostFit(freeList, buffers, size)
    {
      var index := |freeList| - 1;
      while index >= 0
        invariant -1 <= index < |freeList|
        invariant forall j :: index < j < |freeList| ==> buffers[freeList[j]].bufferSize < size
      {
        if size <= buffers[freeList[index]].bufferSize {
          return Some(index);
        }
        index := index - 1;
      }
      return None;
    }

    /**
     * Hands out a locked buffer of at least max(sizeInBytes, 64 KB) bytes, stamped with the frame:
     * the topmost large-enough free buffer, or else a new buffer that joins the live list and the
     * memory total.
     */
    method Acquire(sizeInBytes: nat, frameCounter: nat) returns (id: BufferId)
      requires Valid()
      modifies this`buffers, this`liveList, this`freeList, this`totalAllocatedMemory, this`nextId
      ensures Valid()
      ensures AcquiredFrom(old(buffers), old(liveList), old(freeList), old(totalAllocatedMemory), old(nextId), sizeInBytes, frameCounter, 0,
                           buffers, liveList, freeList, totalAllocatedMemory, nextId, id)
      ensures id in buffers && buffers[id].bufferSize >= sizeInBytes
      ensures buffers[id].mapped && buffers[id].allocatedByteCount == 0 && buffers[id].lastUsedFrame == frameCounter
      ensures forall other :: other in old(buffers) && other != id ==> other in buffers && buffers[other] == old(buffers[other])
      ensures id in old(buffers) ==> Idle(old(buffers[id]))
      ensures reclaimList == old(reclaimList)
    {
      var size := if sizeInBytes > MinimumBufferSize then sizeInBytes else MinimumBufferSize;
      var fit := FindTopmostFit(size);
      if fit.Some? {
        id := AcquireFree(fit.value, frameCounter);
      } else {
        id := AcquireNew(size, frameCounter);
      }
    }

    /** The path of Acquire that reuses the free buffer at index. */
    method AcquireFree(index: nat, frameCounter: nat) returns (id: BufferId)
      requires Valid() && index < |freeList|
      modifies this`buffers, this`freeList
      ensures Valid()
      ensures id == old(freeList)[index] && freeList == RemoveAt(old(freeList), index)
      ensures id in old(buffers) && Idle(old(buffers[id]))
      ensures buffers == old(buffers)[id := old(buffers[id]).(mapped := true, lastUsedFrame := frameCounter)]
      ensures buffers.Keys == old(buffers).Keys && buffers[id].bufferSize == old(buffers[id].bufferSize)
      ensures buffers[id].mapped && buffers[id].allocatedByteCount == 0 && buffers[id].lastUsedFrame == frameCounter
      ensures forall other :: other in old(buffers) && other != id ==> other in buffers && buffers[other] == old(buffers[other])
    {
      id := TakeFree(index);
      Stamp(id, frameCounter);
    }

    /** The path of Acquire that creates a buffer for a request of size bytes. */
    method AcquireNew(size: nat, frameCounter: nat) returns (id: BufferId)
      requires Valid()
      modifies this`buffers, this`liveList, this`totalAllocatedMemory, this`nextId
      ensures Valid()
      ensures id !in old(buffers) && buffers == old(buffers)[id := VertexBufferState(DynamicBufferSize(size), 0, true, frameCounter)]
      ensures liveList == old(liveList) + [id]
      ensures totalAllocatedMemory == old(totalAllocatedMemory) + DynamicBufferSize(size)
      ensures id == old(nextId) && nextId == old(nextId) + 1
      ensures buffers.Keys == old(buffers).Keys + {id} && buffers[id].bufferSize == DynamicBufferSize(size)
      ensures buffers[id].mapped && buffers[id].allocatedByteCount == 0 && buffers[id].lastUsedFrame == frameCounter
      ensures forall other :: other in old(buffers) && other != id ==> other in buffers && buffers[other] == old(buffers[other])
    {
      id := CreateBuffer(size);
      Stamp(id, frameCounter);
    }

    /** Locks an idle buffer that is on no list of idle buffers and stamps it with the frame. */
    method Stamp(id: BufferId, frameCounter: nat)
      requires Valid() && id in buffers && Idle(buffers[id]) && id !in freeList && id !in reclaimList
      modifies this`buffers
      ensures Valid()
      ensures buffers == old(buffers)[id := old(buffers[id]).(mapped := true, lastUsedFrame := frameCounter)]
    {
      ghost var stamped := buffers[id := buffers[id].(mapped := true, lastUsedFrame := frameCounter)];
      StampKeepsPool(buffers, liveList, freeList, reclaimList, totalAllocatedMemory, nextId, id, frameCounter);
      Lock(id);
      buffers := buffers[id := buffers[id].(lastUsedFrame := frameCounter)];
      assert buffers == stamped;
    }

    /** Adds size bytes to what a locked buffer has allocated, when they fit. */
    method Bump(id: BufferId, size: nat)
      requires Valid() && id in buffers && buffers[id].mapped
      requires buffers[id].allocatedByteCount + size <= buffers[id].bufferSize
      modifies this`buffers
      ensures Valid()
      ensures buffers == Bumped(old(buffers), id, size)
    {
      ghost var before := buffers;
      buffers := buffers[id := buffers[id].(allocatedByteCount := buffers[id].allocatedByteCount + size)];
      SumSizesSameSizes(liveList, before, buffers);
    }

    /** Unlocks the given buffers, all in use, and queues them for the next collection. */
    method Forfeit(ids: seq<BufferId>)
      requires Valid() && Distinct(ids)
      requires forall id :: id in ids ==> id in buffers && buffers[id].mapped
      modifies this`buffers, this`reclaimList
      ensures Valid()
      ensures reclaimList == old(reclaimList) + ids
      ensures buffers.Keys == old(buffers).Keys
      ensures forall id :: id in ids ==> buffers[id] == old(buffers[id]).(mapped := false, allocatedByteCount := 0)
      ensures forall id :: id in old(buffers) && id !in ids ==> buffers[id] == old(buffers[id])
    {
      ghost var b0 := buffers;
      var m := UnlockAll(ids, buffers);
      ForfeitKeepsSums(ids, b0, m);
      buffers := m;
      reclaimList := reclaimList + ids;
    }

    /** Unlocking buffers in use changes no size and makes them idle, so they may join the reclaim list. */
    lemma ForfeitKeepsSums(ids: seq<BufferId>, b0: map<BufferId, VertexBufferState>, m: map<BufferId, VertexBufferState>)
      requires Valid() && buffers == b0 && m.Keys == b0.Keys && Distinct(ids)
      requires forall id :: id in ids ==> id in b0 && b0[id].mapped && m[id] == b0[id].(mapped := false, allocatedByteCount := 0)
      requires forall id :: id in b0 && id !in ids ==> m[id] == b0[id]
      ensures PoolValid(m, liveList, freeList, reclaimList + ids, totalAllocatedMemory, nextId)
    {
      SumSizesSameSizes(liveList, b0, m);
      DistinctConcat(reclaimList, ids);
    }

    /** Makes every reclaimed buffer free again. */
    method ReclaimAll()
      requires Valid()
      modifies this`freeList, this`reclaimList
      ensures Valid() && freeList == old(freeList) + old(reclaimList) && reclaimList == []
    {
      DistinctConcat(freeList, reclaimList);
      freeList := freeList + reclaimList;
      reclaimList := [];
    }

    /** Deletes the live buffer at index: off the live and free lists, out of the table and the memory total. */
    method DeleteLive(index: nat)
      requires Valid() && reclaimList == [] && index < |liveList|
      modifies this`buffers, this`liveList, this`freeList, this`totalAllocatedMemory
      ensures Valid() && reclaimList == []
      ensures liveList == RemoveAt(old(liveList), index)
      ensures freeList == Without(old(freeList), {old(liveList)[index]})
      ensures buffers == old(buffers) - {old(liveList)[index]}
    {
      var id := liveList[index];
      RemoveAtDistinct(liveList, index);
      SumSizesRemoveAt(liveList, index, buffers);
      totalAllocatedMemory := totalAllocatedMemory - buffers[id].bufferSize;
      liveList := RemoveAt(liveList, index);
      WithoutDistinct(freeList, {id});
      freeList := Without(freeList, {id});
      buffers := buffers - {id};
    }

    ghost predicate Sweeping(index: nat, expired: set<BufferId>, live0: seq<BufferId>, b0: map<BufferId, VertexBufferState>,
                             free0: seq<BufferId>, removed: set<BufferId>)
      reads this
    {
      Swept(liveList, buffers, freeList, index, expired, live0, b0, free0, removed)
    }

    /** One visit of the collection pass: deletes the buffer at index if it expired, else moves past it. */
    method SweepStep(index: nat, threshold: int, frameCounter: nat, ghost live0: seq<BufferId>, ghost b0: map<BufferId, VertexBufferState>,
                     ghost free0: seq<BufferId>, ghost removed: set<BufferId>)
      returns (next: nat, ghost removed': set<BufferId>)
      requires Valid() && reclaimList == [] && index < |liveList|
      requires Sweeping(index, ExpiredIds(b0, threshold, frameCounter), live0, b0, free0, removed)
      modifies this`buffers, this`liveList, this`freeList, this`totalAllocatedMemory
      ensures Valid() && reclaimList == []
      ensures Sweeping(next, ExpiredIds(b0, threshold, frameCounter), live0, b0, free0, removed')
      ensures |liveList| - next < old(|liveList|) - index
    {
      ghost var expired := ExpiredIds(b0, threshold, frameCounter);
      var id := liveList[index];
      assert id in buffers && buffers[id] == b0[id];
      if Expired(buffers[id], threshold, frameCounter) {
        removed' := SweepDelete(index, expired, live0, b0, free0, removed);
        next := index;
      } else {
        SweptSkip(liveList, buffers, freeList, index, expired, live0, b0, free0, removed);
        next := index + 1;
        removed' := removed;
      }
    }

    /** The visit that finds the buffer at index expired: it is deleted and the pass stays at index. */
    method SweepDelete(index: nat, ghost expired: set<BufferId>, ghost live0: seq<BufferId>, ghost b0: map<BufferId, VertexBufferState>,
                       ghost free0: seq<BufferId>, ghost removed: set<BufferId>)
      returns (ghost removed': set<BufferId>)
      requires Valid() && reclaimList == [] && index < |liveList| && liveList[index] in expired
      requires Sweeping(index, expired, live0, b0, free0, removed)
      modifies this`buffers, this`liveList, this`freeList, this`totalAllocatedMemory
      ensures Valid() && reclaimList == [] && |liveList| == old(|liveList|) - 1
      ensures Sweeping(index, expired, live0, b0, free0, removed')
    {
      removed' := removed + {liveList[index]};
      SweptRemove(liveList, buffers, freeList, index, expired, live0, b0, free0, removed);
      DeleteLive(index);
    }

    lemma SweepStart(expired: set<BufferId>, free0: seq<BufferId>)
      requires Valid() && freeList == free0 && expired <= buffers.Keys
      ensures Sweeping(0, expired, liveList, buffers, free0, {})
    {
      WithoutNothing(free0);
      assert liveList[0..] == liveList;
    }

    /**
     * Makes every reclaimed buffer free again, then deletes every expired live buffer, taking it off
     * the live and free lists and out of the memory total.
     */
    method GarbageCollect(threshold: int, frameCounter: nat)
      requires Valid()
      modifies this`buffers, this`liveList, this`freeList, this`reclaimList, this`totalAllocatedMemory
      ensures Valid()
      ensures var expired := ExpiredIds(old(buffers), threshold, frameCounter);
              liveList == Without(old(liveList), expired)
              && freeList == Without(old(freeList) + old(reclaimList), expired)
              && buffers == old(buffers) - expired
      ensures reclaimList == []
      ensures forall id :: id in buffers ==> !Expired(buffers[id], threshold, frameCounter)
    {
      ghost var expired := ExpiredIds(buffers, threshold, frameCounter);
      ghost var live0 := liveList;
      ghost var b0 := buffers;
      ReclaimAll();
      ghost var free0 := freeList;
      ghost var removed: set<BufferId> := {};
      SweepStart(expired, free0);
      var index: nat := 0;
      while index < |liveList|
        invariant Valid() && reclaimList == []
        invariant Sweeping(index, expired, live0, b0, free0, removed)
        decreases |liveList| - index
      {
        index, removed := SweepStep(index, threshold, frameCounter, live0, b0, free0, removed);
      }
      SweepDone(expired, live0, b0, free0, removed);
    }

    /** A collection pass that has visited the whole live list has deleted exactly the expired buffers. */
    lemma SweepDone(expired: set<BufferId>, live0: seq<BufferId>, b0: map<BufferId, VertexBufferState>,
                    free0: seq<BufferId>, removed: set<BufferId>)
      requires Sweeping(|liveList|, expired, live0, b0, free0, removed)
      ensures liveList == Without(live0, expired) && buffers == b0 - expired && freeList == Without(free0, expired)
    {
      assert liveList[|liveList|..] == [];
      assert liveList[..|liveList|] == liveList;
      assert removed == expired;
    }
  }

  datatype VertexAllocation = VertexAllocation(buffer: BufferId, vertexOffset: nat)

  /** The per-frame allocator: the buffers it holds locked this frame, bump-allocated from the last. */
  class GlobalDynamicVertexBuffer {
    const pool: VertexBufferPool
    var vertexBuffers: seq<BufferId>

    ghost predicate Valid()
      reads this, pool
    {
      pool.Valid() && Distinct(vertexBuffers)
      && forall id :: id in vertexBuffers ==> id in pool.buffers && pool.buffers[id].mapped
    }

    constructor(pool: VertexBufferPool)
      requires pool.Valid()
      ensures Valid() && this.pool == pool && vertexBuffers == []
    {
      this.pool := pool;
      vertexBuffers := [];
    }

    /** Whether the last held buffer is missing or too full for a request. */
    predicate NeedsNewBuffer(sizeInBytes: nat)
      requires Valid()
      reads this, pool
    {
      vertexBuffers == []
      || pool.buffers[vertexBuffers[|vertexBuffers| - 1]].allocatedByteCount + sizeInBytes
         > pool.buffers[vertexBuffers[|vertexBuffers| - 1]].bufferSize
    }

    /**
     * Takes sizeInBytes bytes from the last held buffer, acquiring a new one first when it cannot fit
     * them. The allocation starts where the previous one ended and never runs past the buffer.
     */
    method Allocate(sizeInBytes: nat, frameCounter: nat) returns (a: VertexAllocation)
      requires Valid()
      modifies this`vertexBuffers, pool`buffers, pool`liveList, pool`freeList, pool`totalAllocatedMemory, pool`nextId
      ensures Valid() && a.buffer in pool.buffers
      ensures old(NeedsNewBuffer(sizeInBytes)) ==>
                vertexBuffers == old(vertexBuffers) + [a.buffer] && a.buffer !in old(vertexBuffers) && a.vertexOffset == 0
                && AcquiredFrom(old(pool.buffers), old(pool.liveList), old(pool.freeList), old(pool.totalAllocatedMemory), old(pool.nextId),
                                sizeInBytes, frameCounter, sizeInBytes,
                                pool.buffers, pool.liveList, pool.freeList, pool.totalAllocatedMemory, pool.nextId, a.buffer)
      ensures !old(NeedsNewBuffer(sizeInBytes)) ==>
                vertexBuffers == old(vertexBuffers) && a.buffer in old(pool.buffers)
                && a.vertexOffset == old(pool.buffers[a.buffer].allocatedByteCount)
                && pool.buffers == Bumped(old(pool.buffers), a.buffer, sizeInBytes)
                && pool.liveList == old(pool.liveList) && pool.freeList == old(pool.freeList)
                && pool.totalAllocatedMemory == old(pool.totalAllocatedMemory) && pool.nextId == old(pool.nextId)
      ensures a.buffer == vertexBuffers[|vertexBuffers| - 1]
      ensures pool.buffers[a.buffer].allocatedByteCount == a.vertexOffset + sizeInBytes <= pool.buffers[a.buffer].bufferSize
    {
      if NeedsNewBuffer(sizeInBytes) {
        a := AllocateFromNew(sizeInBytes, frameCounter);
      } else {
        a := AllocateFromLast(sizeInBytes);
      }
    }

    /** The path of Allocate where the last held buffer has room for the request. */
    method AllocateFromLast(sizeInBytes: nat) returns (a: VertexAllocation)
      requires Valid() && !NeedsNewBuffer(sizeInBytes)
      modifies pool`buffers
      ensures Valid() && a.buffer in old(pool.buffers) && a.buffer == vertexBuffers[|vertexBuffers| - 1]
      ensures a.vertexOffset == old(pool.buffers[a.buffer].allocatedByteCount)
      ensures pool.buffers == Bumped(old(pool.buffers), a.buffer, sizeInBytes)
      ensures pool.buffers[a.buffer].allocatedByteCount == a.vertexOffset + sizeInBytes <= pool.buffers[a.buffer].bufferSize
    {
      var id := vertexBuffers[|vertexBuffers| - 1];
      a := VertexAllocation(id, pool.buffers[id].allocatedByteCount);
      BumpHeld(id, sizeInBytes);
    }

    /** The path of Allocate that acquires a new buffer for the request and allocates from its start. */
    method AllocateFromNew(sizeInBytes: nat, frameCounter: nat) returns (a: VertexAllocation)
      requires Valid()
      modifies this`vertexBuffers, pool`buffers, pool`liveList, pool`freeList, pool`totalAllocatedMemory, pool`nextId
      ensures Valid() && a.buffer in pool.buffers && a.vertexOffset == 0
      ensures vertexBuffers == old(vertexBuffers) + [a.buffer] && a.buffer !in old(vertexBuffers)
      ensures AcquiredFrom(old(pool.buffers), old(pool.liveList), old(pool.freeList), old(pool.totalAllocatedMemory), old(pool.nextId),
                           sizeInBytes, frameCounter, sizeInBytes,
                           pool.buffers, pool.liveList, pool.freeList, pool.totalAllocatedMemory, pool.nextId, a.buffer)
      ensures pool.buffers[a.buffer].allocatedByteCount == sizeInBytes <= pool.buffers[a.buffer].bufferSize
    {
      ghost var b0, l0, f0, t0, n0 := pool.buffers, pool.liveList, pool.freeList, pool.totalAllocatedMemory, pool.nextId;
      var id := AcquireNext(sizeInBytes, frameCounter);
      a := VertexAllocation(id, 0);
      ghost var b1 := pool.buffers;
      BumpHeld(id, sizeInBytes);
      AcquiredThenBumped(b0, l0, f0, t0, n0, sizeInBytes, frameCounter, sizeInBytes,
                         b1, pool.liveList, pool.freeList, pool.totalAllocatedMemory, pool.nextId, id, pool.buffers);
    }

    /** Counts size more bytes as allocated in the held buffer id. */
    method BumpHeld(id: BufferId, size: nat)
      requires Valid() && id in vertexBuffers
      requires pool.buffers[id].allocatedByteCount + size <= pool.buffers[id].bufferSize
      modifies pool`buffers
      ensures Valid()
      ensures pool.buffers == Bumped(old(pool.buffers), id, size)
    {
      pool.Bump(id, size);
    }

    /** Acquires a buffer for a request from the pool and holds it last. */
    method AcquireNext(sizeInBytes: nat, frameCounter: nat) returns (id: BufferId)
      requires Valid()
      modifies this`vertexBuffers, pool`buffers, pool`liveList, pool`freeList, pool`totalAllocatedMemory, pool`nextId
      ensures Valid()
      ensures vertexBuffers == old(vertexBuffers) + [id] && id !in old(vertexBuffers)
      ensures id in pool.buffers && pool.buffers[id].mapped
      ensures pool.buffers[id].allocatedByteCount == 0 && pool.buffers[id].bufferSize >= sizeInBytes
      ensures AcquiredFrom(old(pool.buffers), old(pool.liveList), old(pool.freeList), old(pool.totalAllocatedMemory), old(pool.nextId),
                           sizeInBytes, frameCounter, 0,
                           pool.buffers, pool.liveList, pool.freeList, pool.totalAllocatedMemory, pool.nextId, id)
    {
      id := pool.Acquire(sizeInBytes, frameCounter);
      assert id !in vertexBuffers;
      DistinctConcat(vertexBuffers, [id]);
      vertexBuffers := vertexBuffers + [id];
    }

    /** Hands every held buffer back to the pool for reclaiming and holds none. */
    method Commit()
      requires Valid()
      modifies this`vertexBuffers, pool`buffers, pool`reclaimList
      ensures Valid() && vertexBuffers == []
      ensures pool.reclaimList == old(pool.reclaimList) + old(vertexBuffers)
      ensures pool.buffers.Keys == old(pool.buffers).Keys
      ensures forall id :: id in old(vertexBuffers) ==> pool.buffers[id] == old(pool.buffers[id]).(mapped := false, allocatedByteCount := 0)
      ensures forall id :: id in old(pool.buffers) && id !in old(vertexBuffers) ==> pool.buffers[id] == old(pool.buffers[id])
    {
      pool.Forfeit(vertexBuffers);
      vertexBuffers := [];
    }
  }
}
