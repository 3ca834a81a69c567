/** The growing circular chunk buffer of internal/ringbuf/ringbuf.go, refined by a sequence of entries. */
module RingBuffer {
  import opened Bytes

  const MAX_COUNT := 10000
  const INITIAL_CAPACITY := 512
  const MAX_CAPACITY := 16384

  /** A stored chunk and the byte length it was pushed with. */
  datatype Entry<T> = Entry(data: seq<T>, size: nat)

  function Total<T>(es: seq<Entry<T>>): nat {
    if es == [] then 0 else es[0].size + Total(es[1..])
  }

  lemma {:induction false} TotalConcat<T>(a: seq<Entry<T>>, b: seq<Entry<T>>)
    ensures Total(a + b) == Total(a) + Total(b)
  {
    if a == [] {
      assert a + b == b;
    } else {
      assert (a + b)[1..] == a[1..] + b;
      TotalConcat(a[1..], b);
    }
  }

  lemma TotalOne<T>(e: Entry<T>)
    ensures Total([e]) == e.size
  {
  }

  lemma TotalFirst<T>(es: seq<Entry<T>>)
    requires es != []
    ensures Total(es) == es[0].size + Total(es[1..])
  {
  }

  /** Within the byte budget and the entry cap. */
  predicate Fits<T>(es: seq<Entry<T>>, maxBytes: nat) {
    Total(es) < maxBytes && |es| <= MAX_COUNT
  }

  /** What eviction leaves of es: oldest entries go first, the newest always stays. */
  function Evict<T>(es: seq<Entry<T>>, maxBytes: nat): seq<Entry<T>> {
    if !Fits(es, maxBytes) && |es| > 1 then Evict(es[1..], maxBytes) else es
  }

  /** Push keeps the longest suffix that fits, or the newest entry alone if no suffix does. */
  lemma {:induction false} EvictIsLongestFittingSuffix<T>(es: seq<Entry<T>>, maxBytes: nat)
    requires es != []
    ensures var k := |es| - |Evict(es, maxBytes)|;
            && 0 <= k < |es| && Evict(es, maxBytes) == es[k..]
            && (Fits(es[k..], maxBytes) || k == |es| - 1)
            && forall j :: 0 <= j < k ==> !Fits(es[j..], maxBytes)
  {
    assert es[0..] == es;
    if !Fits(es, maxBytes) && |es| > 1 {
      EvictIsLongestFittingSuffix(es[1..], maxBytes);
      var k := |es| - |Evict(es, maxBytes)|;
      assert es[1..][k - 1..] == es[k..];
      forall j | 0 <= j < k ensures !Fits(es[j..], maxBytes) {
        if j > 0 {
          assert es[1..][j - 1..] == es[j..];
        }
      }
    }
  }

  function Datas<T>(es: seq<Entry<T>>): seq<seq<T>> {
    seq(|es|, i requires 0 <= i < |es| => es[i].data)
  }

  predicate IsCapacity(c: int) {
    c in {512, 1024, 2048, 4096, 8192, 16384}
  }

  /** Position in the queue of array slot j when the oldest entry sits in slot head. */
  function Position(head: nat, j: nat, cap: nat): nat
    requires head < cap && j < cap
  {
    if j >= head then j - head else j - head + cap
  }

  /** Array slot of queue position i: (head + i) % cap. */
  function Slot(head: nat, i: nat, cap: nat): (j: nat)
    requires head < cap && i < cap
    ensures j < cap && Position(head, j, cap) == i
  {
    if head + i < cap then head + i else head + i - cap
  }

  /** The slot behind the last entry stays the same when the first one goes. */
  lemma SlotOfRest(head: nat, size: nat, cap: nat)
    requires head < cap && 0 < size <= cap
    ensures var next := if head + 1 == cap then 0 else head + 1;
            Slot(next, size - 1, cap) == if size == cap then head else Slot(head, size, cap)
  {
  }

  /** The remainder of an index that has run past the end of the array at most once. */
  function Wrap(x: nat, cap: nat): (r: nat)
    requires IsCapacity(cap) && x < 2 * cap
    ensures r == if x < cap then x else x - cap
  {
    WrapOnce(x, cap);
    x % cap
  }

  lemma WrapOnce(x: nat, cap: nat)
    requires IsCapacity(cap) && x < 2 * cap
    ensures cap != 0 && x % cap == if x < cap then x else x - cap
  {
    if cap == 512 {
      assert x % 512 == if x < 512 then x else x - 512;
    } else if cap == 1024 {
      assert x % 1024 == if x < 1024 then x else x - 1024;
    } else if cap == 2048 {
      assert x % 2048 == if x < 2048 then x else x - 2048;
    } else if cap == 4096 {
      assert x % 4096 == if x < 4096 then x else x - 4096;
    } else if cap == 8192 {
      assert x % 8192 == if x < 8192 then x else x - 8192;
    } else {
      assert x % 16384 == if x < 16384 then x else x - 16384;
    }
  }

  /** The arrays hold es from slot head on, wrapping around; every other slot is nil. */
  ghost predicate Layout<T>(chunks: seq<Option<seq<T>>>, sizes: seq<nat>, head: nat, es: seq<Entry<T>>) {
    && |chunks| == |sizes| && head < |chunks| && |es| <= |chunks|
    && (forall j :: 0 <= j < |chunks| ==>
          chunks[j] == var i := Position(head, j, |chunks|); if i < |es| then Some(es[i].data) else None)
    && (forall j :: 0 <= j < |sizes| ==>
          sizes[j] == var i := Position(head, j, |chunks|); if i < |es| then es[i].size else 0)
  }

  lemma LayoutAt<T>(chunks: seq<Option<seq<T>>>, sizes: seq<nat>, head: nat, es: seq<Entry<T>>, i: nat)
    requires Layout(chunks, sizes, head, es) && i < |es|
    ensures head < |chunks| == |sizes| && |es| <= |chunks|
    ensures var j := Slot(head, i, |chunks|); chunks[j] == Some(es[i].data) && sizes[j] == es[i].size
  {
  }

  lemma LayoutAppend<T>(chunks: seq<Option<seq<T>>>, sizes: seq<nat>, head: nat, es: seq<Entry<T>>, e: Entry<T>)
    requires Layout(chunks, sizes, head, es) && |es| < |chunks|
    ensures head < |chunks| == |sizes|
    ensures var t := Slot(head, |es|, |chunks|);
            Layout(chunks[t := Some(e.data)], sizes[t := e.size], head, es + [e])
  {
  }

  lemma LayoutDrop<T>(chunks: seq<Option<seq<T>>>, sizes: seq<nat>, head: nat, es: seq<Entry<T>>)
    requires Layout(chunks, sizes, head, es) && es != []
    ensures head < |chunks| == |sizes|
    ensures chunks[head] == Some(es[0].data) && sizes[head] == es[0].size
    ensures Layout(chunks[head := None], sizes[head := 0],
                   if head + 1 == |chunks| then 0 else head + 1, es[1..])
  {
  }

  /** Where head, tail and total stand when the first entry goes. */
  lemma FirstDropped<T>(chunks: seq<Option<seq<T>>>, sizes: seq<nat>, head: nat, es: seq<Entry<T>>, tail: nat)
    requires Layout(chunks, sizes, head, es) && es != []
    requires head < |chunks| && |es| <= |chunks| && tail == if |es| == |chunks| then head else Slot(head, |es|, |chunks|)
    ensures head < |chunks| == |sizes|
    ensures var next := if head + 1 == |chunks| then 0 else head + 1;
            && Layout(chunks[head := None], sizes[head := 0], next, es[1..])
            && next < |chunks| && |es| - 1 < |chunks| && tail == Slot(next, |es| - 1, |chunks|)
            && Total(es[1..]) == Total(es) - sizes[head]
  {
    LayoutDrop(chunks, sizes, head, es);
    hide Layout, Total;
    TotalFirst(es);
    SlotOfRest(head, |es|, |chunks|);
  }

  /** Doubles oldCap until it holds minCap entries. */
  method Doubled(oldCap: nat, minCap: nat) returns (newCap: nat)
    requires IsCapacity(oldCap) && minCap <= MAX_COUNT + 1
    ensures IsCapacity(newCap) && oldCap <= newCap <= MAX_CAPACITY && minCap <= newCap
    ensures newCap > oldCap ==> newCap < 2 * minCap
  {
    newCap := oldCap;
    while newCap < minCap
      invariant IsCapacity(newCap) && newCap >= oldCap
      invariant newCap > oldCap ==> newCap < 2 * minCap
    {
      newCap := newCap * 2;
    }
  }

  method EmptyArrays<T>(n: nat) returns (chunks: array<Option<seq<T>>>, sizes: array<nat>)
    requires n > 0
    ensures fresh(chunks) && fresh(sizes) && chunks.Length == sizes.Length == n
    ensures Layout(chunks[..], sizes[..], 0, [])
  {
    chunks := new Option<seq<T>>[n](_ => None);
    sizes := new nat[n](_ => 0);
  }

  class Buffer<T> {
    ghost var Contents: seq<Entry<T>>
    ghost var Repr: set<object>

    var chunks: array<Option<seq<T>>>
    var chunkSize: array<nat>
    var cap: nat
    var head: nat
    var tail: nat
    var size: nat
    var byteTotal: nat
    const maxBytes: nat

    ghost predicate Consistent()
      reads this, Repr
    {
      && this in Repr && chunks in Repr && chunkSize in Repr
      && IsCapacity(cap) && 1 < cap <= MAX_CAPACITY && chunks.Length == cap && chunkSize.Length == cap
      && Layout(chunks[..], chunkSize[..], head, Contents)
      && head < cap && size == |Contents| <= cap && tail == (if size == cap then head else Slot(head, size, cap))
      && maxBytes > 0
      && byteTotal == Total(Contents)
    }

    ghost predicate Valid()
      reads this, Repr
      ensures Valid() ==> this in Repr
    {
      Consistent() && size <= MAX_COUNT && (byteTotal < maxBytes || size <= 1)
    }

    constructor (maxBytes: nat)
      requires maxBytes > 0
      ensures Valid() && fresh(Repr)
      ensures Contents == [] && this.maxBytes == maxBytes
    {
      cap, head, tail, size, byteTotal := INITIAL_CAPACITY, 0, 0, 0, 0;
      this.maxBytes := maxBytes;
      var cs, ss := EmptyArrays<T>(INITIAL_CAPACITY);
      chunks, chunkSize := cs, ss;
      Contents, Repr := [], {this, cs, ss};
    }

    /** Appends data; true if at least one older chunk was evicted. */
    method Push(data: seq<T>, byteSize: nat) returns (evicted: bool)
      requires Valid()
      modifies Repr
      ensures Valid() && fresh(Repr - old(Repr))
      ensures Contents == Evict(old(Contents) + [Entry(data, byteSize)], maxBytes)
      ensures evicted <==> |Contents| < |old(Contents)| + 1
    {
      hide Layout, Wrap, IsCapacity;
      ghost var pushed := Contents + [Entry(data, byteSize)];
      EnsureCapacity(size + 1);
      PutLast(data, byteSize);
      evicted := false;
      while (byteTotal >= maxBytes || size > MAX_COUNT) && size > 1
        invariant Consistent() && fresh(Repr - old(Repr))
        invariant Evict(Contents, maxBytes) == Evict(pushed, maxBytes)
        invariant |Contents| <= |pushed|
        invariant evicted <==> |Contents| < |pushed|
        invariant size >= 1
        decreases size
      {
        EvictOne();
        evicted := true;
      }
    }

    /** The first half of Push: writes the new entry at tail. */
    method PutLast(data: seq<T>, byteSize: nat)
      requires Consistent() && size < cap
      modifies Repr
      ensures Consistent() && Repr == old(Repr)
      ensures Contents == old(Contents) + [Entry(data, byteSize)]
    {
      hide Layout, Total, Wrap, IsCapacity;
      ghost var e := Entry(data, byteSize);
      ghost var cs, ss := chunks[..], chunkSize[..];
      TotalConcat(Contents, [e]);
      TotalOne(e);
      LayoutAppend(cs, ss, head, Contents, e);
      chunks[tail] := Some(data);
      chunkSize[tail] := byteSize;
      assert chunks[..] == cs[tail := Some(data)] && chunkSize[..] == ss[tail := byteSize];
      tail := Wrap(tail + 1, cap);
      size := size + 1;
      byteTotal := byteTotal + byteSize;
      Contents := Contents + [e];
    }

    /** Removes and returns the oldest chunk, or nil when empty. */
    method Shift() returns (data: Option<seq<T>>)
      requires Valid()
      modifies Repr
      ensures Valid() && Repr == old(Repr)
      ensures if old(Contents) == [] then data == None && Contents == []
              else data == Some(old(Contents)[0].data) && Contents == old(Contents)[1..]
    {
      if size == 0 {
        return None;
      }
      LayoutDrop(chunks[..], chunkSize[..], head, Contents);
      data := chunks[head];
      EvictOne();
    }

    method Len() returns (n: nat)
      requires Valid()
      ensures n == |Contents|
    {
      n := size;
    }

    /** All chunks, oldest first. */
    method Snapshot() returns (out: seq<seq<T>>)
      requires Valid()
      ensures out == Datas(Contents)
    {
      hide Layout, Wrap, IsCapacity;
      out := [];
      var i, idx := 0, head;
      while i < size
        invariant i <= size && idx == (if i == cap then head else Slot(head, i, cap))
        invariant out == Datas(Contents[..i])
      {
        LayoutAt(chunks[..], chunkSize[..], head, Contents, i);
        out := out + [chunks[idx].value];
        i, idx := i + 1, Wrap(idx + 1, cap);
      }
      assert Contents[..size] == Contents;
    }

    /** Drops the oldest entry and clears its slot. */
    method EvictOne()
      requires Consistent() && size > 0
      modifies Repr
      ensures Consistent() && Repr == old(Repr)
      ensures Contents == old(Contents)[1..]
    {
      hide Layout, Wrap, IsCapacity, Total, Slot, Fits;
      FirstDropped(chunks[..], chunkSize[..], head, Contents, tail);
      var next := Wrap(head + 1, cap);
      byteTotal := byteTotal - chunkSize[head];
      ClearSlot(head);
      head := next;
      size := size - 1;
      Contents := Contents[1..];
    }

    /** Nils a slot, so that the chunk it held can be freed. */
    method ClearSlot(j: nat)
      requires chunks.Length == chunkSize.Length && j < chunks.Length
      modifies chunks, chunkSize
      ensures chunks[..] == old(chunks[..])[j := None] && chunkSize[..] == old(chunkSize[..])[j := 0]
    {
      chunks[j] := None;
      chunkSize[j] := 0;
    }

    /** The copying loop of EnsureCapacity: the entries, oldest first, to the front of two empty arrays. */
    method CopyTo(newChunks: array<Option<seq<T>>>, newSizes: array<nat>)
      requires Consistent() && newChunks !in Repr && newSizes !in Repr
      requires newChunks.Length == newSizes.Length >= cap
      requires Layout(newChunks[..], newSizes[..], 0, [])
      modifies newChunks, newSizes
      ensures Layout(newChunks[..], newSizes[..], 0, Contents)
    {
      hide Layout, Wrap, IsCapacity;
      for i := 0 to size
        invariant Consistent()
        invariant Layout(newChunks[..], newSizes[..], 0, Contents[..i])
      {
        LayoutAt(chunks[..], chunkSize[..], head, Contents, i);
        var srcIdx := Wrap(head + i, cap);
        ghost var cs, ss := newChunks[..], newSizes[..];
        LayoutAppend(cs, ss, 0, Contents[..i], Contents[i]);
        newChunks[i] := chunks[srcIdx];
        newSizes[i] := chunkSize[srcIdx];
        assert newChunks[..] == cs[i := Some(Contents[i].data)] && newSizes[..] == ss[i := Contents[i].size];
        assert Contents[..i + 1] == Contents[..i] + [Contents[i]];
      }
      assert Contents[..size] == Contents;
    }

    /** Replaces the arrays by larger ones, moving the entries to the front. */
    method Grow(newCap: nat)
      requires Consistent() && IsCapacity(newCap) && cap < newCap <= MAX_CAPACITY
      modifies Repr
      ensures Consistent() && fresh(Repr - old(Repr))
      ensures Contents == old(Contents) && cap == newCap
    {
      hide Layout, IsCapacity, Total;
      var newChunks, newSizes := EmptyArrays<T>(newCap);
      CopyTo(newChunks, newSizes);
      assert Slot(0, size, newCap) == size;
      chunks, chunkSize := newChunks, newSizes;
      cap, head, tail := newCap, 0, size;
      Repr := {this, newChunks, newSizes};
    }

    /** Makes room for minCap entries. */
    method EnsureCapacity(minCap: nat)
      requires Consistent() && size < minCap <= MAX_COUNT + 1
      modifies Repr
      ensures Consistent() && fresh(Repr - old(Repr))
      ensures Contents == old(Contents) && size < cap
    {
      hide Layout, IsCapacity, Total;
      if cap < minCap {
        var newCap := Doubled(cap, minCap);
        Grow(newCap);
      }
    }
  }
}
