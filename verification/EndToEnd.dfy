/** From the PTY to one client: snapshot replay on attach, then the live relay. */
module EndToEnd {
  import opened Bytes
  import opened RingBuffer
  import opened Relay
  import opened RelayRuns
  import opened RelayOrder
  import Stream
  import StreamLaws
  import Session
  import SessionLaws

  // ---- where a replay ends ----

  function Sizes<T>(chunks: seq<seq<T>>): seq<nat> {
    seq(|chunks|, i requires 0 <= i < |chunks| => |chunks[i]|)
  }

  /** Bytes collected before chunk k, if every full batch was sent; the first batch starts with the title. */
  function BatchSize(title: nat, sizes: seq<nat>, k: nat): nat
    requires k <= |sizes|
    decreases k, 0
  {
    if k == 0 then title else if Overflows(title, sizes, k - 1) then 0 else BatchSize(title, sizes, k - 1) + sizes[k - 1]
  }

  /** Chunk k fills a batch, so that the loop looks at the write queue. */
  predicate Overflows(title: nat, sizes: seq<nat>, k: nat)
    requires k < |sizes|
    decreases k, 1
  {
    BatchSize(title, sizes, k) + sizes[k] > REPLAY_BATCH
  }

  /** How often the loop has looked before chunk k. */
  function Looks(title: nat, sizes: seq<nat>, k: nat): nat
    requires k <= |sizes|
  {
    if k == 0 then 0 else Looks(title, sizes, k - 1) + if Overflows(title, sizes, k - 1) then 1 else 0
  }

  /** The batch that chunk k fills meets a full write queue. */
  predicate FullAt(title: nat, sizes: seq<nat>, k: nat, amount: nat -> int, cfg: Config)
    requires k < |sizes|
  {
    Overflows(title, sizes, k) && amount(Looks(title, sizes, k)) > cfg.hwm
  }

  /** The end of the chunk at which the write queue is first found full, searching from chunk k; or of the last. */
  function Taken(title: nat, sizes: seq<nat>, amount: nat -> int, cfg: Config, k: nat): (n: nat)
    requires k <= |sizes|
    ensures k <= n <= |sizes|
    ensures forall j :: k <= j < n - 1 ==> !FullAt(title, sizes, j, amount, cfg)
    ensures n < |sizes| ==> n > k && FullAt(title, sizes, n - 1, amount, cfg)
    decreases |sizes| - k
  {
    if k == |sizes| then k
    else if FullAt(title, sizes, k, amount, cfg) then k + 1
    else Taken(title, sizes, amount, cfg, k + 1)
  }

  // ---- what a replay hands over ----

  lemma FlattenFirst<T>(chunks: seq<seq<T>>)
    requires chunks != []
    ensures Flatten(chunks) == chunks[0] + Flatten(chunks[1..])
  {
    assert chunks == [chunks[0]] + chunks[1..];
    FlattenConcat([chunks[0]], chunks[1..]);
    FlattenOne(chunks[0]);
  }

  lemma RingBytesEmpty<T>()
    ensures RingBytes<T>([]) == []
  {
  }

  lemma SendOrHoldFacts<T>(r: State<T>, frame: seq<T>, amount: int, cfg: Config)
    requires r.ring == []
    ensures var r' := SendOrHold(r, frame, amount, cfg);
            && r' == r.(sent := r'.sent, ring := r'.ring, throttled := r'.throttled)
            && r'.sent + RingBytes(r'.ring) == r.sent + frame
            && (if amount > cfg.hwm then |r'.ring| == 1 && r'.throttled else r'.ring == [] && r'.sent == r.sent + frame)
  {
    if amount > cfg.hwm {
      PushAlone(r.(throttled := true), frame, cfg.outputBufferMax);
      RingBytesOne(Entry(frame, |frame|));
    } else {
      RingBytesEmpty<T>();
    }
  }

  /** What was handed over: r' has sent or holds everything r had sent and then `bytes`, and nothing else changed. */
  ghost predicate HandedOver<T>(r: State<T>, bytes: seq<T>, r': State<T>) {
    && r' == r.(sent := r'.sent, ring := r'.ring, throttled := r'.throttled)
    && r'.sent + RingBytes(r'.ring) == r.sent + bytes
    && (r'.ring != [] ==> r'.throttled) && |r'.ring| <= 1
  }

  lemma NothingHandedOver<T>(r: State<T>)
    requires r.ring == []
    ensures HandedOver(r, [], r)
  {
    RingBytesEmpty<T>();
  }

  lemma BatchHandedOver<T>(r: State<T>, frame: seq<T>, amount: int, cfg: Config)
    requires r.ring == []
    ensures HandedOver(r, frame, SendOrHold(r, frame, amount, cfg))
  {
    hide RingBytes;
    SendOrHoldFacts(r, frame, amount, cfg);
  }

  /** A batch that was sent, and then the rest. */
  lemma SentThenHandedOver<T>(r: State<T>, frame: seq<T>, amount: int, cfg: Config, rest: seq<T>, r': State<T>)
    requires r.ring == [] && amount <= cfg.hwm && HandedOver(SendOrHold(r, frame, amount, cfg), rest, r')
    ensures SendOrHold(r, frame, amount, cfg).ring == []
    ensures HandedOver(r, frame + rest, r')
  {
    hide RingBytes;
    SendOrHoldFacts(r, frame, amount, cfg);
    assert r.sent + (frame + rest) == r.sent + frame + rest;
  }

  lemma ReplayStep<T>(r: State<T>, batch: seq<T>, chunks: seq<seq<T>>, k: nat, amount: nat -> int, i: nat, cfg: Config)
    requires k <= |chunks|
    ensures Replay(r, batch, chunks, k, amount, i, cfg) ==
            if k == |chunks| then
              if batch == [] then r else SendOrHold(r, batch, amount(i), cfg)
            else if |batch + chunks[k]| <= REPLAY_BATCH then Replay(r, batch + chunks[k], chunks, k + 1, amount, i, cfg)
            else if amount(i) > cfg.hwm then SendOrHold(r, batch + chunks[k], amount(i), cfg)
            else Replay(SendOrHold(r, batch + chunks[k], amount(i), cfg), [], chunks, k + 1, amount, i + 1, cfg)
  {
    hide SendOrHold;
  }

  lemma TakenStep(title: nat, sizes: seq<nat>, amount: nat -> int, cfg: Config, k: nat)
    requires k < |sizes|
    ensures Taken(title, sizes, amount, cfg, k)
         == if FullAt(title, sizes, k, amount, cfg) then k + 1 else Taken(title, sizes, amount, cfg, k + 1)
    ensures Taken(title, sizes, amount, cfg, |sizes|) == |sizes|
    ensures FullAt(title, sizes, k, amount, cfg)
       <==> BatchSize(title, sizes, k) + sizes[k] > REPLAY_BATCH && amount(Looks(title, sizes, k)) > cfg.hwm
    ensures var full := BatchSize(title, sizes, k) + sizes[k] > REPLAY_BATCH;
            && BatchSize(title, sizes, k + 1) == (if full then 0 else BatchSize(title, sizes, k) + sizes[k])
            && Looks(title, sizes, k + 1) == Looks(title, sizes, k) + if full then 1 else 0
  {
  }

  /** The chunks from k on that a replay still takes, behind the batch collected so far. */
  function Rest<T>(title: nat, batch: seq<T>, chunks: seq<seq<T>>, k: nat, amount: nat -> int, cfg: Config): seq<T>
    requires k <= |chunks|
  {
    batch + Flatten(chunks[k..Taken(title, Sizes(chunks), amount, cfg, k)])
  }

  lemma RestStep<T>(title: nat, batch: seq<T>, chunks: seq<seq<T>>, k: nat, amount: nat -> int, cfg: Config)
    requires k <= |chunks|
    ensures k == |chunks| ==> Rest(title, batch, chunks, k, amount, cfg) == batch
    ensures k < |chunks| ==>
              if FullAt(title, Sizes(chunks), k, amount, cfg) then Rest(title, batch, chunks, k, amount, cfg) == batch + chunks[k]
              else
                && Rest(title, batch, chunks, k, amount, cfg) == Rest(title, batch + chunks[k], chunks, k + 1, amount, cfg)
                && Rest(title, batch, chunks, k, amount, cfg)
                   == batch + chunks[k] + Rest(title, [], chunks, k + 1, amount, cfg)
  {
    hide FullAt;
    var sizes := Sizes(chunks);
    if k == |chunks| {
      assert Flatten(chunks[k..k]) == [];
    } else {
      TakenStep(title, sizes, amount, cfg, k);
      var n := Taken(title, sizes, amount, cfg, k);
      assert chunks[k..n][0] == chunks[k] && chunks[k..n][1..] == chunks[k + 1..n];
      FlattenFirst(chunks[k..n]);
      hide Flatten, Taken;
      var tail := Flatten(chunks[k + 1..n]);
      assert batch + (chunks[k] + tail) == batch + chunks[k] + tail && [] + tail == tail;
      if FullAt(title, sizes, k, amount, cfg) {
        assert chunks[k + 1..n] == [];
        FlattenNone<T>();
        assert batch + chunks[k] + [] == batch + chunks[k];
      }
    }
  }

  lemma FlattenNone<T>()
    ensures Flatten<T>([]) == []
  {
  }

  /**
   * Replay hands over, delivered or held in the ring and in order, what was collected before plus exactly the
   * chunks up to the one at which the write queue was first found full. The rest of the snapshot is dropped.
   */
  lemma {:induction false} ReplayFacts<T>(r: State<T>, title: nat, batch: seq<T>, chunks: seq<seq<T>>, k: nat,
                                          amount: nat -> int, i: nat, cfg: Config)
    requires k <= |chunks| && r.ring == []
    requires |batch| == BatchSize(title, Sizes(chunks), k) && i == Looks(title, Sizes(chunks), k)
    ensures HandedOver(r, Rest(title, batch, chunks, k, amount, cfg), Replay(r, batch, chunks, k, amount, i, cfg))
    decreases |chunks| - k
  {
    var sizes := Sizes(chunks);
    hide RingBytes, SendOrHold, HandedOver, Replay, Rest, BatchSize, Looks, FullAt, Taken;
    ReplayStep(r, batch, chunks, k, amount, i, cfg);
    RestStep(title, batch, chunks, k, amount, cfg);
    if k == |chunks| {
      if batch == [] {
        NothingHandedOver(r);
      } else {
        BatchHandedOver(r, batch, amount(i), cfg);
      }
    } else {
      TakenStep(title, sizes, amount, cfg, k);
      var grown := batch + chunks[k];
      if |grown| <= REPLAY_BATCH {
        ReplayFacts(r, title, grown, chunks, k + 1, amount, i, cfg);
      } else if amount(i) > cfg.hwm {
        BatchHandedOver(r, grown, amount(i), cfg);
      } else {
        var r2 := SendOrHold(r, grown, amount(i), cfg);
        SendOrHoldFacts(r, grown, amount(i), cfg);
        ReplayFacts(r2, title, [], chunks, k + 1, amount, i + 1, cfg);
        SentThenHandedOver(r, grown, amount(i), cfg, Rest(title, [], chunks, k + 1, amount, cfg),
                           Replay(r2, [], chunks, k + 1, amount, i + 1, cfg));
      }
    }
  }

  /** A whole replay, on a fresh attachment. */
  lemma ReplayHandsOver<T>(title: seq<T>, chunks: seq<seq<T>>, amount: nat -> int, cfg: Config)
    ensures var n := Taken(|title|, Sizes(chunks), amount, cfg, 0);
            HandedOver(Fresh(), title + Flatten(chunks[..n]), Replay(Fresh(), title, chunks, 0, amount, 0, cfg))
  {
    var sizes := Sizes(chunks);
    var n := Taken(|title|, sizes, amount, cfg, 0);
    assert BatchSize(|title|, sizes, 0) == |title| && Looks(|title|, sizes, 0) == 0;
    ReplayFacts(Fresh(), |title|, title, chunks, 0, amount, 0, cfg);
    assert chunks[0..n] == chunks[..n];
  }

  lemma FlattenSuffix<T>(chunks: seq<seq<T>>, n: nat, k: nat)
    requires n <= k <= |chunks| && Flatten(chunks[n..]) == []
    ensures Flatten(chunks[k..]) == []
  {
    assert chunks[n..] == chunks[n..k] + chunks[k..];
    FlattenConcat(chunks[n..k], chunks[k..]);
  }

  /** What the client gets from a replay, delivered or still held for it. */
  function Replayed<T>(title: seq<T>, chunks: seq<seq<T>>, amount: nat -> int, cfg: Config): seq<T> {
    var r := Replay(Fresh(), title, chunks, 0, amount, 0, cfg);
    r.sent + RingBytes(r.ring)
  }

  lemma ReplayedIs<T>(title: seq<T>, chunks: seq<seq<T>>, amount: nat -> int, cfg: Config)
    ensures var n := Taken(|title|, Sizes(chunks), amount, cfg, 0);
            && Replayed(title, chunks, amount, cfg) == title + Flatten(chunks[..n])
            && title + Flatten(chunks) == title + Flatten(chunks[..n]) + Flatten(chunks[n..])
  {
    ReplayHandsOver(title, chunks, amount, cfg);
    hide Replay, RingBytes, Taken, Flatten;
    var n := Taken(|title|, Sizes(chunks), amount, cfg, 0);
    var nothing: seq<T> := [];
    assert nothing + (title + Flatten(chunks[..n])) == title + Flatten(chunks[..n]);
    assert chunks == chunks[..n] + chunks[n..];
    FlattenConcat(chunks[..n], chunks[n..]);
  }

  /** The write queue is full at chunk k's batch, and bytes of later chunks follow. */
  predicate CutAt<T>(title: nat, chunks: seq<seq<T>>, k: nat, amount: nat -> int, cfg: Config)
    requires k < |chunks|
  {
    FullAt(title, Sizes(chunks), k, amount, cfg) && |Flatten(chunks[k + 1..])| > 0
  }

  /** What is dropped is not empty exactly if some full batch is followed by more bytes. */
  lemma {:induction false} RestDropped<T>(title: nat, chunks: seq<seq<T>>, amount: nat -> int, cfg: Config)
    ensures var n := Taken(title, Sizes(chunks), amount, cfg, 0);
            Flatten(chunks[n..]) == [] <==> forall k :: 0 <= k < |chunks| ==> !CutAt(title, chunks, k, amount, cfg)
  {
    var n := Taken(title, Sizes(chunks), amount, cfg, 0);
    FlattenNone<T>();
    hide FullAt, Flatten, Taken;
    if Flatten(chunks[n..]) == [] {
      forall k | 0 <= k < |chunks| ensures !CutAt(title, chunks, k, amount, cfg) {
        if n <= k + 1 {
          FlattenSuffix(chunks, n, k + 1);
        }
      }
    } else {
      assert chunks[|chunks|..] == [];
      assert CutAt(title, chunks, n - 1, amount, cfg);
    }
  }

  /**
   * A replay is always a prefix of title and snapshot. It is the whole of them if and only if the write queue
   * is not full at any batch that bytes of later chunks follow.
   */
  lemma {:induction false} ReplayComplete<T>(title: seq<T>, chunks: seq<seq<T>>, amount: nat -> int, cfg: Config)
    ensures Replayed(title, chunks, amount, cfg) <= title + Flatten(chunks)
    ensures Replayed(title, chunks, amount, cfg) == title + Flatten(chunks)
       <==> forall k :: 0 <= k < |chunks| ==> !CutAt(|title|, chunks, k, amount, cfg)
  {
    hide *;
    ReplayedIs(title, chunks, amount, cfg);
    RestDropped(|title|, chunks, amount, cfg);
  }

  /** Every chunk is taken iff the write queue is not full at a batch filled before the last chunk. */
  lemma ConsumedAll(title: nat, sizes: seq<nat>, amount: nat -> int, cfg: Config)
    ensures Taken(title, sizes, amount, cfg, 0) == |sizes|
       <==> forall k :: 0 <= k < |sizes| - 1 ==> !FullAt(title, sizes, k, amount, cfg)
  {
    var n := Taken(title, sizes, amount, cfg, 0);
    hide Taken, FullAt;
    assert n < |sizes| ==> FullAt(title, sizes, n - 1, amount, cfg);
  }

  // ---- a snapshot that is cut short ----

  function Plain(chunks: seq<seq<byte>>): seq<Session.Push> {
    seq(|chunks|, i requires 0 <= i < |chunks| => Session.Push(chunks[i], false))
  }

  predicate IsPlain(chunks: seq<seq<byte>>) {
    forall i :: 0 <= i < |chunks| ==> chunks[i] != [] && Stream.ESC !in chunks[i]
  }

  lemma PlainFeed(t: SessionLaws.Trace, data: seq<byte>, maxBytes: nat)
    requires t.pipe.parser == Stream.Fresh && t.pipe.carry == [] && data != [] && Stream.ESC !in data
    ensures var u := SessionLaws.FeedTrace(t, data, maxBytes);
            && u.pipe.parser == Stream.Fresh && u.pipe.carry == []
            && u.pushed == t.pushed + [Session.Push(data, false)]
  {
    StreamLaws.PlainRun(Stream.Fresh, data);
    hide Stream.Run;
    assert Stream.CleanLength(Stream.Fresh, data) == |data|;
    assert [] + data[..|data|] == data && data[|data|..] == [];
  }

  /** Output without escape sequences reaches the ring read by read. */
  lemma {:induction false} PlainOutput(title: seq<byte>, received: seq<seq<byte>>, maxBytes: nat)
    requires IsPlain(received)
    ensures var t := SessionLaws.FeedAll(title, received, maxBytes);
            && t.pipe.parser == Stream.Fresh && t.pipe.carry == [] && t.pushed == Plain(received)
  {
    hide *;
    PlainUnfold(title, received, maxBytes);
    if received != [] {
      var n := |received| - 1;
      PlainOutput(title, received[..n], maxBytes);
      PlainFeed(SessionLaws.FeedAll(title, received[..n], maxBytes), received[n], maxBytes);
    }
  }

  lemma PlainUnfold(title: seq<byte>, received: seq<seq<byte>>, maxBytes: nat)
    requires IsPlain(received)
    ensures received == [] ==> SessionLaws.FeedAll(title, received, maxBytes) == SessionLaws.Start(title)
    ensures SessionLaws.Start(title).pipe.parser == Stream.Fresh && SessionLaws.Start(title).pipe.carry == []
    ensures received == [] ==> SessionLaws.Start(title).pushed == Plain(received)
    ensures received != [] ==>
              var n := |received| - 1;
              && IsPlain(received[..n]) && received[n] != [] && Stream.ESC !in received[n]
              && SessionLaws.FeedAll(title, received, maxBytes)
                 == SessionLaws.FeedTrace(SessionLaws.FeedAll(title, received[..n], maxBytes), received[n], maxBytes)
              && Plain(received) == Plain(received[..n]) + [Session.Push(received[n], false)]
  {
    hide SessionLaws.FeedTrace;
  }

  /** As long as it fits the ring, that output is the snapshot. */
  lemma {:induction false} PlainSnapshot(title: seq<byte>, received: seq<seq<byte>>, maxBytes: nat)
    requires IsPlain(received) && Fits(SessionLaws.Entries(Plain(received)), maxBytes)
    ensures Datas(SessionLaws.FeedAll(title, received, maxBytes).pipe.ring) == received
  {
    PlainOutput(title, received, maxBytes);
    SessionLaws.InvariantHolds(title, received, maxBytes);
    hide SessionLaws.FeedAll, Stream.Run, Flatten, Fits, Total;
    var t := SessionLaws.FeedAll(title, received, maxBytes);
    assert t.pipe.ring == SessionLaws.Entries(Plain(received));
    assert Datas(SessionLaws.Entries(Plain(received))) == received;
  }

  function Six<T>(x: T): seq<T> {
    [x, x, x, x, x, x]
  }

  lemma SixSizes(sizes: seq<nat>)
    requires sizes == Six(8192)
    ensures Overflows(0, sizes, 4) && Looks(0, sizes, 4) == 0
    ensures forall k :: 0 <= k < 4 ==> !Overflows(0, sizes, k)
  {
    assert BatchSize(0, sizes, 0) == 0 && BatchSize(0, sizes, 1) == 8192;
    assert BatchSize(0, sizes, 2) == 16384 && BatchSize(0, sizes, 3) == 24576;
    assert BatchSize(0, sizes, 4) == 32768;
    assert Looks(0, sizes, 1) == 0 && Looks(0, sizes, 2) == 0 && Looks(0, sizes, 3) == 0;
  }

  lemma SixTotal(read: seq<byte>)
    requires |read| == 8192
    ensures Total(SessionLaws.Entries(Plain(Six(read)))) == 49152
  {
    var e := Entry(read, 8192);
    assert SessionLaws.Entries(Plain(Six(read))) == [e] + ([e] + ([e] + ([e] + ([e] + [e]))));
    hide Total;
    TotalOne(e);
    TotalConcat([e], [e]);
    TotalConcat([e], [e] + [e]);
    TotalConcat([e], [e] + ([e] + [e]));
    TotalConcat([e], [e] + ([e] + ([e] + [e])));
    TotalConcat([e], [e] + ([e] + ([e] + ([e] + [e]))));
  }

  /**
   * Six plain reads of 8192 bytes make a snapshot; a client that attaches with a full write queue gets the
   * first five, and never the sixth.
   */
  lemma {:induction false} SnapshotCutShort(title: seq<byte>, read: seq<byte>, maxBytes: nat, amount: nat -> int, cfg: Config)
    requires |read| == 8192 && Stream.ESC !in read && maxBytes > 49152 && amount(0) > cfg.hwm
    ensures var snapshot := Datas(SessionLaws.FeedAll(title, Six(read), maxBytes).pipe.ring);
            && snapshot == Six(read)
            && Replayed([], snapshot, amount, cfg) == Flatten(snapshot[..5]) && Flatten(snapshot[5..]) == read
  {
    var received := Six(read);
    SixTotal(read);
    SixSizes(Sizes(received));
    ReplayedIs([], received, amount, cfg);
    FlattenOne(read);
    hide Total, Flatten, Replayed, SessionLaws.FeedAll, Overflows, Looks;
    PlainSnapshot(title, received, maxBytes);
    assert FullAt(0, Sizes(received), 4, amount, cfg);
    assert forall k | 0 <= k < 4 :: !FullAt(0, Sizes(received), k, amount, cfg);
    var n := Taken(0, Sizes(received), amount, cfg, 0);
    assert n == 5;
    assert received[5..] == [read];
    assert [] + Flatten(received[..5]) == Flatten(received[..5]);
  }

  // ---- the composed pipeline ----

  /** Chunks of output, every byte with its position. */
  function TagChunks(chunks: seq<seq<byte>>, from: nat): (tagged: seq<seq<Tagged>>)
    ensures |tagged| == |chunks|
  {
    if chunks == [] then []
    else
      var n := |chunks| - 1;
      TagChunks(chunks[..n], from) + [Tag(chunks[n], from + |Flatten(chunks[..n])|)]
  }

  lemma TagChunksSnoc(before: seq<seq<byte>>, c: seq<byte>, from: nat)
    ensures TagChunks(before + [c], from) == TagChunks(before, from) + [Tag(c, from + |Flatten(before)|)]
    ensures TagChunks([], from) == []
  {
    hide Flatten, Tag;
    assert (before + [c])[..|before|] == before;
  }

  lemma TagChunksStep(before: seq<seq<byte>>, c: seq<byte>, from: nat)
    requires Flatten(TagChunks(before, from)) == Tag(Flatten(before), from)
    requires Sizes(TagChunks(before, from)) == Sizes(before)
    ensures Flatten(TagChunks(before + [c], from)) == Tag(Flatten(before + [c]), from)
    ensures Sizes(TagChunks(before + [c], from)) == Sizes(before + [c])
  {
    hide *;
    var last := Tag(c, from + |Flatten(before)|);
    TagChunksSnoc(before, c, from);
    FlattenSnoc(before, c);
    FlattenSnoc(TagChunks(before, from), last);
    TagConcat(Flatten(before), c, from);
    SizesSnoc(before, c);
    SizesSnoc(TagChunks(before, from), last);
    TagLength(c, from + |Flatten(before)|);
  }

  lemma {:induction false} TagChunksFacts(chunks: seq<seq<byte>>, from: nat)
    ensures Flatten(TagChunks(chunks, from)) == Tag(Flatten(chunks), from)
    ensures Sizes(TagChunks(chunks, from)) == Sizes(chunks)
  {
    if chunks != [] {
      hide *;
      var n := |chunks| - 1;
      TagChunksFacts(chunks[..n], from);
      TagChunksStep(chunks[..n], chunks[n], from);
      assert chunks == chunks[..n] + [chunks[n]];
    }
  }

  lemma SizesSnoc<T>(chunks: seq<seq<T>>, c: seq<T>)
    ensures Sizes(chunks + [c]) == Sizes(chunks) + [|c|]
  {
  }

  lemma {:induction false} TagChunksPrefix(chunks: seq<seq<byte>>, from: nat, k: nat)
    requires k <= |chunks|
    ensures TagChunks(chunks, from)[..k] == TagChunks(chunks[..k], from)
  {
    if k < |chunks| {
      TagChunksPrefix(chunks[..|chunks| - 1], from, k);
      assert chunks[..|chunks| - 1][..k] == chunks[..k];
    } else {
      assert chunks[..k] == chunks && TagChunks(chunks, from)[..k] == TagChunks(chunks, from);
    }
  }

  /** An attachment right after the replay of a title sequence and a snapshot. */
  function Attached(restore: seq<byte>, snapshot: seq<seq<byte>>, amount: nat -> int, armed: set<nat>, cfg: Config): System {
    var title, chunks := Tag(restore, 0), TagChunks(snapshot, |restore|);
    System(Replay(Fresh(), title, chunks, 0, amount, 0, cfg), armed, false, Replayed(title, chunks, amount, cfg))
  }

  lemma TagPositioned(bytes: seq<byte>)
    ensures Positioned(Tag(bytes, 0))
  {
  }

  /** It is an initial state of the relay machine, whatever stale timers linger, and it received what was taken. */
  lemma {:induction false} ReplayIsInitial(restore: seq<byte>, snapshot: seq<seq<byte>>, amount: nat -> int,
                                           armed: set<nat>, cfg: Config)
    ensures var s := Attached(restore, snapshot, amount, armed, cfg);
            var n := Taken(|restore|, Sizes(snapshot), amount, cfg, 0);
            Initial(s) && s.received == Tag(restore + Flatten(snapshot[..n]), 0)
  {
    var title, chunks := Tag(restore, 0), TagChunks(snapshot, |restore|);
    var n := Taken(|restore|, Sizes(snapshot), amount, cfg, 0);
    ReplayHandsOver(title, chunks, amount, cfg);
    ReplayedIs(title, chunks, amount, cfg);
    TakenTagged(restore, snapshot, n);
    AttachedIs(restore, snapshot, amount, armed, cfg);
    hide *;
    TagChunksFacts(snapshot, |restore|);
    TagLength(restore, 0);
    TagPositioned(restore + Flatten(snapshot[..n]));
    HandedOverInitial(title + Flatten(chunks[..n]), armed, Replay(Fresh(), title, chunks, 0, amount, 0, cfg));
  }

  lemma TakenTagged(restore: seq<byte>, snapshot: seq<seq<byte>>, n: nat)
    requires n <= |snapshot|
    ensures Tag(restore, 0) + Flatten(TagChunks(snapshot, |restore|)[..n]) == Tag(restore + Flatten(snapshot[..n]), 0)
  {
    hide *;
    TagChunksPrefix(snapshot, |restore|, n);
    TagChunksFacts(snapshot[..n], |restore|);
    TagConcat(restore, Flatten(snapshot[..n]), 0);
  }

  lemma AttachedIs(restore: seq<byte>, snapshot: seq<seq<byte>>, amount: nat -> int, armed: set<nat>, cfg: Config)
    ensures var title, chunks := Tag(restore, 0), TagChunks(snapshot, |restore|);
            Attached(restore, snapshot, amount, armed, cfg)
            == System(Replay(Fresh(), title, chunks, 0, amount, 0, cfg), armed, false, Replayed(title, chunks, amount, cfg))
  {
    hide Tag, TagChunks, Replay, Replayed;
  }

  lemma HandedOverInitial(received: seq<Tagged>, armed: set<nat>, r: State<Tagged>)
    requires HandedOver(Fresh(), received, r) && Positioned(received)
    ensures Initial(System(r, armed, false, received))
  {
    hide RingBytes, Positioned;
    var nothing: seq<Tagged> := [];
    assert nothing + received == received;
  }

  /** What a client that attached after the reads `before` is meant to get: title, the snapshot taken, all later output. */
  function Meant(restore: seq<byte>, snapshot: seq<seq<byte>>, amount: nat -> int, cfg: Config, output: seq<byte>): seq<byte> {
    restore + Flatten(snapshot[..Taken(|restore|, Sizes(snapshot), amount, cfg, 0)]) + output
  }

  /** The relay's part: the line of an attached client. */
  lemma {:induction false} AttachedLine(restore: seq<byte>, snapshot: seq<seq<byte>>, amount: nat -> int, armed: set<nat>,
                                        steps: seq<Step>, cfg: Config)
    requires var s := Attached(restore, snapshot, amount, armed, cfg);
             CanRun(s, steps, cfg) && forall k :: 0 <= k < |steps| ==> !OvertakesAt(s, steps, k, cfg)
    ensures var u := RunSteps(Attached(restore, snapshot, amount, armed, cfg), steps, cfg);
            Line(u.r) == Without(Tag(Meant(restore, snapshot, amount, cfg, Output(steps)), 0), u.r.evicted)
  {
    hide Attached, RunSteps, CanRun, Initial, OvertakesAt, Line, Without, Tag, Flatten, Taken;
    var s := Attached(restore, snapshot, amount, armed, cfg);
    var got := restore + Flatten(snapshot[..Taken(|restore|, Sizes(snapshot), amount, cfg, 0)]);
    ReplayIsInitial(restore, snapshot, amount, armed, cfg);
    RunDeliversInOrder(s, steps, cfg);
    ReceivedIsOutput(s, steps, cfg);
    TagLength(got, 0);
    TagConcat(got, Output(steps), 0);
  }

  /**
   * From the PTY to the client. A session has read `before`; a client attaches and is replayed the title
   * sequence and the session's snapshot, with any backlog; then the relay runs. As long as no step overtakes,
   * the client's line is at every moment the title, the snapshot up to the chunk at which the replay met a
   * full write queue, and all later output, in order, minus exactly the bytes its own ring evicted. Of what
   * was read before it misses the chunks the session ring lost, the rest of the snapshot, and the carry.
   */
  lemma {:induction false} ClientSeesAllButLostAndCarry(
      title: seq<byte>, before: seq<seq<byte>>, maxBytes: nat,
      restore: seq<byte>, amount: nat -> int, armed: set<nat>, steps: seq<Step>, cfg: Config)
    requires var snapshot := Datas(SessionLaws.FeedAll(title, before, maxBytes).pipe.ring);
             var s := Attached(restore, snapshot, amount, armed, cfg);
             CanRun(s, steps, cfg) && forall k :: 0 <= k < |steps| ==> !OvertakesAt(s, steps, k, cfg)
    ensures var t := SessionLaws.FeedAll(title, before, maxBytes);
            var snapshot := Datas(t.pipe.ring);
            var u := RunSteps(Attached(restore, snapshot, amount, armed, cfg), steps, cfg);
            var n := Taken(|restore|, Sizes(snapshot), amount, cfg, 0);
            && |snapshot| <= |t.pushed|
            && Line(u.r) == Without(Tag(restore + Flatten(snapshot[..n]) + Output(steps), 0), u.r.evicted)
            && Flatten(before) == Flatten(SessionLaws.Chunks(t.pushed)[..|t.pushed| - |snapshot|])
                                  + Flatten(snapshot[..n]) + Flatten(snapshot[n..]) + t.pipe.carry
  {
    hide SessionLaws.FeedAll, Attached, RunSteps, CanRun, Line, Without, OvertakesAt, Tag;
    var t := SessionLaws.FeedAll(title, before, maxBytes);
    var snapshot := Datas(t.pipe.ring);
    var n := Taken(|restore|, Sizes(snapshot), amount, cfg, 0);
    AttachedLine(restore, snapshot, amount, armed, steps, cfg);
    SessionLaws.OutputConservation(title, before, maxBytes);
    hide Fits, Taken, Flatten;
    FlattenSplit(snapshot, n);
    Regroup(Flatten(SessionLaws.Chunks(t.pushed)[..|t.pushed| - |snapshot|]), Flatten(snapshot[..n]),
            Flatten(snapshot[n..]), t.pipe.carry);
  }

  lemma FlattenSplit<T>(chunks: seq<seq<T>>, n: nat)
    requires n <= |chunks|
    ensures Flatten(chunks) == Flatten(chunks[..n]) + Flatten(chunks[n..])
  {
    assert chunks == chunks[..n] + chunks[n..];
    FlattenConcat(chunks[..n], chunks[n..]);
  }

  lemma Regroup<T>(a: seq<T>, b: seq<T>, c: seq<T>, d: seq<T>)
    ensures a + ((b + c) + d) == a + b + c + d
  {
  }
}
