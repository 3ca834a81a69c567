/**
 * The per-(client, session) relay of internal/wshandler/relay.go: coalescing, pause buffering,
 * throttling and replay. Bytes are of an arbitrary type T, so that runs can follow single bytes.
 */
module Relay {
  import opened Bytes
  import opened RingBuffer

  const COALESCE_WINDOW := 8_000_000        // nanoseconds
  const COALESCE_FLUSH_BYTES := 131072
  const ACTIVITY_INTERVAL := 1_000_000_000  // nanoseconds
  const REPLAY_BATCH := 32768

  /** Write-queue thresholds and the byte budget of a client ring. */
  datatype Config = Config(hwm: int, lwm: int, cwm: int, outputBufferMax: nat)

  /** An attachment, with what it has handed to the connection and what its ring has dropped. */
  datatype State<T> = State(
    paused: bool, throttled: bool,
    pausedBytes: nat, lastActSig: Option<int>,
    ring: seq<Entry<T>>,
    coalesce: seq<T>, timer: Option<nat>, lastFlush: Option<int>,
    sent: seq<T>, activity: seq<nat>, evicted: seq<T>)

  function Fresh<T>(): State<T> {
    State(false, false, 0, None, [], [], None, None, [], [], [])
  }

  /** The instant `last` is at least d before now; the zero time always is. */
  predicate Elapsed(last: Option<int>, now: int, d: int) {
    last == None || now - last.value >= d
  }

  function RingBytes<T>(ring: seq<Entry<T>>): seq<T> {
    Flatten(Datas(ring))
  }

  function PushChunk<T>(s: State<T>, chunk: seq<T>, max: nat): State<T> {
    var es := s.ring + [Entry(chunk, |chunk|)];
    var kept := Evict(es, max);
    s.(ring := kept, evicted := s.evicted + RingBytes(es[..|es| - EvictedTo(es, max)]))
  }

  /** How many entries eviction leaves. */
  function EvictedTo<T>(es: seq<Entry<T>>, max: nat): (n: nat)
    ensures n == |Evict(es, max)| <= |es|
    ensures Evict(es, max) == es[|es| - n..]
  {
    if es != [] then EvictIsLongestFittingSuffix(es, max); |Evict(es, max)| else 0
  }

  // ---- what each operation does ----

  function Flush<T>(s: State<T>, now: int, max: nat): State<T> {
    if s.coalesce == [] then s.(timer := None)
    else
      var idle := s.(coalesce := [], timer := None, lastFlush := Some(now));
      if !s.paused && !s.throttled then idle.(sent := s.sent + s.coalesce)
      else PushChunk(idle, s.coalesce, max)
  }

  predicate LeadingEdgeDue<T>(s: State<T>, now: int) {
    s.timer == None && s.coalesce == [] && Elapsed(s.lastFlush, now, COALESCE_WINDOW)
  }

  predicate FlushesAtOnce<T>(s: State<T>, data: seq<T>, now: int) {
    LeadingEdgeDue(s, now) || |s.coalesce + data| >= COALESCE_FLUSH_BYTES
  }

  function Heartbeat<T>(s: State<T>, n: nat, now: int): State<T> {
    if !s.paused then s
    else if Elapsed(s.lastActSig, now, ACTIVITY_INTERVAL) then
      s.(pausedBytes := 0, lastActSig := Some(now), activity := s.activity + [s.pausedBytes + n])
    else s.(pausedBytes := s.pausedBytes + n)
  }

  /** One chunk of PTY output; amount is the write queue's size when it arrives, id the next timer. */
  function OnPty<T>(s: State<T>, data: seq<T>, amount: int, now: int, id: nat, cfg: Config): State<T> {
    var s1 := if amount > cfg.hwm then s.(throttled := true) else s;
    if s1.paused || s1.throttled then
      Heartbeat(PushChunk(s1, data, cfg.outputBufferMax), |data|, now)
    else
      var s2 := s1.(coalesce := s1.coalesce + data);
      if FlushesAtOnce(s1, data, now) then Flush(s2.(timer := None), now, cfg.outputBufferMax)
      else if s2.timer == None then s2.(timer := Some(id))
      else s2
  }

  /** Drains the client ring; amount(i) is what the i-th look at the write queue's size finds. */
  function FlushClient<T>(s: State<T>, amount: nat -> int, i: nat, cfg: Config): State<T>
    decreases |s.ring|
  {
    if s.ring == [] then
      if amount(i) < cfg.lwm then s.(throttled := false) else s
    else if amount(i) > cfg.hwm then s.(throttled := true)
    else FlushClient(s.(ring := s.ring[1..], sent := s.sent + s.ring[0].data), amount, i + 1, cfg)
  }

  lemma FlushClientStep<T>(s: State<T>, amount: nat -> int, i: nat, cfg: Config)
    ensures FlushClient(s, amount, i, cfg) ==
            if s.ring == [] then
              if amount(i) < cfg.lwm then s.(throttled := false) else s
            else if amount(i) > cfg.hwm then s.(throttled := true)
            else FlushClient(s.(ring := s.ring[1..], sent := s.sent + s.ring[0].data), amount, i + 1, cfg)
  {
  }

  function Backpressure<T>(s: State<T>, amount: nat -> int, cfg: Config): State<T> {
    if amount(0) > cfg.cwm || amount(1) >= cfg.lwm || !s.throttled || s.paused then s
    else FlushClient(s, amount, 2, cfg)
  }

  function ResumeClear<T>(s: State<T>): State<T> {
    s.(paused := false, pausedBytes := 0, lastActSig := None)
  }

  /**
   * Replay of a snapshot from chunk k on, with the bytes of `batch` collected but not sent yet. A batch
   * over REPLAY_BATCH bytes that meets a full write queue goes to the ring and ends the replay.
   */
  function Replay<T>(s: State<T>, batch: seq<T>, chunks: seq<seq<T>>, k: nat, amount: nat -> int, i: nat, cfg: Config)
      : State<T>
    requires k <= |chunks|
    decreases |chunks| - k
  {
    if k == |chunks| then
      if batch == [] then s else SendOrHold(s, batch, amount(i), cfg)
    else
      var grown := batch + chunks[k];
      if |grown| <= REPLAY_BATCH then Replay(s, grown, chunks, k + 1, amount, i, cfg)
      else if amount(i) > cfg.hwm then SendOrHold(s, grown, amount(i), cfg)
      else Replay(SendOrHold(s, grown, amount(i), cfg), [], chunks, k + 1, amount, i + 1, cfg)
  }

  function SendOrHold<T>(s: State<T>, frame: seq<T>, amount: int, cfg: Config): State<T> {
    if amount > cfg.hwm then PushChunk(s.(throttled := true), frame, cfg.outputBufferMax)
    else s.(sent := s.sent + frame)
  }

  // ---- the attachment object ----

  class AttachState<T> {
    const cfg: Config
    const clientBuffer: Buffer<T>
    var isPaused: bool
    var isThrottled: bool
    var pausedBytes: nat
    var lastActSig: Option<int>
    var coalesceBuf: seq<T>
    var coalesceTimer: Option<nat>
    var lastFlush: Option<int>
    /** Payloads of the data and activity frames handed to the connection. */
    var sent: seq<T>
    var activity: seq<nat>
    ghost var evicted: seq<T>

    ghost predicate Valid()
      reads this, clientBuffer, clientBuffer.Repr
    {
      clientBuffer.Valid() && this !in clientBuffer.Repr && clientBuffer.maxBytes == cfg.outputBufferMax
    }

    ghost function Value(): State<T>
      reads this, clientBuffer
    {
      State(isPaused, isThrottled, pausedBytes, lastActSig, clientBuffer.Contents,
            coalesceBuf, coalesceTimer, lastFlush, sent, activity, evicted)
    }

    constructor (cfg: Config)
      requires cfg.outputBufferMax > 0
      ensures Valid() && fresh(clientBuffer.Repr) && this.cfg == cfg && Value() == Fresh()
    {
      this.cfg := cfg;
      clientBuffer := new Buffer<T>(cfg.outputBufferMax);
      isPaused, isThrottled, pausedBytes, lastActSig := false, false, 0, None;
      coalesceBuf, coalesceTimer, lastFlush := [], None, None;
      sent, activity, evicted := [], [], [];
    }

    method Buffer(chunk: seq<T>)
      requires Valid()
      modifies this`evicted, clientBuffer.Repr
      ensures Valid() && Value() == PushChunk(old(Value()), chunk, cfg.outputBufferMax)
    {
      hide Evict, Flatten;
      ghost var es := clientBuffer.Contents + [Entry(chunk, |chunk|)];
      evicted := evicted + RingBytes(es[..|es| - EvictedTo(es, clientBuffer.maxBytes)]);
      var _ := clientBuffer.Push(chunk, |chunk|);
    }

    method OnPtyData(data: seq<T>, amount: int, now: int, id: nat)
      requires Valid()
      modifies this, clientBuffer.Repr
      ensures Valid() && Value() == OnPty(old(Value()), data, amount, now, id, cfg)
    {
      hide Evict, Flatten, PushChunk, Flush, Heartbeat;
      if amount > cfg.hwm {
        isThrottled := true;
      }
      if isPaused || isThrottled {
        Buffer(data);
        NotePausedBytes(|data|, now);
        return;
      }
      var leading := coalesceTimer == None && |coalesceBuf| == 0
                     && (lastFlush == None || now - lastFlush.value >= COALESCE_WINDOW);
      coalesceBuf := coalesceBuf + data;
      if leading || |coalesceBuf| >= COALESCE_FLUSH_BYTES {
        coalesceTimer := None;
        FlushCoalesceLocked(now);
      } else if coalesceTimer == None {
        coalesceTimer := Some(id);
      }
    }

    /** The activity heartbeat of a paused attachment. */
    method NotePausedBytes(n: nat, now: int)
      requires Valid()
      modifies this
      ensures Valid() && Value() == Heartbeat(old(Value()), n, now)
    {
      if isPaused {
        pausedBytes := pausedBytes + n;
        if lastActSig == None || now - lastActSig.value >= ACTIVITY_INTERVAL {
          activity := activity + [pausedBytes];
          pausedBytes := 0;
          lastActSig := Some(now);
        }
      }
    }

    method FlushCoalesceLocked(now: int)
      requires Valid()
      modifies this, clientBuffer.Repr
      ensures Valid() && Value() == Flush(old(Value()), now, cfg.outputBufferMax)
    {
      hide Evict, Flatten, PushChunk;
      if |coalesceBuf| == 0 {
        coalesceTimer := None;
        return;
      }
      var chunk := coalesceBuf;
      coalesceBuf := [];
      coalesceTimer := None;
      lastFlush := Some(now);
      if !isPaused && !isThrottled {
        sent := sent + chunk;
      } else {
        Buffer(chunk);
      }
    }

    method FlushClientBufferLocked(amount: nat -> int, start: nat)
      requires Valid()
      modifies this, clientBuffer.Repr
      ensures Valid() && Value() == FlushClient(old(Value()), amount, start, cfg)
    {
      hide Evict, Flatten, Layout, Total, IsCapacity, Slot, FlushClient;
      var i := start;
      var n := clientBuffer.Len();
      while n > 0
        invariant Valid() && n == |clientBuffer.Contents|
        invariant clientBuffer.Repr == old(clientBuffer.Repr)
        invariant FlushClient(Value(), amount, i, cfg) == FlushClient(old(Value()), amount, start, cfg)
        decreases n
      {
        FlushClientStep(Value(), amount, i, cfg);
        if amount(i) > cfg.hwm {
          isThrottled := true;
          return;
        }
        var chunk := clientBuffer.Shift();
        sent := sent + chunk.value;
        i := i + 1;
        n := clientBuffer.Len();
      }
      FlushClientStep(Value(), amount, i, cfg);
      if amount(i) < cfg.lwm {
        isThrottled := false;
      }
    }

    /** Returns whether the connection must be closed for exceeding the limit. */
    method BackpressureCheck(amount: nat -> int) returns (close: bool)
      requires Valid()
      modifies this, clientBuffer.Repr
      ensures Valid() && Value() == Backpressure(old(Value()), amount, cfg)
      ensures close <==> amount(0) > cfg.cwm
    {
      hide FlushClient;
      close := amount(0) > cfg.cwm;
      if close || amount(1) >= cfg.lwm {
        return;
      }
      if isThrottled && !isPaused {
        FlushClientBufferLocked(amount, 2);
      }
    }

    /** Title restore sequence (empty for none) and snapshot for a fresh attachment. */
    method ReplayBuffer(title: seq<T>, chunks: seq<seq<T>>, amount: nat -> int)
      requires Valid()
      modifies this, clientBuffer.Repr
      ensures Valid() && Value() == Replay(old(Value()), title, chunks, 0, amount, 0, cfg)
    {
      hide Evict, Flatten, PushChunk;
      var batch := title;
      var looks := 0;
      var k := 0;
      while k < |chunks|
        invariant k <= |chunks| && Valid() && clientBuffer.Repr == old(clientBuffer.Repr)
        invariant Replay(Value(), batch, chunks, k, amount, looks, cfg)
               == Replay(old(Value()), title, chunks, 0, amount, 0, cfg)
      {
        batch := batch + chunks[k];
        if |batch| > REPLAY_BATCH {
          if amount(looks) > cfg.hwm {
            isThrottled := true;
            Buffer(batch);
            return;
          }
          sent := sent + batch;
          batch := [];
          looks := looks + 1;
        }
        k := k + 1;
      }
      if |batch| > 0 {
        if amount(looks) > cfg.hwm {
          isThrottled := true;
          Buffer(batch);
        } else {
          sent := sent + batch;
        }
      }
    }
  }
}
