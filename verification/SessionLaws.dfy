/** Whole runs of the session output path: conservation, replay cleanliness and the terminal view. */
module SessionLaws {
  import opened Bytes
  import opened Stream
  import opened StreamLaws
  import opened RingBuffer
  import opened Session
  import opened Restore

  // ---- runs ----

  /** The output path after a sequence of OnData calls, and every chunk it handed to the ring. */
  datatype Trace = Trace(pipe: Pipe, pushed: seq<Push>)

  function Start(title: seq<byte>): Trace {
    Trace(Pipe(Fresh, [], [], View({}, title)), [])
  }

  function FeedTrace(t: Trace, data: seq<byte>, maxBytes: nat): Trace {
    var (push, _) := Route(t.pipe.carry, data, CleanLength(t.pipe.parser, data));
    Trace(Feed(t.pipe, data, maxBytes), if push == None then t.pushed else t.pushed + [push.value])
  }

  function FeedAll(title: seq<byte>, received: seq<seq<byte>>, maxBytes: nat): Trace {
    if received == [] then Start(title)
    else FeedTrace(FeedAll(title, received[..|received| - 1], maxBytes), received[|received| - 1], maxBytes)
  }

  function Chunks(pushed: seq<Push>): seq<seq<byte>> {
    seq(|pushed|, i requires 0 <= i < |pushed| => pushed[i].chunk)
  }

  function Entries(pushed: seq<Push>): seq<Entry<byte>> {
    seq(|pushed|, i requires 0 <= i < |pushed| => Entry(pushed[i].chunk, |pushed[i].chunk|))
  }

  // ---- eviction over a whole run ----

  /** Evicting after every push leaves what a single eviction at the end would. */
  lemma {:induction false} EvictAbsorbs<T>(es: seq<Entry<T>>, e: Entry<T>, maxBytes: nat)
    ensures Evict(Evict(es, maxBytes) + [e], maxBytes) == Evict(es + [e], maxBytes)
  {
    if !Fits(es, maxBytes) && |es| > 1 {
      TotalConcat(es, [e]);
      assert (es + [e])[1..] == es[1..] + [e];
      EvictAbsorbs(es[1..], e, maxBytes);
    }
  }

  // ---- the invariant of every run ----

  /** Where the automaton stands after the first i pushed chunks. */
  function StateBefore(pushed: seq<Push>, i: nat): State
    requires i <= |pushed|
  {
    Run(Fresh, Flatten(Chunks(pushed[..i]))).state
  }

  /** Chunk i of the pushed ones is the first, or follows one that was not a forced flush. */
  predicate FollowsCleanPush(pushed: seq<Push>, i: nat)
    requires i <= |pushed|
  {
    i == 0 || !pushed[i - 1].forced
  }

  /** Between two pushed chunks the automaton is in ground exactly if the first of them was no forced flush. */
  ghost predicate Boundaries(pushed: seq<Push>) {
    forall i :: 0 <= i <= |pushed| ==> (FollowsCleanPush(pushed, i) <==> StateBefore(pushed, i).vt == Ground)
  }

  ghost predicate Invariant(t: Trace, received: seq<byte>, maxBytes: nat) {
    && t.pipe.parser == Run(Fresh, received).state
    && received == Flatten(Chunks(t.pushed)) + t.pipe.carry
    && (t.pipe.carry == [] <==> t.pipe.parser.vt == Ground)
    && t.pipe.ring == Evict(Entries(t.pushed), maxBytes)
    && Boundaries(t.pushed)
  }

  lemma ChunksSnoc(pushed: seq<Push>, p: Push)
    ensures Flatten(Chunks(pushed + [p])) == Flatten(Chunks(pushed)) + p.chunk
    ensures Entries(pushed + [p]) == Entries(pushed) + [Entry(p.chunk, |p.chunk|)]
  {
    assert Chunks(pushed + [p]) == Chunks(pushed) + [p.chunk];
    assert (Chunks(pushed) + [p.chunk])[..|pushed|] == Chunks(pushed);
  }

  /** The two ways OnData can leave the carry: it is empty exactly in ground, and nothing is lost. */
  lemma RouteKeepsCarry(s: State, carry: seq<byte>, data: seq<byte>)
    requires carry == [] <==> s.vt == Ground
    ensures var (push, carry') := Route(carry, data, CleanLength(s, data));
            && carry + data == (if push == None then [] else push.value.chunk) + carry'
            && (carry' == [] <==> Run(s, data).state.vt == Ground)
            && (push != None ==> push.value.chunk != [] && push.value.chunk <= carry + data)
            && (push != None && !push.value.forced ==>
                  var n := CleanLength(s, data);
                  n > 0 && push.value.chunk == carry + data[..n] && GroundAfter(s, data[..n]))
            && (push != None && push.value.forced ==> push.value.chunk == carry && s.vt != Ground)
  {
    CleanFacts(s, data);
    hide Run, CleanLength, GroundAfter;
    var n := CleanLength(s, data);
    if data == [] {
      assert carry + data == carry;
    } else if n > 0 {
      assert carry + data == (carry + data[..n]) + data[n..];
    } else {
      assert carry + data == [] + (carry + data);
    }
  }

  /** Ground is reached at the clean length and, past it, not again. */
  lemma CleanFacts(s: State, data: seq<byte>)
    ensures var n := CleanLength(s, data);
            && n <= |data|
            && (n > 0 ==> GroundAfter(s, data[..n]))
            && (n < |data| ==> Run(s, data).state.vt != Ground)
            && (n == |data| > 0 ==> Run(s, data).state.vt == Ground)
    ensures Run(s, []).state == s
  {
    hide CleanLength;
    RunNil(s);
    hide Run;
    assert data[..|data|] == data;
  }

  lemma StateBeforePrefix(pushed: seq<Push>, p: Push)
    ensures var all := pushed + [p];
            && (forall i :: 0 <= i <= |pushed| ==> StateBefore(all, i) == StateBefore(pushed, i))
            && (forall i :: 0 <= i <= |pushed| ==> FollowsCleanPush(all, i) == FollowsCleanPush(pushed, i))
            && StateBefore(all, |all|) == Run(Fresh, Flatten(Chunks(pushed)) + p.chunk).state
            && FollowsCleanPush(all, |all|) == !p.forced
  {
    hide Run, Flatten, Chunks;
    var all := pushed + [p];
    assert forall i | 0 <= i <= |pushed| :: all[..i] == pushed[..i];
    assert all[..|all|] == all;
    ChunksSnoc(pushed, p);
  }

  lemma BoundariesSnoc(pushed: seq<Push>, p: Push)
    requires Boundaries(pushed)
    requires Run(Fresh, Flatten(Chunks(pushed)) + p.chunk).state.vt == Ground <==> !p.forced
    ensures Boundaries(pushed + [p])
  {
    hide StateBefore, FollowsCleanPush, Run, Flatten, Chunks;
    StateBeforePrefix(pushed, p);
  }

  lemma GroundAfterIs(s: State, buf: seq<byte>)
    ensures GroundAfter(s, buf) <==> Run(s, buf).state.vt == Ground
  {
  }

  /** A clean push ends in ground, a forced flush does not. */
  lemma PushBoundary(flat: seq<byte>, carry: seq<byte>, data: seq<byte>)
    requires carry == [] <==> Run(Fresh, flat + carry).state.vt == Ground
    ensures var s := Run(Fresh, flat + carry).state;
            var push := Route(carry, data, CleanLength(s, data)).0;
            push != None ==> (Run(Fresh, flat + push.value.chunk).state.vt == Ground <==> !push.value.forced)
  {
    hide *;
    var s := Run(Fresh, flat + carry).state;
    var n := CleanLength(s, data);
    CleanFacts(s, data);
    RouteKeepsCarry(s, carry, data);
    RunConcat(Fresh, flat + carry, data[..n]);
    Regroup(flat, carry, data[..n]);
    GroundAfterIs(s, data[..n]);
  }

  lemma Regroup<T>(a: seq<T>, b: seq<T>, c: seq<T>)
    ensures a + b + c == a + (b + c)
  {
  }

  /** What a call does to a trace, part by part. */
  lemma FeedTraceParts(t: Trace, data: seq<byte>, maxBytes: nat)
    ensures var u := FeedTrace(t, data, maxBytes);
            var route := Route(t.pipe.carry, data, CleanLength(t.pipe.parser, data));
            && u.pipe.parser == Run(t.pipe.parser, data).state && u.pipe.carry == route.1
            && u.pushed == (if route.0 == None then t.pushed else t.pushed + [route.0.value])
            && u.pipe.ring == (if route.0 == None then t.pipe.ring
                               else Evict(t.pipe.ring + [Entry(route.0.value.chunk, |route.0.value.chunk|)], maxBytes))
  {
    hide Run, CleanLength, Evict, Route, ApplyAll;
  }

  lemma InvariantParts(t: Trace, received: seq<byte>, maxBytes: nat)
    ensures Invariant(t, received, maxBytes) <==>
            && t.pipe.parser == Run(Fresh, received).state
            && received == Flatten(Chunks(t.pushed)) + t.pipe.carry
            && (t.pipe.carry == [] <==> t.pipe.parser.vt == Ground)
            && t.pipe.ring == Evict(Entries(t.pushed), maxBytes)
            && Boundaries(t.pushed)
  {
  }

  lemma InvariantStep(t: Trace, received: seq<byte>, data: seq<byte>, maxBytes: nat)
    requires Invariant(t, received, maxBytes)
    ensures Invariant(FeedTrace(t, data, maxBytes), received + data, maxBytes)
  {
    hide *;
    var s, carry, flat := t.pipe.parser, t.pipe.carry, Flatten(Chunks(t.pushed));
    InvariantParts(t, received, maxBytes);
    CleanFacts(s, data);
    RunConcat(Fresh, received, data);
    RouteKeepsCarry(s, carry, data);
    FeedTraceParts(t, data, maxBytes);
    Regroup(flat, carry, data);
    var (push, carry') := Route(carry, data, CleanLength(s, data));
    if push == None {
      assert [] + carry' == carry';
    } else {
      var p := push.value;
      Regroup(flat, p.chunk, carry');
      ChunksSnoc(t.pushed, p);
      EvictAbsorbs(Entries(t.pushed), Entry(p.chunk, |p.chunk|), maxBytes);
      PushBoundary(flat, carry, data);
      BoundariesSnoc(t.pushed, p);
    }
    InvariantParts(FeedTrace(t, data, maxBytes), received + data, maxBytes);
  }

  lemma {:induction false} InvariantHolds(title: seq<byte>, received: seq<seq<byte>>, maxBytes: nat)
    ensures Invariant(FeedAll(title, received, maxBytes), Flatten(received), maxBytes)
  {
    if received == [] {
      RunNil(Fresh);
    } else {
      var n := |received| - 1;
      InvariantHolds(title, received[..n], maxBytes);
      InvariantStep(FeedAll(title, received[..n], maxBytes), Flatten(received[..n]), received[n], maxBytes);
    }
  }

  // ---- conservation ----

  lemma DatasOfEntries(pushed: seq<Push>, k: nat)
    requires k <= |pushed|
    ensures |Chunks(pushed)| == |Entries(pushed)| == |pushed|
    ensures Datas(Entries(pushed)[k..]) == Chunks(pushed[k..]) == Chunks(pushed)[k..]
  {
  }

  /**
   * Output conservation. At every point of every run the retained snapshot followed by the carry is what
   * remains of the received bytes after losing the k oldest pushed chunks; those are lost only because
   * no longer suffix of the pushed chunks fits the ring.
   */
  lemma {:induction false} OutputConservation(title: seq<byte>, received: seq<seq<byte>>, maxBytes: nat)
    ensures Conserved(FeedAll(title, received, maxBytes), Flatten(received), maxBytes)
  {
    InvariantHolds(title, received, maxBytes);
    hide FeedAll;
    InvariantConserves(FeedAll(title, received, maxBytes), Flatten(received), maxBytes);
  }

  ghost predicate Conserved(t: Trace, received: seq<byte>, maxBytes: nat) {
    var k := |t.pushed| - |t.pipe.ring|;
    && 0 <= k
    && Datas(t.pipe.ring) == Chunks(t.pushed)[k..]
    && received == Flatten(Chunks(t.pushed)[..k]) + (Flatten(Datas(t.pipe.ring)) + t.pipe.carry)
    && (t.pushed != [] ==>
          && k < |t.pushed|
          && (Fits(Entries(t.pushed)[k..], maxBytes) || k == |t.pushed| - 1)
          && (forall j :: 0 <= j < k ==> !Fits(Entries(t.pushed)[j..], maxBytes)))
  }

  lemma RingIsSuffix(pushed: seq<Push>, maxBytes: nat)
    ensures var ring := Evict(Entries(pushed), maxBytes);
            var k := |pushed| - |ring|;
            && 0 <= k && ring == Entries(pushed)[k..]
            && (pushed != [] ==>
                  && k < |pushed|
                  && (Fits(Entries(pushed)[k..], maxBytes) || k == |pushed| - 1)
                  && (forall j :: 0 <= j < k ==> !Fits(Entries(pushed)[j..], maxBytes)))
  {
    if pushed == [] {
      assert Evict(Entries(pushed), maxBytes) == Entries(pushed);
    } else {
      hide Fits, Evict;
      EvictIsLongestFittingSuffix(Entries(pushed), maxBytes);
    }
  }

  lemma FlattenCut(chunks: seq<seq<byte>>, k: nat)
    requires k <= |chunks|
    ensures Flatten(chunks) == Flatten(chunks[..k]) + Flatten(chunks[k..])
  {
    assert chunks == chunks[..k] + chunks[k..];
    FlattenConcat(chunks[..k], chunks[k..]);
  }

  /** The bytes of the chunks lost, of those in the ring, and of the carry. */
  lemma RingBytesConserved(t: Trace, received: seq<byte>, maxBytes: nat)
    requires Invariant(t, received, maxBytes) && |t.pipe.ring| <= |t.pushed|
    requires Datas(t.pipe.ring) == Chunks(t.pushed)[|t.pushed| - |t.pipe.ring|..]
    ensures received == Flatten(Chunks(t.pushed)[..|t.pushed| - |t.pipe.ring|])
                        + (Flatten(Datas(t.pipe.ring)) + t.pipe.carry)
  {
    hide Run, Flatten, Evict, Boundaries, Entries;
    var k := |t.pushed| - |t.pipe.ring|;
    FlattenCut(Chunks(t.pushed), k);
    Regroup(Flatten(Chunks(t.pushed)[..k]), Flatten(Chunks(t.pushed)[k..]), t.pipe.carry);
  }

  lemma RingIsEvicted(t: Trace, received: seq<byte>, maxBytes: nat)
    requires Invariant(t, received, maxBytes)
    ensures t.pipe.ring == Evict(Entries(t.pushed), maxBytes)
  {
    hide Run, Flatten, Evict, Boundaries, Entries, Chunks;
  }

  lemma InvariantConserves(t: Trace, received: seq<byte>, maxBytes: nat)
    requires Invariant(t, received, maxBytes)
    ensures Conserved(t, received, maxBytes)
  {
    hide Invariant, Flatten, Fits, Evict, Chunks, Entries, Datas;
    RingIsEvicted(t, received, maxBytes);
    RingIsSuffix(t.pushed, maxBytes);
    DatasOfEntries(t.pushed, |t.pushed| - |t.pipe.ring|);
    RingBytesConserved(t, received, maxBytes);
  }

  /** With reads of at most `read` bytes (8192 in the PTY reader) the carry stays below MAX_CARRY + read. */
  lemma {:induction false} CarryBounded(title: seq<byte>, received: seq<seq<byte>>, maxBytes: nat, read: nat)
    requires forall i :: 0 <= i < |received| ==> |received[i]| <= read
    ensures var carry := FeedAll(title, received, maxBytes).pipe.carry;
            |carry| == 0 || |carry| <= MAX_CARRY - 1 + read
  {
    hide Run, CleanLength, Evict;
    if received != [] {
      CarryBounded(title, received[..|received| - 1], maxBytes, read);
    }
  }

  // ---- replay cleanliness ----

  /** The callbacks made live for the bytes of pushed chunk i. */
  function LiveEvents(pushed: seq<Push>, i: nat): seq<Event>
    requires i < |pushed|
  {
    Run(StateBefore(pushed, i), pushed[i].chunk).events
  }

  /**
   * Every pushed chunk except a forced flush and the first push after one takes the automaton from
   * ground to ground, and a fresh parser fed that chunk alone makes exactly the live callbacks.
   */
  lemma {:induction false} ReplayCleanliness(title: seq<byte>, received: seq<seq<byte>>, maxBytes: nat, i: nat)
    requires var pushed := FeedAll(title, received, maxBytes).pushed;
             i < |pushed| && !pushed[i].forced && FollowsCleanPush(pushed, i)
    ensures var pushed := FeedAll(title, received, maxBytes).pushed;
            && StateBefore(pushed, i).vt == Ground && StateBefore(pushed, i + 1).vt == Ground
            && GroundAfter(Fresh, pushed[i].chunk)
            && Run(Fresh, pushed[i].chunk).events == LiveEvents(pushed, i)
  {
    hide Run, CleanLength, Evict;
    InvariantHolds(title, received, maxBytes);
    var pushed := FeedAll(title, received, maxBytes).pushed;
    assert FollowsCleanPush(pushed, i + 1);
    assert pushed[..i + 1] == pushed[..i] + [pushed[i]];
    ChunksSnoc(pushed[..i], pushed[i]);
    RunConcat(Fresh, Flatten(Chunks(pushed[..i])), pushed[i].chunk);
    GroundActsFresh(StateBefore(pushed, i), pushed[i].chunk);
  }

  /**
   * Replaying a whole snapshot: the live parser was in ground at its first retained byte if and only if the
   * last chunk evicted from the ring was no forced flush. In that case the retained bytes followed by the
   * carry make a fresh parser perform exactly the callbacks that were made live for them, and bring it to the
   * live parser's automaton state.
   */
  lemma {:induction false} SnapshotReplay(title: seq<byte>, received: seq<seq<byte>>, maxBytes: nat)
    ensures var t := FeedAll(title, received, maxBytes);
            && |t.pipe.ring| <= |t.pushed|
            && var k := |t.pushed| - |t.pipe.ring|;
               var lost := Flatten(Chunks(t.pushed)[..k]);
               var replay := Run(Fresh, Flatten(Datas(t.pipe.ring)) + t.pipe.carry);
               && (FollowsCleanPush(t.pushed, k) <==> GroundAfter(Fresh, lost))
               && (FollowsCleanPush(t.pushed, k) ==>
                     && Run(Fresh, Flatten(received)).events == Run(Fresh, lost).events + replay.events
                     && replay.state.vt == t.pipe.parser.vt)
  {
    hide Run, CleanLength, Evict;
    InvariantHolds(title, received, maxBytes);
    OutputConservation(title, received, maxBytes);
    var t := FeedAll(title, received, maxBytes);
    var k := |t.pushed| - |t.pipe.ring|;
    assert Chunks(t.pushed[..k]) == Chunks(t.pushed)[..k];
    var kept := Flatten(Datas(t.pipe.ring)) + t.pipe.carry;
    RunConcat(Fresh, Flatten(Chunks(t.pushed)[..k]), kept);
    if FollowsCleanPush(t.pushed, k) {
      GroundActsFresh(StateBefore(t.pushed, k), kept);
    }
  }

  // ---- the terminal view ----

  lemma {:induction false} ApplyAllConcat(v: View, a: seq<Event>, b: seq<Event>)
    ensures ApplyAll(v, a + b) == ApplyAll(ApplyAll(v, a), b)
  {
    if b == [] {
      assert a + b == a;
    } else {
      assert (a + b)[..|a + b| - 1] == a + b[..|b| - 1];
      ApplyAllConcat(v, a, b[..|b| - 1]);
    }
  }

  /** The view depends only on the received bytes, not on how the reads cut them. */
  lemma {:induction false} ViewOfStream(title: seq<byte>, received: seq<seq<byte>>, maxBytes: nat)
    ensures FeedAll(title, received, maxBytes).pipe.view
         == ApplyAll(View({}, title), Run(Fresh, Flatten(received)).events)
  {
    if received == [] {
      RunNil(Fresh);
    } else {
      var n := |received| - 1;
      var t := FeedAll(title, received[..n], maxBytes);
      ViewOfStream(title, received[..n], maxBytes);
      InvariantHolds(title, received[..n], maxBytes);
      hide Run, CleanLength, Evict, Apply, ApplyAll;
      RunConcat(Fresh, Flatten(received[..n]), received[n]);
      ApplyAllConcat(View({}, title), Run(Fresh, Flatten(received[..n])).events, Run(t.pipe.parser, received[n]).events);
    }
  }

  // ---- titles set by clients ----

  /** What reaches a session: PTY output, and titles that clients set. */
  datatype Input = Read(data: seq<byte>) | SetsTitle(text: seq<byte>)

  function Reads(inputs: seq<Input>): seq<seq<byte>> {
    if inputs == [] then []
    else
      var last := inputs[|inputs| - 1];
      Reads(inputs[..|inputs| - 1]) + if last.Read? then [last.data] else []
  }

  function FeedInput(t: Trace, input: Input, maxBytes: nat): Trace {
    match input
    case Read(data) => FeedTrace(t, data, maxBytes)
    case SetsTitle(text) => t.(pipe := t.pipe.(view := Apply(t.pipe.view, Title(text))))
  }

  function FeedInputs(title: seq<byte>, inputs: seq<Input>, maxBytes: nat): Trace {
    if inputs == [] then Start(title)
    else FeedInput(FeedInputs(title, inputs[..|inputs| - 1], maxBytes), inputs[|inputs| - 1], maxBytes)
  }

  /** The callbacks of all output and the titles of clients, in the order they happen. */
  function History(inputs: seq<Input>): seq<Event> {
    if inputs == [] then []
    else
      var before, last := inputs[..|inputs| - 1], inputs[|inputs| - 1];
      History(before)
      + if last.Read? then Run(Run(Fresh, Flatten(Reads(before))).state, last.data).events else [Title(last.text)]
  }

  lemma InputsUnfold(title: seq<byte>, inputs: seq<Input>, maxBytes: nat)
    requires inputs != []
    ensures var before, last := inputs[..|inputs| - 1], inputs[|inputs| - 1];
            && FeedInputs(title, inputs, maxBytes) == FeedInput(FeedInputs(title, before, maxBytes), last, maxBytes)
            && Reads(inputs) == Reads(before) + (if last.Read? then [last.data] else [])
            && History(inputs) == History(before) +
                 if last.Read? then Run(Run(Fresh, Flatten(Reads(before))).state, last.data).events else [Title(last.text)]
  {
    hide FeedInput, Run, Flatten;
  }

  lemma FeedSnoc(title: seq<byte>, received: seq<seq<byte>>, data: seq<byte>, maxBytes: nat)
    ensures FeedAll(title, received + [data], maxBytes) == FeedTrace(FeedAll(title, received, maxBytes), data, maxBytes)
    ensures Flatten(received + [data]) == Flatten(received) + data
  {
    hide FeedTrace;
    assert (received + [data])[..|received|] == received;
  }

  /** The view does not influence the rest of the output path. */
  lemma FeedViews(t: Trace, v: View, data: seq<byte>, maxBytes: nat)
    ensures FeedTrace(t.(pipe := t.pipe.(view := v)), data, maxBytes)
         == FeedTrace(t, data, maxBytes).(pipe := FeedTrace(t, data, maxBytes).pipe.(
              view := ApplyAll(v, Run(t.pipe.parser, data).events)))
  {
    hide Run, CleanLength, Evict, ApplyAll;
  }

  lemma ApplyOne(v: View, e: Event)
    ensures ApplyAll(v, [e]) == Apply(v, e) && ApplyAll(v, []) == v
  {
    assert [e][..0] == [];
  }

  /** A client's titles leave parser, carry and ring alone; the view is the fold of the history. */
  lemma {:induction false} ViewOfInputs(title: seq<byte>, inputs: seq<Input>, maxBytes: nat)
    ensures var t := FeedAll(title, Reads(inputs), maxBytes);
            FeedInputs(title, inputs, maxBytes)
            == t.(pipe := t.pipe.(view := ApplyAll(View({}, title), History(inputs))))
  {
    if inputs == [] {
      ApplyOne(View({}, title), Title([]));
    } else {
      hide *;
      var before, last := inputs[..|inputs| - 1], inputs[|inputs| - 1];
      var t := FeedAll(title, Reads(before), maxBytes);
      var v := ApplyAll(View({}, title), History(before));
      ViewOfInputs(title, before, maxBytes);
      InputsUnfold(title, inputs, maxBytes);
      match last {
        case Read(data) =>
          FeedSnoc(title, Reads(before), data, maxBytes);
          ParserOfStream(title, Reads(before), maxBytes);
          FeedViews(t, v, data, maxBytes);
          FeedRead(t.(pipe := t.pipe.(view := v)), data, maxBytes);
          ApplyAllConcat(View({}, title), History(before), Run(t.pipe.parser, data).events);
        case SetsTitle(text) =>
          assert Reads(before) + [] == Reads(before);
          FeedTitle(t.(pipe := t.pipe.(view := v)), text, maxBytes);
          ApplyAllConcat(View({}, title), History(before), [Title(text)]);
          ApplyOne(v, Title(text));
      }
    }
  }

  lemma FeedRead(t: Trace, data: seq<byte>, maxBytes: nat)
    ensures FeedInput(t, Read(data), maxBytes) == FeedTrace(t, data, maxBytes)
  {
  }

  lemma FeedTitle(t: Trace, text: seq<byte>, maxBytes: nat)
    ensures FeedInput(t, SetsTitle(text), maxBytes) == t.(pipe := t.pipe.(view := Apply(t.pipe.view, Title(text))))
  {
  }

  lemma ParserOfStream(title: seq<byte>, received: seq<seq<byte>>, maxBytes: nat)
    ensures FeedAll(title, received, maxBytes).pipe.parser == Run(Fresh, Flatten(received)).state
  {
    hide FeedAll, Run, Flatten;
    InvariantHolds(title, received, maxBytes);
  }

  lemma {:induction false} ModesIgnoreTitles(a: View, b: View, events: seq<Event>)
    requires a.modes == b.modes
    ensures ApplyAll(a, events).modes == ApplyAll(b, events).modes
  {
    if events != [] {
      ModesIgnoreTitles(a, b, events[..|events| - 1]);
    }
  }

  /** The modes depend only on the bytes received: not on how reads cut them, nor on the titles clients set. */
  lemma {:induction false} ModesOfStream(title: seq<byte>, inputs: seq<Input>)
    ensures ApplyAll(View({}, title), History(inputs)).modes
         == ApplyAll(View({}, title), Run(Fresh, Flatten(Reads(inputs))).events).modes
  {
    if inputs == [] {
      RunNil(Fresh);
    } else {
      hide *;
      var before, last := inputs[..|inputs| - 1], inputs[|inputs| - 1];
      var v0, stream := View({}, title), Run(Fresh, Flatten(Reads(before)));
      ModesOfStream(title, before);
      InputsUnfold(title, inputs, 1);
      match last {
        case Read(data) =>
          var made := Run(stream.state, data).events;
          FeedSnoc(title, Reads(before), data, 1);
          RunConcat(Fresh, Flatten(Reads(before)), data);
          ApplyAllConcat(v0, History(before), made);
          ApplyAllConcat(v0, stream.events, made);
          ModesIgnoreTitles(ApplyAll(v0, History(before)), ApplyAll(v0, stream.events), made);
        case SetsTitle(text) =>
          assert Reads(before) + [] == Reads(before);
          ApplyAllConcat(v0, History(before), [Title(text)]);
          ApplyOne(ApplyAll(v0, History(before)), Title(text));
          TitleKeepsModes(ApplyAll(v0, History(before)), text);
      }
    }
  }

  lemma TitleKeepsModes(v: View, text: seq<byte>)
    ensures Apply(v, Title(text)).modes == v.modes
  {
  }

  /** Event i sets mode m and no later one resets it. */
  ghost predicate StillSet(events: seq<Event>, m: seq<byte>, i: nat) {
    && i < |events| && events[i] == Mode(m, true)
    && forall j :: i < j < |events| ==> events[j] != Mode(m, false)
  }

  lemma StillSetSnoc(events: seq<Event>, m: seq<byte>, i: nat)
    requires events != []
    ensures var n := |events| - 1;
            StillSet(events, m, i) <==> if i == n then events[n] == Mode(m, true)
                                        else StillSet(events[..n], m, i) && events[n] != Mode(m, false)
  {
  }

  /** Last write wins: a mode is active iff it was set and not reset since. */
  lemma {:induction false} ModesAreLastToggles(title: seq<byte>, events: seq<Event>, m: seq<byte>)
    ensures m in ApplyAll(View({}, title), events).modes <==> exists i :: StillSet(events, m, i)
  {
    if events != [] {
      var n := |events| - 1;
      ModesAreLastToggles(title, events[..n], m);
      StillSetSnoc(events, m, n);
      if i :| StillSet(events, m, i) {
        StillSetSnoc(events, m, i);
      }
      if i :| StillSet(events[..n], m, i) {
        StillSetSnoc(events, m, i);
      }
    }
  }

  lemma {:induction false} LastTitle(v: View, events: seq<Event>, i: nat)
    requires i < |events| && events[i].Title?
    requires forall j :: i < j < |events| ==> !events[j].Title?
    ensures ApplyAll(v, events).title == events[i].text
  {
    if i < |events| - 1 {
      LastTitle(v, events[..|events| - 1], i);
    }
  }

  lemma {:induction false} NoTitle(v: View, events: seq<Event>)
    requires forall j :: 0 <= j < |events| ==> !events[j].Title?
    ensures ApplyAll(v, events).title == v.title
  {
    if events != [] {
      NoTitle(v, events[..|events| - 1]);
    }
  }

  /** The title is the last one that the output or a client set, and the initial one if there was none. */
  lemma {:induction false} TitleIsLastReported(title: seq<byte>, inputs: seq<Input>, maxBytes: nat)
    ensures var events := History(inputs);
            var now := FeedInputs(title, inputs, maxBytes).pipe.view.title;
            && (forall i :: 0 <= i < |events| && events[i].Title? && (forall j :: i < j < |events| ==> !events[j].Title?) ==>
                  now == events[i].text)
            && ((forall j :: 0 <= j < |events| ==> !events[j].Title?) ==> now == title)
  {
    hide *;
    var events := History(inputs);
    ViewOfInputs(title, inputs, maxBytes);
    forall i | 0 <= i < |events| && events[i].Title? && (forall j :: i < j < |events| ==> !events[j].Title?)
      ensures ApplyAll(View({}, title), events).title == events[i].text
    {
      LastTitle(View({}, title), events, i);
    }
    if forall j :: 0 <= j < |events| ==> !events[j].Title? {
      NoTitle(View({}, title), events);
    }
  }

  lemma {:induction false} ModesWereReported(title: seq<byte>, events: seq<Event>, m: seq<byte>)
    requires m in ApplyAll(View({}, title), events).modes
    ensures Mode(m, true) in events
  {
    if events[|events| - 1] != Mode(m, true) {
      ModesWereReported(title, events[..|events| - 1], m);
    }
  }

  /**
   * Restoring modes on attach: whatever the terminal printed before, the restore sequence for any listing of
   * its active modes ends in ground, and sets exactly those modes in that order if and only if the joined
   * listing fits the parameter cap.
   */
  lemma SessionModesRestore(title: seq<byte>, received: seq<seq<byte>>, maxBytes: nat, modes: seq<seq<byte>>)
    requires forall i :: 0 <= i < |modes| ==> modes[i] in FeedAll(title, received, maxBytes).pipe.view.modes
    ensures GroundAfter(Fresh, RestoreModes(modes))
    ensures Run(Fresh, RestoreModes(modes)).events == ModeEvents(modes, true) <==> |Join(modes)| <= MAX_PARAM
  {
    hide Run, FeedAll;
    ViewOfStream(title, received, maxBytes);
    RunReachable(Fresh, Flatten(received));
    forall i | 0 <= i < |modes| ensures modes[i] != [] && IsDigits(modes[i]) {
      ModesWereReported(title, Run(Fresh, Flatten(received)).events, modes[i]);
      assert WellFormedEvent(Mode(modes[i], true));
    }
    ModesRoundTrip(modes);
  }

  // ---- sessions with too many modes ----

  /** Output that sets the given modes one by one. */
  function Announce(modes: seq<seq<byte>>): seq<seq<byte>> {
    seq(|modes|, i requires 0 <= i < |modes| => RestoreModes([modes[i]]))
  }

  lemma AnnounceOne(s: State, m: seq<byte>)
    requires s.vt == Ground && m != [] && IsDigits(m) && |m| <= MAX_PARAM
    ensures var r := Run(s, RestoreModes([m])); r.state.vt == Ground && r.events == [Mode(m, true)]
  {
    assert Join([m]) == m;
    ModesRoundTrip([m]);
    GroundActsFresh(s, RestoreModes([m]));
    assert ModeEvents([m], true) == [Mode(m, true)];
  }

  lemma {:induction false} AnnounceAll(modes: seq<seq<byte>>)
    requires AreModes(modes) && forall i :: 0 <= i < |modes| ==> |modes[i]| <= MAX_PARAM
    ensures var r := Run(Fresh, Flatten(Announce(modes)));
            r.state.vt == Ground && r.events == ModeEvents(modes, true)
  {
    hide *;
    AnnounceUnfold(modes);
    if modes == [] {
      RunNil(Fresh);
    } else {
      var n := |modes| - 1;
      var before := Flatten(Announce(modes[..n]));
      AnnounceAll(modes[..n]);
      RunConcat(Fresh, before, RestoreModes([modes[n]]));
      AnnounceOne(Run(Fresh, before).state, modes[n]);
    }
  }

  lemma AnnounceUnfold(modes: seq<seq<byte>>)
    requires AreModes(modes)
    ensures modes == [] ==> Flatten(Announce(modes)) == [] && ModeEvents(modes, true) == [] && Fresh.vt == Ground
    ensures modes != [] ==>
              var n := |modes| - 1;
              && AreModes(modes[..n]) && modes[n] != [] && IsDigits(modes[n])
              && Flatten(Announce(modes)) == Flatten(Announce(modes[..n])) + RestoreModes([modes[n]])
              && ModeEvents(modes, true) == ModeEvents(modes[..n], true) + [Mode(modes[n], true)]
  {
    hide RestoreModes;
    if modes != [] {
      assert Announce(modes)[..|modes| - 1] == Announce(modes[..|modes| - 1]);
    }
  }

  /** Any modes of at most MAX_PARAM digits each can be active together. */
  lemma {:induction false} AnyModesActive(title: seq<byte>, modes: seq<seq<byte>>, maxBytes: nat)
    requires AreModes(modes) && forall i :: 0 <= i < |modes| ==> |modes[i]| <= MAX_PARAM
    ensures forall m :: m in FeedAll(title, Announce(modes), maxBytes).pipe.view.modes <==> m in modes
  {
    hide Run, FeedAll, Flatten, ApplyAll, Announce;
    var events := ModeEvents(modes, true);
    ViewOfStream(title, Announce(modes), maxBytes);
    AnnounceAll(modes);
    forall m ensures m in ApplyAll(View({}, title), events).modes <==> m in modes {
      ModesAreLastToggles(title, events, m);
      if m in modes {
        var i :| 0 <= i < |modes| && modes[i] == m;
        assert StillSet(events, m, i);
      }
    }
  }

  /** So there are sessions whose modes cannot be restored: two modes, one of them 256 digits long. */
  lemma {:induction false} TooManyModes(title: seq<byte>, maxBytes: nat, long: seq<byte>, short: seq<byte>)
    requires IsDigits(long) && |long| == MAX_PARAM && IsDigits(short) && 0 < |short| <= MAX_PARAM
    ensures var modes := [long, short];
            && (forall m :: m in FeedAll(title, Announce(modes), maxBytes).pipe.view.modes <==> m in modes)
            && Run(Fresh, RestoreModes(modes)).events != ModeEvents(modes, true)
  {
    var modes := [long, short];
    AnyModesActive(title, modes, maxBytes);
    assert modes[..1] == [long] && Join([long]) == long && |Join(modes)| > MAX_PARAM;
    ModesRoundTrip(modes);
  }
}
