/** When an incomplete escape sequence reaches the ring: exactly when it is too long to wait any longer. */
module SessionFlush {
  import opened Bytes
  import opened Stream
  import opened StreamLaws
  import opened RingBuffer
  import opened Session
  import opened SessionLaws

  // ---- only long chunks end inside a sequence ----

  lemma PushesUnfold(title: seq<byte>, received: seq<seq<byte>>, maxBytes: nat)
    requires received != []
    ensures var n := |received| - 1;
            var t := FeedAll(title, received[..n], maxBytes);
            var push := Route(t.pipe.carry, received[n], CleanLength(t.pipe.parser, received[n])).0;
            && FeedAll(title, received, maxBytes).pushed == (if push == None then t.pushed else t.pushed + [push.value])
            && FeedAll(title, received, maxBytes).pipe.carry
               == Route(t.pipe.carry, received[n], CleanLength(t.pipe.parser, received[n])).1
  {
    hide FeedTrace, Route, CleanLength;
    var n := |received| - 1;
    FeedTraceParts(FeedAll(title, received[..n], maxBytes), received[n], maxBytes);
  }

  predicate ForcedAreLong(pushed: seq<Push>) {
    forall i :: 0 <= i < |pushed| && pushed[i].forced ==> |pushed[i].chunk| >= 4096
  }

  lemma RouteForcesLong(carry: seq<byte>, data: seq<byte>, clean: nat)
    requires clean <= |data|
    ensures var push := Route(carry, data, clean).0;
            push != None && push.value.forced ==> push.value.chunk == carry && |carry| >= 4096
  {
  }

  lemma ForcedSnoc(pushed: seq<Push>, p: Push)
    requires ForcedAreLong(pushed) && (p.forced ==> |p.chunk| >= 4096)
    ensures ForcedAreLong(pushed + [p])
  {
  }

  lemma NoPushes(title: seq<byte>, maxBytes: nat)
    ensures FeedAll(title, [], maxBytes).pushed == [] && FeedAll(title, [], maxBytes).pipe.carry == []
  {
  }

  lemma {:induction false} RunForcesLong(title: seq<byte>, received: seq<seq<byte>>, maxBytes: nat)
    ensures ForcedAreLong(FeedAll(title, received, maxBytes).pushed)
  {
    if received == [] {
      NoPushes(title, maxBytes);
    } else {
      var n := |received| - 1;
      hide *;
      var t := FeedAll(title, received[..n], maxBytes);
      RunForcesLong(title, received[..n], maxBytes);
      PushesUnfold(title, received, maxBytes);
      CleanFacts(t.pipe.parser, received[n]);
      RouteForcesLong(t.pipe.carry, received[n], CleanLength(t.pipe.parser, received[n]));
      var push := Route(t.pipe.carry, received[n], CleanLength(t.pipe.parser, received[n])).0;
      if push != None {
        ForcedSnoc(t.pushed, push.value);
      }
    }
  }

  /** Where the automaton stands behind the first i pushed chunks. */
  function StandsAt(pushed: seq<Push>, i: nat): VT
    requires i <= |pushed|
  {
    Run(Fresh, Flatten(Chunks(pushed[..i]))).state.vt
  }

  lemma StandsInGround(title: seq<byte>, received: seq<seq<byte>>, maxBytes: nat, i: nat)
    requires i <= |FeedAll(title, received, maxBytes).pushed|
    ensures var pushed := FeedAll(title, received, maxBytes).pushed;
            StandsAt(pushed, i) == Ground <==> i == 0 || !pushed[i - 1].forced
  {
    InvariantHolds(title, received, maxBytes);
    hide FeedAll, Run, Flatten, Evict;
    assert FollowsCleanPush(FeedAll(title, received, maxBytes).pushed, i)
      <==> StateBefore(FeedAll(title, received, maxBytes).pushed, i).vt == Ground;
  }

  /** In every run, a pushed chunk behind which the automaton is not in ground has at least 4096 bytes. */
  lemma {:induction false} OnlyLongChunksEndInside(title: seq<byte>, received: seq<seq<byte>>, maxBytes: nat, i: nat)
    requires i < |FeedAll(title, received, maxBytes).pushed|
    requires StandsAt(FeedAll(title, received, maxBytes).pushed, i + 1) != Ground
    ensures |FeedAll(title, received, maxBytes).pushed[i].chunk| >= 4096
  {
    hide FeedAll, StandsAt;
    RunForcesLong(title, received, maxBytes);
    StandsInGround(title, received, maxBytes, i + 1);
  }

  // ---- exactly when that happens ----

  /** How many bytes have come in since the automaton was last in ground. */
  function Waiting(bytes: seq<byte>): nat {
    |bytes| - CleanLength(Fresh, bytes)
  }

  /** Read k is not empty and does not reach ground, and 4096 bytes or more are waiting for that already. */
  predicate Overlong(received: seq<seq<byte>>, k: nat)
    requires k < |received|
  {
    var bytes := Flatten(received[..k]);
    received[k] != [] && CleanLength(Run(Fresh, bytes).state, received[k]) == 0 && Waiting(bytes) >= 4096
  }

  predicate NoneForced(pushed: seq<Push>) {
    forall i :: 0 <= i < |pushed| ==> !pushed[i].forced
  }

  predicate NeverOverlong(received: seq<seq<byte>>) {
    forall k :: 0 <= k < |received| ==> !Overlong(received, k)
  }

  lemma OverlongPrefix(received: seq<seq<byte>>)
    requires received != []
    ensures var n := |received| - 1;
            NeverOverlong(received) <==> NeverOverlong(received[..n]) && !Overlong(received, n)
  {
    hide Flatten, Run, CleanLength, Waiting;
    var n := |received| - 1;
    forall k | 0 <= k < n ensures Overlong(received[..n], k) == Overlong(received, k) {
      assert received[..n][..k] == received[..k];
    }
  }

  lemma OverlongIs(received: seq<seq<byte>>, k: nat)
    requires k < |received|
    ensures var bytes := Flatten(received[..k]);
            Overlong(received, k) <==>
              received[k] != [] && CleanLength(Run(Fresh, bytes).state, received[k]) == 0 && Waiting(bytes) >= 4096
  {
  }

  lemma NoneForcedSnoc(pushed: seq<Push>, p: Push)
    ensures NoneForced(pushed + [p]) <==> NoneForced(pushed) && !p.forced
  {
    assert (pushed + [p])[|pushed|] == p;
    assert forall i | 0 <= i < |pushed| :: (pushed + [p])[i] == pushed[i];
  }

  lemma WaitingGrows(bytes: seq<byte>, data: seq<byte>)
    ensures var clean := CleanLength(Run(Fresh, bytes).state, data);
            && clean <= |data|
            && Waiting(bytes + data) == if clean > 0 then |data| - clean else Waiting(bytes) + |data|
    ensures Waiting([]) == 0
  {
    hide Run, CleanLength;
    CleanLengthConcat(Fresh, bytes, data);
  }

  lemma RouteWaits(carry: seq<byte>, data: seq<byte>, clean: nat)
    requires clean <= |data|
    ensures var (push, rest) := Route(carry, data, clean);
            && (push != None && push.value.forced <==> data != [] && clean == 0 && |carry| >= 4096)
            && (push == None || !push.value.forced ==> |rest| == if clean > 0 then |data| - clean else |carry| + |data|)
  {
  }

  lemma FlattenLast(received: seq<seq<byte>>)
    requires received != []
    ensures Flatten(received) == Flatten(received[..|received| - 1]) + received[|received| - 1]
  {
  }

  /** As long as no chunk was forced, exactly the waiting bytes are carried. */
  lemma {:induction false} ForcedExactly(title: seq<byte>, received: seq<seq<byte>>, maxBytes: nat)
    ensures var t := FeedAll(title, received, maxBytes);
            && (NoneForced(t.pushed) <==> NeverOverlong(received))
            && (NoneForced(t.pushed) ==> |t.pipe.carry| == Waiting(Flatten(received)))
  {
    if received == [] {
      NoPushes(title, maxBytes);
      WaitingGrows([], []);
    } else {
      var n := |received| - 1;
      hide *;
      var t, data := FeedAll(title, received[..n], maxBytes), received[n];
      var clean := CleanLength(t.pipe.parser, data);
      ForcedExactly(title, received[..n], maxBytes);
      PushesUnfold(title, received, maxBytes);
      ParserOfStream(title, received[..n], maxBytes);
      WaitingGrows(Flatten(received[..n]), data);
      RouteWaits(t.pipe.carry, data, clean);
      OverlongPrefix(received);
      OverlongIs(received, n);
      FlattenLast(received);
      var push := Route(t.pipe.carry, data, clean).0;
      if push != None {
        NoneForcedSnoc(t.pushed, push.value);
      }
    }
  }

  /**
   * In every run: all pushed chunks end in ground if and only if no non-empty read that reaches no ground comes
   * when 4096 or more bytes are waiting for ground.
   */
  lemma {:induction false} PushesEndInGroundExactly(title: seq<byte>, received: seq<seq<byte>>, maxBytes: nat)
    ensures var pushed := FeedAll(title, received, maxBytes).pushed;
            (forall i :: 0 <= i <= |pushed| ==> StandsAt(pushed, i) == Ground) <==> NeverOverlong(received)
  {
    hide FeedAll, StandsAt, NeverOverlong;
    var pushed := FeedAll(title, received, maxBytes).pushed;
    ForcedExactly(title, received, maxBytes);
    forall i | 0 <= i <= |pushed| ensures StandsAt(pushed, i) == Ground <==> i == 0 || !pushed[i - 1].forced {
      StandsInGround(title, received, maxBytes, i);
    }
    if !NoneForced(pushed) {
      var i :| 0 <= i < |pushed| && pushed[i].forced;
      assert StandsAt(pushed, i + 1) != Ground;
    }
  }

  /**
   * In particular, if fewer than 4096 bytes ever wait for ground, every snapshot replays exactly: followed by
   * the carry it makes a fresh parser perform the callbacks made live for its bytes, and brings it to the live
   * automaton state.
   */
  lemma {:induction false} ShortWaitsReplayExactly(title: seq<byte>, received: seq<seq<byte>>, maxBytes: nat)
    requires forall k :: 0 <= k < |received| ==> Waiting(Flatten(received[..k])) < 4096
    ensures var t := FeedAll(title, received, maxBytes);
            && |t.pipe.ring| <= |t.pushed|
            && (forall i :: 0 <= i <= |t.pushed| ==> StandsAt(t.pushed, i) == Ground)
            && var lost := Flatten(Chunks(t.pushed)[..|t.pushed| - |t.pipe.ring|]);
               var replay := Run(Fresh, Flatten(Datas(t.pipe.ring)) + t.pipe.carry);
               && GroundAfter(Fresh, lost)
               && Run(Fresh, Flatten(received)).events == Run(Fresh, lost).events + replay.events
               && replay.state.vt == t.pipe.parser.vt
  {
    forall k | 0 <= k < |received| ensures !Overlong(received, k) {
    }
    hide FeedAll, StandsAt, Run, Flatten, Waiting, Overlong;
    var t := FeedAll(title, received, maxBytes);
    SnapshotReplay(title, received, maxBytes);
    PushesEndInGroundExactly(title, received, maxBytes);
    LastLostIsClean(title, received, maxBytes, |t.pushed| - |t.pipe.ring|);
  }

  lemma LastLostIsClean(title: seq<byte>, received: seq<seq<byte>>, maxBytes: nat, k: nat)
    requires k <= |FeedAll(title, received, maxBytes).pushed|
    requires StandsAt(FeedAll(title, received, maxBytes).pushed, k) == Ground
    ensures FollowsCleanPush(FeedAll(title, received, maxBytes).pushed, k)
  {
    hide FeedAll, StandsAt;
    StandsInGround(title, received, maxBytes, k);
  }
}
