/** The PTY output path of a session: internal/session/session.go, the OnData closure and its callbacks. */
module Session {
  import opened Bytes
  import opened Stream
  import opened RingBuffer

  const MAX_CARRY := 4096

  /** A chunk handed to the ring; forced marks the flush of an over-long carry. */
  datatype Push = Push(chunk: seq<byte>, forced: bool)

  /** Which chunk OnData pushes, if any, and what it carries over to the next call. */
  function Route(carry: seq<byte>, data: seq<byte>, clean: nat): (Option<Push>, seq<byte>)
    requires clean <= |data|
  {
    if clean > 0 then (Some(Push(carry + data[..clean], false)), data[clean..])
    else if data != [] && |carry| >= MAX_CARRY then (Some(Push(carry, true)), data)
    else (None, carry + data)
  }

  /** The session's view of the terminal, updated by the parser's callbacks. */
  datatype View = View(modes: set<seq<byte>>, title: seq<byte>)

  function Apply(v: View, e: Event): View {
    match e
    case Mode(m, isSet) => v.(modes := if isSet then v.modes + {m} else v.modes - {m})
    case Title(t) => v.(title := t)
  }

  function ApplyAll(v: View, events: seq<Event>): View {
    if events == [] then v else Apply(ApplyAll(v, events[..|events| - 1]), events[|events| - 1])
  }

  /** The whole state of the output path. */
  datatype Pipe = Pipe(parser: State, carry: seq<byte>, ring: seq<Entry<byte>>, view: View)

  function PushTo(ring: seq<Entry<byte>>, p: Option<Push>, maxBytes: nat): seq<Entry<byte>> {
    if p == None then ring else Evict(ring + [Entry(p.value.chunk, |p.value.chunk|)], maxBytes)
  }

  function Feed(p: Pipe, data: seq<byte>, maxBytes: nat): Pipe {
    var r := Run(p.parser, data);
    var (push, carry) := Route(p.carry, data, CleanLength(p.parser, data));
    Pipe(r.state, carry, PushTo(p.ring, push, maxBytes), ApplyAll(p.view, r.events))
  }

  class Session {
    const streamParser: Parser
    const outputBuffer: Buffer<byte>
    var activeModes: set<seq<byte>>
    var title: seq<byte>
    var carry: seq<byte>
    var destroyed: bool

    ghost predicate Valid()
      reads this, outputBuffer, outputBuffer.Repr
    {
      && outputBuffer.Valid()
      && this !in outputBuffer.Repr && streamParser !in outputBuffer.Repr
    }

    ghost function Value(): Pipe
      reads this, streamParser, outputBuffer
    {
      Pipe(streamParser.Value(), carry, outputBuffer.Contents, View(activeModes, title))
    }

    constructor (title: seq<byte>, outputBufferMax: nat)
      requires outputBufferMax > 0
      ensures Valid() && !destroyed
      ensures Value() == Pipe(Fresh, [], [], View({}, title)) && outputBuffer.maxBytes == outputBufferMax
    {
      streamParser := new Parser();
      outputBuffer := new Buffer<byte>(outputBufferMax);
      activeModes, this.title, carry, destroyed := {}, title, [], false;
    }

    /** Feeds one chunk of PTY output into the parser and the ring. */
    method OnData(data: seq<byte>)
      requires Valid()
      modifies this, streamParser, outputBuffer.Repr
      ensures Valid() && destroyed == old(destroyed)
      ensures Value() == if old(destroyed) then old(Value()) else Feed(old(Value()), data, outputBuffer.maxBytes)
    {
      hide Run, CleanLength, Evict, ApplyAll, PushTo;
      if destroyed {
        return;
      }
      var safe, calls := streamParser.Parse(data);
      Callbacks(calls);
      Rechunk(data, safe);
    }

    /** The part after the parser: what goes into the ring, and what is carried over. */
    method Rechunk(data: seq<byte>, safe: nat)
      requires Valid() && safe <= |data|
      modifies this`carry, outputBuffer.Repr
      ensures Valid()
      ensures var (push, rest) := Route(old(carry), data, safe);
              carry == rest && outputBuffer.Contents == PushTo(old(outputBuffer.Contents), push, outputBuffer.maxBytes)
    {
      hide Evict;
      if safe == 0 {
        if |data| > 0 {
          if |carry| >= MAX_CARRY {
            var flush := carry;
            carry := [];
            var _ := outputBuffer.Push(flush, |flush|);
          }
          carry := carry + data;
        }
        return;
      }
      var toPush;
      if |carry| > 0 {
        toPush := carry + data[..safe];
      } else {
        toPush := data[..safe];
      }
      assert toPush == carry + data[..safe];
      carry := data[safe..];
      if |toPush| > 0 {
        var _ := outputBuffer.Push(toPush, |toPush|);
      }
    }

    /** The title a client sends, which its handler has sanitised. */
    method SetTitle(title: seq<byte>)
      requires Valid()
      modifies this`title
      ensures Valid() && Value() == old(Value()).(view := Apply(old(Value()).view, Title(title)))
    {
      this.title := title;
    }

    /** The mode and title callbacks, in the order the parser made them. */
    method Callbacks(calls: seq<Event>)
      modifies this`activeModes, this`title
      ensures View(activeModes, title) == ApplyAll(old(View(activeModes, title)), calls)
    {
      for i := 0 to |calls|
        invariant View(activeModes, title) == ApplyAll(old(View(activeModes, title)), calls[..i])
      {
        assert calls[..i + 1][..i] == calls[..i];
        match calls[i] {
          case Mode(mode, isSet) =>
            if isSet {
              activeModes := activeModes + {mode};
            } else {
              activeModes := activeModes - {mode};
            }
          case Title(t) =>
            title := t;
        }
      }
      assert calls[..|calls|] == calls;
    }
  }
}
