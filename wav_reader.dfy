/** `bph_wav_load` as the loop it is: a cursor moved through a stream by
    `seek` and `read`, with the caller's callbacks notified as chunks are met.
    Each run is proved to deliver exactly the events, and return exactly the
    outcome, that WavLoad.Load gives for the same stream. */
module WavReader {
  import opened Binary
  import opened Riff
  import opened WavLoad

  /** The caller's stream behind the `read` and `seek` callbacks: a byte
      sequence and a read position, with the locations of all seeks asked of
      it so far. */
  class ByteSource {
    const bytes: seq<byte>
    var pos: nat
    ghost var seeks: seq<int>

    ghost predicate Valid()
      reads this
    {
      pos <= |bytes|
    }

    constructor (bytes: seq<byte>)
      ensures Valid() && this.bytes == bytes && pos == 0 && seeks == []
    {
      this.bytes := bytes;
      pos := 0;
      seeks := [];
    }

    /** Reads up to n bytes; fewer (none at the end) when the stream ends. */
    method Read(n: nat) returns (got: seq<byte>)
      requires Valid()
      modifies this
      ensures Valid()
      ensures got == Take(bytes, old(pos), n) && pos == old(pos) + |got|
      ensures seeks == old(seeks)
    {
      got := Take(bytes, pos, n);
      pos := pos + |got|;
    }

    /** Moves to an absolute location; fails, moving nowhere, past the end. */
    method Seek(location: int) returns (ok: bool)
      requires Valid()
      modifies this
      ensures Valid()
      ensures ok <==> 0 <= location <= |bytes|
      ensures pos == if ok then location else old(pos)
      ensures seeks == old(seeks) + [location]
    {
      seeks := seeks + [location];
      ok := 0 <= location <= |bytes|;
      if ok {
        pos := location;
      }
    }
  }

  /** The caller's header, data and error callbacks: each call is recorded,
      and the header and data callbacks answer from the policy. */
  class Listener {
    const policy: Policy
    var events: seq<Event>

    constructor (policy: Policy)
      ensures this.policy == policy && events == []
    {
      this.policy := policy;
      events := [];
    }

    method OnFormat(format: Format) returns (accept: bool)
      modifies this
      ensures accept == policy.acceptFormat(format)
      ensures events == old(events) + [FormatFound(format)]
    {
      events := events + [FormatFound(format)];
      accept := policy.acceptFormat(format);
    }

    method OnData(size: int) returns (accept: bool)
      modifies this
      ensures accept == policy.acceptData(size)
      ensures events == old(events) + [DataFound(size)]
    {
      events := events + [DataFound(size)];
      accept := policy.acceptData(size);
    }

    method OnError(message: Message)
      modifies this
      ensures events == old(events) + [ErrorReported(message)]
    {
      events := events + [ErrorReported(message)];
    }
  }

  /** The `switch` on the tag of a chunk whose header has just been read. */
  method HandleChunk(source: ByteSource, listener: Listener, chunk: ChunkHeader) returns (go: bool)
    requires source.Valid()
    modifies source, listener
    ensures source.Valid()
    ensures var step := Dispatch(source.bytes, listener.policy, old(source.pos), chunk);
      go == step.Continue? && listener.events == old(listener.events) + step.events
    ensures source.seeks == old(source.seeks)
    ensures source.pos == old(source.pos) +
      if chunk.id == FmtTag then |Take(source.bytes, old(source.pos), FmtBodySize)| else 0
  {
    if chunk.id == FmtTag {
      var body := source.Read(FmtBodySize);
      if |body| != FmtBodySize {
        listener.OnError(NoFmtBody);
        return false;
      }
      var fmt := ParseFmtBody(body);
      if fmt.formatTag != PcmFormat {
        listener.OnError(NotPcm);
        return false;
      }
      var accepted := listener.OnFormat(CallbackArgs(fmt));
      if !accepted {
        listener.OnError(FormatDeclined);
        return false;
      }
    } else if chunk.id == DataTag {
      var accepted := listener.OnData(chunk.size);
      if !accepted {
        listener.OnError(DataDeclined);
        return false;
      }
    }
    return true;
  }

  /** One turn of the chunk loop, after the seek to `cursor` succeeded: read
      the chunk header there and handle the chunk. `go` is false when the load
      fails; otherwise the loop goes on at `next`. */
  method VisitChunk(source: ByteSource, listener: Listener, cursor: int) returns (go: bool, next: int)
    requires source.Valid() && source.pos == cursor
    modifies source, listener
    ensures source.Valid()
    ensures var turn := ChunkTurn(source.bytes, listener.policy, cursor);
      go == turn.Go? && (go ==> next == turn.next) && listener.events == old(listener.events) + turn.events
    ensures source.seeks == old(source.seeks)
    ensures var header := Take(source.bytes, cursor, ChunkHeaderSize);
      source.pos == cursor + |header| +
        if |header| == ChunkHeaderSize && ParseChunkHeader(header).id == FmtTag
        then |Take(source.bytes, cursor + ChunkHeaderSize, FmtBodySize)| else 0
  {
    var header := source.Read(ChunkHeaderSize);
    if |header| != ChunkHeaderSize {
      listener.OnError(NoChunkHeader);
      return false, cursor;
    }
    var chunk := ParseChunkHeader(header);
    go := HandleChunk(source, listener, chunk);
    next := NextCursor(cursor, chunk.size);
  }

  /** The loop guard `i < 4 + riff.size && seek(i)`: the seek is asked for
      only when the cursor is below the bound. */
  method Guard(source: ByteSource, bound: int, cursor: int) returns (more: bool)
    requires source.Valid()
    modifies source
    ensures source.Valid()
    ensures more <==> BelowBound(cursor, bound) && cursor <= |source.bytes|
    ensures more ==> source.pos == cursor
    ensures source.seeks == old(source.seeks) + (if BelowBound(cursor, bound) then [cursor] else [])
  {
    more := BelowBound(cursor, bound);
    if more {
      more := source.Seek(cursor);
    }
  }

  /** Regrouping a trace: the loop appends each turn's events as it goes. */
  lemma Regroup(a: seq<Event>, b: seq<Event>, c: seq<Event>)
    ensures a + (b + c) == (a + b) + c
  {
  }

  /** Where the walk stops: past the bound or the stream, out of fuel, or at a
      turn that fails. */
  lemma WalkStops(bytes: seq<byte>, policy: Policy, bound: int, cursor: int, remaining: nat)
    ensures !BelowBound(cursor, bound) || cursor > |bytes| ==>
      Walk(bytes, policy, bound, cursor, remaining) == Run(Loaded, [])
    ensures BelowBound(cursor, bound) && cursor <= |bytes| && remaining == 0 ==>
      Walk(bytes, policy, bound, cursor, remaining) == Run(Unfinished, [])
    ensures BelowBound(cursor, bound) && cursor <= |bytes| && remaining > 0 && ChunkTurn(bytes, policy, cursor).Halt? ==>
      Walk(bytes, policy, bound, cursor, remaining) == Run(Failed, ChunkTurn(bytes, policy, cursor).events)
  {
    hide ChunkTurn;
  }

  /** A turn that goes on keeps the loop's account: the events delivered so
      far, followed by the rest of the walk, are the whole run's events. */
  lemma TurnKeepsAccount(bytes: seq<byte>, policy: Policy, bound: int, cursor: int, remaining: nat,
                         delivered: seq<Event>, whole: Run)
    requires BelowBound(cursor, bound) && cursor <= |bytes| && remaining > 0
    ensures var here := Walk(bytes, policy, bound, cursor, remaining);
      var turn := ChunkTurn(bytes, policy, cursor);
      turn.Go? && here.outcome == whole.outcome && delivered + here.events == whole.events ==>
        var rest := Walk(bytes, policy, bound, turn.next, remaining - 1);
        rest.outcome == whole.outcome && (delivered + turn.events) + rest.events == whole.events
  {
    hide ChunkTurn;
    var turn := ChunkTurn(bytes, policy, cursor);
    if turn.Go? {
      Regroup(delivered, turn.events, Walk(bytes, policy, bound, turn.next, remaining - 1).events);
    }
  }

  /** The chunk loop: from cursor `i`, while the cursor is below `bound` and
      the seek to it succeeds, read a chunk header there, handle the chunk and
      move the cursor past it. At most `fuel` chunk headers are read. */
  method ChunkLoop(source: ByteSource, listener: Listener, bound: int, i: int, fuel: nat) returns (outcome: Outcome)
    requires source.Valid()
    modifies source, listener
    ensures source.Valid()
    ensures var run := Walk(source.bytes, listener.policy, bound, i, fuel);
      outcome == run.outcome && listener.events == old(listener.events) + run.events
    ensures forall k | |old(source.seeks)| <= k < |source.seeks| :: BelowBound(source.seeks[k], bound)
  {
    // The loop needs only VisitChunk's contract and the two lemmas above,
    // not how the walk or a turn unfolds.
    hide Walk;
    hide ChunkTurn;
    ghost var run := Walk(source.bytes, listener.policy, bound, i, fuel);
    ghost var start := listener.events;
    var cursor := i;
    var remaining := fuel;
    var more := Guard(source, bound, cursor);
    WalkStops(source.bytes, listener.policy, bound, cursor, remaining);
    while more
      invariant source.Valid()
      invariant forall k | |old(source.seeks)| <= k < |source.seeks| :: BelowBound(source.seeks[k], bound)
      invariant more ==> BelowBound(cursor, bound) && cursor <= |source.bytes| && source.pos == cursor
      invariant !more ==> Walk(source.bytes, listener.policy, bound, cursor, remaining) == Run(Loaded, [])
      invariant var rest := Walk(source.bytes, listener.policy, bound, cursor, remaining);
        rest.outcome == run.outcome && listener.events + rest.events == start + run.events
      decreases remaining
    {
      WalkStops(source.bytes, listener.policy, bound, cursor, remaining);
      if remaining == 0 {
        return Unfinished;
      }
      ghost var before := listener.events;
      var go, next := VisitChunk(source, listener, cursor);
      if !go {
        return Failed;
      }
      TurnKeepsAccount(source.bytes, listener.policy, bound, cursor, remaining, before, Run(run.outcome, start + run.events));
      cursor := next;
      remaining := remaining - 1;
      more := Guard(source, bound, cursor);
      WalkStops(source.bytes, listener.policy, bound, cursor, remaining);
    }
    return Loaded;
  }

  /** `bph_wav_load`: reads and checks the RIFF header at the source's current
      position, then runs the chunk loop from cursor 12 with the bound
      `4 + size`. At most `fuel` chunk headers are read. */
  method LoadWav(source: ByteSource, listener: Listener, fuel: nat) returns (outcome: Outcome)
    requires source.Valid()
    modifies source, listener
    ensures source.Valid()
    ensures var run := Load(source.bytes, old(source.pos), listener.policy, fuel);
      outcome == run.outcome && listener.events == old(listener.events) + run.events
    ensures var at := old(source.pos);
      forall k | |old(source.seeks)| <= k < |source.seeks| ::
        at + RiffHeaderSize <= |source.bytes| &&
        BelowBound(source.seeks[k], FormTypeSize + Signed(source.bytes[at + 4..at + 8]))
  {
    hide Walk;  // the chunk loop's contract is all this needs of the walk
    ghost var at := source.pos;
    var raw := source.Read(RiffHeaderSize);
    if |raw| != RiffHeaderSize {
      listener.OnError(NoRiffHeader);
      return Failed;
    }
    SubSlice(source.bytes, at, at + RiffHeaderSize, 4, 8);
    var riff := ParseRiffHeader(raw);
    if riff.id != RiffTag {
      listener.OnError(NotRiff);
      return Failed;
    }
    if riff.size <= MinRiffSize {
      listener.OnError(RiffSizeTooSmall);
      return Failed;
    }
    if riff.form != WaveTag {
      listener.OnError(NotWave);
      return Failed;
    }
    assert CheckHeader(riff) == None;
    outcome := ChunkLoop(source, listener, FormTypeSize + riff.size, RiffHeaderSize, fuel);
  }
}
