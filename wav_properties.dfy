/** What the loader promises about every stream, proved of the functions in
    WavLoad. */
module WavProperties {
  import opened Binary
  import opened Riff
  import opened WavLoad

  // ---------------------------------------------------------------------
  // Error reporting

  /** Prefixing events that hold no error report keeps a run reporting its outcome. */
  lemma PrefixKeepsReport(events: seq<Event>, rest: Run)
    requires Errors(events) == 0 && ReportsOutcome(rest)
    ensures ReportsOutcome(Run(rest.outcome, events + rest.events))
  {
    ErrorsAppend(events, rest.events);
    if rest.outcome == Failed {
      assert (events + rest.events)[|events + rest.events| - 1] == rest.events[|rest.events| - 1];
    }
  }

  lemma {:induction false} WalkReportsOutcome(bytes: seq<byte>, policy: Policy, bound: int, i: int, fuel: nat)
    ensures ReportsOutcome(Walk(bytes, policy, bound, i, fuel))
    decreases fuel
  {
    hide ChunkTurn;
    if BelowBound(i, bound) && i <= |bytes| && fuel > 0 {
      var turn := ChunkTurn(bytes, policy, i);
      if turn.Go? {
        WalkReportsOutcome(bytes, policy, bound, turn.next, fuel - 1);
        PrefixKeepsReport(turn.events, Walk(bytes, policy, bound, turn.next, fuel - 1));
      }
    }
  }

  /** The error callback fires exactly once on every path that returns false,
      as the last callback of the run, and never on a path that returns true. */
  lemma LoadReportsOutcome(bytes: seq<byte>, start: nat, policy: Policy, fuel: nat)
    requires start <= |bytes|
    ensures ReportsOutcome(Load(bytes, start, policy, fuel))
  {
    var raw := Take(bytes, start, RiffHeaderSize);
    if |raw| == RiffHeaderSize {
      WalkReportsOutcome(bytes, policy, FormTypeSize + ParseRiffHeader(raw).size, RiffHeaderSize, fuel);
    }
  }

  // ---------------------------------------------------------------------
  // The RIFF header

  /** A stream with fewer than 12 bytes left fails before any other callback. */
  lemma ShortRiffHeaderFails(bytes: seq<byte>, start: nat, policy: Policy, fuel: nat)
    requires start <= |bytes| < start + RiffHeaderSize
    ensures Load(bytes, start, policy, fuel) == Run(Failed, [ErrorReported(NoRiffHeader)])
  {
  }

  /** The three header checks in order: tag, size, form type; the first one
      that fails decides the message, and a header that passes all three
      starts the chunk loop at cursor 12 with the bound `4 + size`. */
  lemma HeaderChecksInOrder(bytes: seq<byte>, start: nat, policy: Policy, fuel: nat)
    requires start + RiffHeaderSize <= |bytes|
    ensures var id, size, form := Signed(bytes[start..start + 4]), Signed(bytes[start + 4..start + 8]), Signed(bytes[start + 8..start + 12]);
      Load(bytes, start, policy, fuel) ==
        if id != RiffTag then Run(Failed, [ErrorReported(NotRiff)])
        else if size <= MinRiffSize then Run(Failed, [ErrorReported(RiffSizeTooSmall)])
        else if form != WaveTag then Run(Failed, [ErrorReported(NotWave)])
        else Walk(bytes, policy, FormTypeSize + size, RiffHeaderSize, fuel)
  {
    var end := start + RiffHeaderSize;
    SubSlice(bytes, start, end, 0, 4);
    SubSlice(bytes, start, end, 4, 8);
    SubSlice(bytes, start, end, 8, 12);
  }

  /** The RIFF size is a signed `int`: a size field of 2^31 or more, read as
      unsigned, is negative and fails the size check. */
  lemma HugeRiffSizeRejected(bytes: seq<byte>, start: nat, policy: Policy, fuel: nat)
    requires start + RiffHeaderSize <= |bytes|
    requires Signed(bytes[start..start + 4]) == RiffTag
    requires Unsigned(bytes[start + 4..start + 8]) >= 0x8000_0000
    ensures Load(bytes, start, policy, fuel) == Run(Failed, [ErrorReported(RiffSizeTooSmall)])
  {
    Pow256Values();
    HeaderChecksInOrder(bytes, start, policy, fuel);
  }

  // ---------------------------------------------------------------------
  // One turn of the chunk loop

  /** The loop ends with success, and no callback, once the cursor is not below
      the bound or the seek to it fails; a failed seek is no error. */
  lemma WalkEndsCleanly(bytes: seq<byte>, policy: Policy, bound: int, i: int, fuel: nat)
    requires !BelowBound(i, bound) || i > |bytes|
    ensures Walk(bytes, policy, bound, i, fuel) == Run(Loaded, [])
  {
  }

  /** A chunk header cut short by the end of the stream fails the load. */
  lemma ShortChunkHeaderFails(bytes: seq<byte>, policy: Policy, bound: int, i: int, fuel: nat)
    requires BelowBound(i, bound) && i <= |bytes| < i + ChunkHeaderSize && fuel > 0
    ensures Walk(bytes, policy, bound, i, fuel) == Run(Failed, [ErrorReported(NoChunkHeader)])
  {
  }

  /** A chunk whose tag is neither `fmt ` nor `data` fires no callback, and the
      loop goes on at `i + 8 + size`. */
  lemma UnknownChunkSkipped(bytes: seq<byte>, policy: Policy, bound: int, i: int, fuel: nat)
    requires BelowBound(i, bound) && i + ChunkHeaderSize <= |bytes| && fuel > 0
    requires var c := ParseChunkHeader(bytes[i..i + ChunkHeaderSize]); c.id != FmtTag && c.id != DataTag
    ensures var c := ParseChunkHeader(bytes[i..i + ChunkHeaderSize]);
      Walk(bytes, policy, bound, i, fuel) == Walk(bytes, policy, bound, NextCursor(i, c.size), fuel - 1)
  {
    hide Dispatch;
    SubSlice(bytes, i, i + ChunkHeaderSize, 4, 8);
    assert Take(bytes, i, ChunkHeaderSize) == bytes[i..i + ChunkHeaderSize];
  }

  /** A `data` chunk passes exactly its declared size to the data callback;
      a decline fails the load, an accept goes on at `i + 8 + size`. */
  lemma DataChunkReported(bytes: seq<byte>, policy: Policy, bound: int, i: int, fuel: nat)
    requires BelowBound(i, bound) && i + ChunkHeaderSize <= |bytes| && fuel > 0
    requires ParseChunkHeader(bytes[i..i + ChunkHeaderSize]).id == DataTag
    ensures var size := Signed(bytes[i + 4..i + 8]);
      var rest := Walk(bytes, policy, bound, NextCursor(i, size), fuel - 1);
      Walk(bytes, policy, bound, i, fuel) ==
        if policy.acceptData(size) then Run(rest.outcome, [DataFound(size)] + rest.events)
        else Run(Failed, [DataFound(size), ErrorReported(DataDeclined)])
  {
    SubSlice(bytes, i, i + ChunkHeaderSize, 4, 8);
  }

  /** The `fmt ` branch of the chunk handler: the body's fields are read at
      offsets 0, 2, 4, 12 and 14 of the stream from `body` on. */
  lemma FmtBodyDecoded(bytes: seq<byte>, policy: Policy, body: nat, chunk: ChunkHeader)
    requires body <= |bytes| && chunk.id == FmtTag
    ensures Dispatch(bytes, policy, body, chunk) ==
      if |bytes| < body + FmtBodySize then Stop([ErrorReported(NoFmtBody)])
      else if Signed(bytes[body..body + 2]) != PcmFormat then Stop([ErrorReported(NotPcm)])
      else
        var f := Format(Signed(bytes[body + 2..body + 4]), Signed(bytes[body + 4..body + 8]),
                        Signed(bytes[body + 12..body + 14]), Signed(bytes[body + 14..body + 16]));
        if policy.acceptFormat(f) then Continue([FormatFound(f)])
        else Stop([FormatFound(f), ErrorReported(FormatDeclined)])
  {
    if body + FmtBodySize <= |bytes| {
      assert Take(bytes, body, FmtBodySize) == bytes[body..body + FmtBodySize];
      SubSlice(bytes, body, body + FmtBodySize, 0, 2);
      SubSlice(bytes, body, body + FmtBodySize, 2, 4);
      SubSlice(bytes, body, body + FmtBodySize, 4, 8);
      SubSlice(bytes, body, body + FmtBodySize, 12, 14);
      SubSlice(bytes, body, body + FmtBodySize, 14, 16);
    }
  }

  /** A `fmt ` chunk: its 16-byte body must be readable, its format tag must be
      PCM, and the header callback then receives the fields at offsets 2, 4,
      12 and 14 of the body (the byte rate at offset 8 is not passed on). */
  lemma FmtChunkDecoded(bytes: seq<byte>, policy: Policy, bound: int, i: int, fuel: nat)
    requires BelowBound(i, bound) && i + ChunkHeaderSize <= |bytes| && fuel > 0
    requires ParseChunkHeader(bytes[i..i + ChunkHeaderSize]).id == FmtTag
    ensures var size := Signed(bytes[i + 4..i + 8]);
      var rest := Walk(bytes, policy, bound, NextCursor(i, size), fuel - 1);
      var b := i + ChunkHeaderSize;
      Walk(bytes, policy, bound, i, fuel) ==
        if |bytes| < b + FmtBodySize then Run(Failed, [ErrorReported(NoFmtBody)])
        else if Signed(bytes[b..b + 2]) != PcmFormat then Run(Failed, [ErrorReported(NotPcm)])
        else
          var f := Format(Signed(bytes[b + 2..b + 4]), Signed(bytes[b + 4..b + 8]),
                          Signed(bytes[b + 12..b + 14]), Signed(bytes[b + 14..b + 16]));
          if policy.acceptFormat(f) then Run(rest.outcome, [FormatFound(f)] + rest.events)
          else Run(Failed, [FormatFound(f), ErrorReported(FormatDeclined)])
  {
    hide Dispatch;
    var b := i + ChunkHeaderSize;
    SubSlice(bytes, i, b, 4, 8);
    assert Take(bytes, i, ChunkHeaderSize) == bytes[i..b];
    FmtBodyDecoded(bytes, policy, b, ParseChunkHeader(bytes[i..b]));
  }

  // ---------------------------------------------------------------------
  // Termination of the chunk loop

  /** Extra fuel changes nothing once the loop has ended: the fuel bounds the
      model, not the behaviour. */
  lemma {:induction false} WalkFuelMonotone(bytes: seq<byte>, policy: Policy, bound: int, i: int, fuel: nat, more: nat)
    requires fuel <= more
    ensures Walk(bytes, policy, bound, i, fuel).outcome != Unfinished ==>
      Walk(bytes, policy, bound, i, more) == Walk(bytes, policy, bound, i, fuel)
    decreases fuel
  {
    hide ChunkTurn;
    if BelowBound(i, bound) && i <= |bytes| && Walk(bytes, policy, bound, i, fuel).outcome != Unfinished {
      assert fuel > 0;
      var turn := ChunkTurn(bytes, policy, i);
      if turn.Go? {
        var rest := Walk(bytes, policy, bound, turn.next, fuel - 1);
        var restMore := Walk(bytes, policy, bound, turn.next, more - 1);
        assert Walk(bytes, policy, bound, i, fuel) == Run(rest.outcome, turn.events + rest.events);
        assert Walk(bytes, policy, bound, i, more) == Run(restMore.outcome, turn.events + restMore.events);
        WalkFuelMonotone(bytes, policy, bound, turn.next, fuel - 1, more - 1);
      }
    }
  }

  /** Every chunk header the loop can reach declares a non-negative size that
      does not carry the cursor past 2^32, so each turn moves the cursor forward
      by at least 8 bytes or makes it negative. */
  predicate Forward(bytes: seq<byte>, bound: int, i: int)
    decreases if BelowBound(i, bound) then bound - i else 0
  {
    if !BelowBound(i, bound) || i + ChunkHeaderSize > |bytes| then true
    else
      var c := ParseChunkHeader(bytes[i..i + ChunkHeaderSize]);
      0 <= c.size && i + ChunkHeaderSize + c.size < 0x1_0000_0000 &&
      Forward(bytes, bound, NextCursor(i, c.size))
  }

  /** When chunk sizes only move the cursor forward, one turn per 8 bytes of
      stream is enough fuel: the loop ends. */
  lemma {:induction false} ForwardWalkFinishes(bytes: seq<byte>, policy: Policy, bound: int, i: int, fuel: nat)
    requires Forward(bytes, bound, i)
    requires 8 * fuel >= |bytes| + ChunkHeaderSize - i
    ensures Walk(bytes, policy, bound, i, fuel).outcome != Unfinished
    decreases fuel
  {
    hide ChunkTurn;
    if BelowBound(i, bound) && i <= |bytes| {
      var turn := ChunkTurn(bytes, policy, i);
      if turn.Go? {
        SubSlice(bytes, i, i + ChunkHeaderSize, 4, 8);
        if BelowBound(turn.next, bound) {
          ForwardWalkFinishes(bytes, policy, bound, turn.next, fuel - 1);
        }
      }
    }
  }

  /** The same for a whole load from the start of the stream. */
  lemma LoadFinishes(bytes: seq<byte>, policy: Policy, fuel: nat)
    requires RiffHeaderSize <= |bytes|
    requires Forward(bytes, FormTypeSize + Signed(bytes[4..8]), RiffHeaderSize)
    requires 8 * fuel >= |bytes|
    ensures Load(bytes, 0, policy, fuel).outcome != Unfinished
  {
    hide Walk;
    hide Forward;
    var raw := Take(bytes, 0, RiffHeaderSize);
    assert raw == bytes[0..RiffHeaderSize];
    SubSlice(bytes, 0, RiffHeaderSize, 4, 8);
    var h := ParseRiffHeader(raw);
    assert h.size == Signed(bytes[4..8]);
    if CheckHeader(h).None? {
      ForwardWalkFinishes(bytes, policy, FormTypeSize + h.size, RiffHeaderSize, fuel);
    }
  }

  /** The loop does not terminate in general: an unknown chunk of size -8 sends
      the cursor back to its own header, whatever the fuel. */
  lemma {:induction false} SelfLoopNeverFinishes(bytes: seq<byte>, policy: Policy, bound: int, i: int, fuel: nat)
    requires BelowBound(i, bound) && IsInt32(i) && i + ChunkHeaderSize <= |bytes|
    requires var c := ParseChunkHeader(bytes[i..i + ChunkHeaderSize]);
      c.id != FmtTag && c.id != DataTag && c.size == -8
    ensures Walk(bytes, policy, bound, i, fuel) == Run(Unfinished, [])
    decreases fuel
  {
    if fuel > 0 {
      SelfLoopNeverFinishes(bytes, policy, bound, i, fuel - 1);
    }
  }

  /** The cursor is a 32-bit `int`: a chunk large enough wraps it past 2^32
      back to the start of the stream. */
  lemma CursorWrapsAround()
    ensures NextCursor(0x7fff_ffff, 0x7fff_ffff) == 6
    ensures NextCursor(0x7fff_fff0, 0x10) == -0x7fff_fff8
  {
  }
}
