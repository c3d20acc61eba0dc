/** What `bph_wav_load` does to a byte stream, as functions: the events it
    delivers to the caller's callbacks, in order, and its boolean result.

    The stream is a byte sequence read from a start position; the header and
    data callbacks answer from a caller-chosen Policy. The loop of the loader
    need not terminate (a chunk size of -8 brings the cursor back to where it
    was), so the walk carries `fuel`, the number of chunk headers it may still
    read, and ends `Unfinished` when it runs out with the loop still running. */
module WavLoad {
  import opened Binary
  import opened Riff

  datatype Option<T> = None | Some(value: T)

  /** The diagnostics passed to the error callback, one per failure path. */
  datatype Message =
    | NoRiffHeader        // the 12-byte RIFF header could not be read
    | NotRiff             // the first tag is not RIFF
    | RiffSizeTooSmall    // the RIFF size is 36 or less
    | NotWave             // the form type is not WAVE
    | NoChunkHeader       // an 8-byte chunk header could not be read
    | NoFmtBody           // the 16 bytes of a `fmt ` chunk could not be read
    | NotPcm              // the format tag is not PCM
    | FormatDeclined      // the header callback returned false
    | DataDeclined        // the data callback returned false

  /** One callback invocation. */
  datatype Event =
    | FormatFound(format: Format)
    | DataFound(size: int)
    | ErrorReported(message: Message)

  /** The answers of the caller's header and data callbacks. */
  datatype Policy = Policy(acceptFormat: Format -> bool, acceptData: int -> bool)

  /** `Loaded` and `Failed` are the loader's `true` and `false`; `Unfinished`
      means the fuel ran out while the loop was still running. */
  datatype Outcome = Loaded | Failed | Unfinished

  datatype Run = Run(outcome: Outcome, events: seq<Event>)

  /** What one chunk contributes: its events, and whether the loop goes on. */
  datatype Step = Continue(events: seq<Event>) | Stop(events: seq<Event>)

  /** What one turn of the loop does: its events, and where the loop goes on. */
  datatype Turn = Halt(events: seq<Event>) | Go(events: seq<Event>, next: int)

  /** How many error reports a trace holds. */
  function Errors(events: seq<Event>): (n: nat)
    ensures n <= |events|
    ensures n == 0 <==> forall k | 0 <= k < |events| :: !events[k].ErrorReported?
  {
    if events == [] then 0
    else (if events[0].ErrorReported? then 1 else 0) + Errors(events[1..])
  }

  lemma {:induction false} ErrorsAppend(a: seq<Event>, b: seq<Event>)
    ensures Errors(a + b) == Errors(a) + Errors(b)
  {
    if a == [] {
      assert a + b == b;
    } else {
      assert (a + b)[0] == a[0];
      assert (a + b)[1..] == a[1..] + b;
      ErrorsAppend(a[1..], b);
    }
  }

  /** Every failure is announced by exactly one error report, and it comes last;
      a trace of a run that has not failed holds none. */
  predicate ReportsOutcome(r: Run)
  {
    Errors(r.events) == (if r.outcome == Failed then 1 else 0) &&
    (r.outcome == Failed ==> r.events[|r.events| - 1].ErrorReported?)
  }

  /** A read of n bytes at position `at`: fewer than n when the stream ends. */
  function Take(s: seq<byte>, at: nat, n: nat): (r: seq<byte>)
    requires at <= |s|
    ensures |r| <= n
    ensures |r| == n <==> at + n <= |s|
    ensures at + |r| <= |s| && r == s[at..at + |r|]
  {
    if at + n <= |s| then s[at..at + n] else s[at..]
  }

  /** The header checks, in the loader's order; the first that fails decides. */
  function CheckHeader(h: RiffHeader): (r: Option<Message>)
    ensures r == None <==> h.id == RiffTag && h.size > MinRiffSize && h.form == WaveTag
    ensures r != None ==> r.value in {NotRiff, RiffSizeTooSmall, NotWave}
  {
    if h.id != RiffTag then Some(NotRiff)
    else if h.size <= MinRiffSize then Some(RiffSizeTooSmall)
    else if h.form != WaveTag then Some(NotWave)
    else None
  }

  /** The loop guard's first half, `i < sizeof(riff.format) + riff.size`: the
      cursor (an `int`) is converted to the unsigned type of the right-hand
      side, so a negative cursor is never below the bound. */
  predicate BelowBound(i: int, bound: int)
    ensures IsInt32(i) && 0 <= bound < 0x8000_0000_0000_0000 ==>
      (BelowBound(i, bound) <==> SizeT(i) < bound)
  {
    0 <= i < bound
  }

  /** `i += sizeof(chunk) + chunk.size`: the cursor moves past the 8-byte header
      and the declared body, with no rounding up to an even offset, and the sum
      is stored back into a 32-bit `int`. */
  function NextCursor(i: int, size: int): (r: int)
    ensures IsInt32(r)
    ensures IsInt32(i + ChunkHeaderSize + size) ==> r == i + ChunkHeaderSize + size
    ensures 0 <= i && 0 <= size && i + ChunkHeaderSize + size < 0x1_0000_0000 ==>
              r >= i + ChunkHeaderSize || r < 0
  {
    Wrap32(i + ChunkHeaderSize + size)
  }

  /** The chunk whose header was read at some cursor; its body starts at `body`. */
  function Dispatch(bytes: seq<byte>, policy: Policy, body: nat, chunk: ChunkHeader): (r: Step)
    requires body <= |bytes|
    ensures Errors(r.events) == (if r.Stop? then 1 else 0)
    ensures r.Stop? ==> r.events[|r.events| - 1].ErrorReported?
    ensures chunk.id != FmtTag && chunk.id != DataTag ==> r == Continue([])
    ensures |r.events| <= 2
  {
    if chunk.id == FmtTag then
      var raw := Take(bytes, body, FmtBodySize);
      if |raw| != FmtBodySize then Stop([ErrorReported(NoFmtBody)])
      else
        var fmt := ParseFmtBody(raw);
        if fmt.formatTag != PcmFormat then Stop([ErrorReported(NotPcm)])
        else
          var format := CallbackArgs(fmt);
          if policy.acceptFormat(format) then Continue([FormatFound(format)])
          else Stop([FormatFound(format), ErrorReported(FormatDeclined)])
    else if chunk.id == DataTag then
      if policy.acceptData(chunk.size) then Continue([DataFound(chunk.size)])
      else Stop([DataFound(chunk.size), ErrorReported(DataDeclined)])
    else
      Continue([])
  }

  /** One turn of the chunk loop after the seek to cursor i succeeded: read
      the chunk header there, handle the chunk, and either stop the load or go
      on at the next cursor. */
  function ChunkTurn(bytes: seq<byte>, policy: Policy, i: int): (t: Turn)
    requires 0 <= i <= |bytes|
    ensures Errors(t.events) == (if t.Halt? then 1 else 0)
    ensures t.Halt? ==> t.events[|t.events| - 1].ErrorReported?
    ensures t.Go? ==>
      i + ChunkHeaderSize <= |bytes| && t.next == NextCursor(i, Signed(bytes[i + 4..i + ChunkHeaderSize]))
    ensures |t.events| <= 2
  {
    var raw := Take(bytes, i, ChunkHeaderSize);
    if |raw| != ChunkHeaderSize then Halt([ErrorReported(NoChunkHeader)])
    else
      var chunk := ParseChunkHeader(raw);
      SubSlice(bytes, i, i + ChunkHeaderSize, 4, 8);
      match Dispatch(bytes, policy, i + ChunkHeaderSize, chunk)
      case Stop(events) => Halt(events)
      case Continue(events) => Go(events, NextCursor(i, chunk.size))
  }

  /** The chunk loop from cursor i, with the loop bound `4 + riff.size`: at
      most two callbacks per chunk header it reads. */
  function Walk(bytes: seq<byte>, policy: Policy, bound: int, i: int, fuel: nat): (r: Run)
    ensures |r.events| <= 2 * fuel
    decreases fuel
  {
    if !BelowBound(i, bound) || i > |bytes| then Run(Loaded, [])  // the seek to i fails past the end
    else if fuel == 0 then Run(Unfinished, [])
    else
      match ChunkTurn(bytes, policy, i)
      case Halt(events) => Run(Failed, events)
      case Go(events, next) =>
        var rest := Walk(bytes, policy, bound, next, fuel - 1);
        Run(rest.outcome, events + rest.events)
  }

  /** The whole load of the stream `bytes`, read from position `start`. It
      can only end other than `Failed` after a complete header that passes
      the checks. */
  function Load(bytes: seq<byte>, start: nat, policy: Policy, fuel: nat): (r: Run)
    requires start <= |bytes|
    ensures r.outcome != Failed ==>
      start + RiffHeaderSize <= |bytes| && CheckHeader(ParseRiffHeader(bytes[start..start + RiffHeaderSize])) == None
    ensures |r.events| <= 2 * fuel + 1
  {
    var raw := Take(bytes, start, RiffHeaderSize);
    if |raw| != RiffHeaderSize then Run(Failed, [ErrorReported(NoRiffHeader)])
    else
      var h := ParseRiffHeader(raw);
      match CheckHeader(h)
      case Some(m) => Run(Failed, [ErrorReported(m)])
      case None => Walk(bytes, policy, FormTypeSize + h.size, RiffHeaderSize, fuel)
  }
}
