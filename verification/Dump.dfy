/** Cutting the decompressed stream into newline-aligned chunks (src/dump.rs). */
module Dump {
  import opened Bytes

  datatype ReadError = Io | RowTooLarge(len: nat, limit: nat)

  /**
   * The decompressed stream. A read hands over any non-empty part of what fits, or fails;
   * an empty answer to a non-empty request means end of stream.
   */
  class ByteStream {
    const data: seq<byte>
    var pos: nat

    ghost predicate Valid()
      reads this
    {
      pos <= |data|
    }

    constructor (data: seq<byte>)
      ensures Valid() && this.data == data && pos == 0
    {
      this.data := data;
      pos := 0;
    }

    method Read(max: nat) returns (r: Result<seq<byte>, ReadError>)
      requires Valid()
      modifies this
      ensures Valid() && pos >= old(pos)
      ensures r.Err? ==> r.error == Io && pos == old(pos)
      ensures r.Ok? ==> |r.value| <= max && r.value == data[old(pos)..pos]
      ensures r.Ok? && max > 0 ==> (r.value == [] <==> old(pos) == |data|)
    {
      if * {
        return Err(Io);
      }
      var most := if max <= |data| - pos then max else |data| - pos;
      var n: nat :| n <= most && (most > 0 ==> n > 0);
      r := Ok(data[pos..pos + n]);
      pos := pos + n;
    }
  }

  /** A line of `data` starting at `at` runs for at least `limit` bytes without a newline. */
  ghost predicate LongLineAt(data: seq<byte>, at: nat, limit: nat) {
    at + limit <= |data| && forall k :: at <= k < at + limit ==> data[k] != NL
  }

  lemma NoNewlineSlice(data: seq<byte>, at: nat, n: nat)
    requires at + n <= |data| && NoNewline(data[at..at + n])
    ensures LongLineAt(data, at, n)
  {
    forall k | at <= k < at + n
      ensures data[k] != NL
    {
      assert data[k] == data[at..at + n][k - at];
    }
  }

  /** Somewhere in `data` there are `limit` consecutive bytes without a newline. */
  ghost predicate HasLongRun(data: seq<byte>, limit: nat) {
    exists at: nat :: LongLineAt(data, at, limit)
  }

  /** `buf` with `bytes` written at `at`, as a read into that part of the buffer leaves it. */
  function Stored(buf: seq<byte>, at: nat, bytes: seq<byte>): (r: seq<byte>)
    requires at + |bytes| <= |buf|
    ensures |r| == |buf|
  {
    buf[..at] + bytes + buf[at + |bytes|..]
  }

  /** `buf` resized to `n` bytes, the new ones zero. */
  function Grown(buf: seq<byte>, n: nat): (r: seq<byte>)
    requires |buf| <= n
    ensures |r| == n
  {
    buf + seq(n - |buf|, _ => 0)
  }

  /** The first `filled` bytes of `buf` are the stream's bytes just before `pos`. */
  ghost predicate Mirrors(buf: seq<byte>, filled: nat, data: seq<byte>, pos: nat) {
    && filled <= |buf| && filled <= pos <= |data|
    && buf[..filled] == data[pos - filled..pos]
  }

  lemma MirrorsGrown(buf: seq<byte>, filled: nat, data: seq<byte>, pos: nat, n: nat)
    requires Mirrors(buf, filled, data, pos) && |buf| <= n
    ensures Mirrors(Grown(buf, n), filled, data, pos)
  {
    assert Grown(buf, n)[..filled] == buf[..filled];
  }

  lemma MirrorsStored(buf: seq<byte>, filled: nat, got: seq<byte>, data: seq<byte>, pos: nat, to: nat)
    requires Mirrors(buf, filled, data, pos)
    requires pos <= to <= |data| && got == data[pos..to] && filled + |got| <= |buf|
    ensures Mirrors(Stored(buf, filled, got), filled + |got|, data, to)
  {
    assert Stored(buf, filled, got)[..filled + |got|] == buf[..filled] + got;
    assert data[to - (filled + |got|)..to] == data[pos - filled..pos] + got;
  }

  lemma MirrorsCut(buf: seq<byte>, filled: nat, data: seq<byte>, pos: nat, n: nat)
    requires Mirrors(buf, filled, data, pos) && n <= filled
    ensures buf[..n] == data[pos - filled..pos - filled + n]
    ensures buf[n..filled] == data[pos - filled + n..pos]
  {
    assert buf[..n] == buf[..filled][..n];
    assert buf[n..filled] == buf[..filled][n..];
  }

  class ChunkReader {
    const inner: ByteStream
    var buf: seq<byte>
    var filled: nat
    var consumed: nat
    var target: nat
    const maxChunk: nat
    var eof: bool

    /** Bytes of the stream already handed out. */
    ghost function Handed(): (n: int)
      reads this, inner
    {
      inner.pos - (filled - consumed)
    }

    /** The buffer holds the stream's bytes from the last chunk's start to the read position. */
    ghost predicate Valid()
      reads this, inner
    {
      && inner.Valid()
      && consumed <= filled <= target
      && Mirrors(buf, filled, inner.data, inner.pos)
      && 1 <= target <= maxChunk
      && (eof ==> inner.pos == |inner.data| && filled < target)
    }

    constructor (inner: ByteStream, target: nat, maxChunk: nat)
      requires inner.Valid()
      ensures Valid() && this.inner == inner && Handed() == inner.pos
      ensures this.target == (if target < 1 then 1 else target)
      ensures this.maxChunk == Ceiling(target, maxChunk)
      ensures consumed == 0
    {
      this.inner := inner;
      buf, filled, consumed, eof := [], 0, 0, false;
      var goal := if target < 1 then 1 else target;
      this.target := goal;
      this.maxChunk := if maxChunk < goal then goal else maxChunk;
    }

    /** Slides the unread bytes to the front of the buffer. */
    method CarryForward()
      requires Valid()
      modifies this
      ensures Valid() && consumed == 0 && Handed() == old(Handed())
      ensures target == old(target) && eof == old(eof)
    {
      if consumed > 0 {
        var kept := filled - consumed;
        MirrorsCut(buf, filled, inner.data, inner.pos, consumed);
        buf := Stored(buf, 0, buf[consumed..filled]);
        assert buf[..kept] == inner.data[inner.pos - kept..inner.pos];
        filled := kept;
        consumed := 0;
      }
    }

    /** One read into the free part of the buffer, which is resized to the target first. */
    method ReadSome() returns (r: Result<(), ReadError>)
      requires Valid() && consumed == 0 && filled < target && !eof
      modifies this, inner
      ensures Valid() && consumed == 0 && Handed() == old(Handed())
      ensures target == old(target)
      ensures r.Err? ==> r.error == Io
      ensures r.Ok? ==> (eof && filled == old(filled)) || (!eof && filled > old(filled))
    {
      if |buf| < target {
        MirrorsGrown(buf, filled, inner.data, inner.pos, target);
        buf := Grown(buf, target);
      }
      ghost var at := inner.pos;
      var got := inner.Read(target - filled);
      if got.Err? {
        return Err(got.error);
      }
      if got.value == [] {
        eof := true;
      } else {
        MirrorsStored(buf, filled, got.value, inner.data, at, inner.pos);
        buf := Stored(buf, filled, got.value);
        filled := filled + |got.value|;
      }
      return Ok(());
    }

    /** Reads until the buffer reaches the target or the stream ends. */
    method Fill() returns (r: Result<(), ReadError>)
      requires Valid() && consumed == 0
      modifies this, inner
      ensures Valid() && consumed == 0 && Handed() == old(Handed())
      ensures target == old(target)
      ensures r.Err? ==> r.error == Io
      ensures r.Ok? ==> filled == target || eof
    {
      while filled < target && !eof
        invariant Valid() && consumed == 0 && Handed() == old(Handed())
        invariant target == old(target)
        decreases !eof, target - filled
      {
        var got := ReadSome();
        if got.Err? {
          return got;
        }
      }
      return Ok(());
    }

    /** Hands out the buffer up to its last newline, or all of it at the end of the stream. */
    method Cut() returns (chunk: Option<seq<byte>>)
      requires Valid() && consumed == 0 && 0 < filled
      requires filled == target || eof
      modifies this`consumed
      ensures Valid()
      ensures chunk.None? ==> consumed == 0 && filled == target && NoNewline(buf[..filled])
      ensures chunk.Some? ==> IsChunk(inner.data, old(Handed()), Handed(), chunk.value, maxChunk)
    {
      var nl := LastIndexOf(buf[..filled], NL);
      if nl >= 0 {
        consumed := nl + 1;
        MirrorsCut(buf, filled, inner.data, inner.pos, consumed);
        return Some(buf[..nl + 1]);
      }
      if eof {
        consumed := filled;
        return Some(buf[..filled]);
      }
      return None;
    }

    /**
     * The next chunk. Whatever the short reads were, a chunk continues the stream exactly
     * where the last one stopped and ends after a newline, unless it is the unterminated
     * last line; `RowTooLarge` means the line starting here reaches the ceiling.
     */
    method NextChunk() returns (r: Result<Option<seq<byte>>, ReadError>)
      requires Valid()
      modifies this, inner
      ensures Valid()
      ensures IsResult(inner.data, old(Handed()), Handed(), r, maxChunk)
    {
      CarryForward();
      ghost var at := Handed();
      while true
        invariant Valid() && consumed == 0 && Handed() == at
        decreases maxChunk - target
      {
        var f := Fill();
        if f.Err? {
          return Err(f.error);
        }
        if filled == 0 {
          return Ok(None);
        }
        var chunk := Cut();
        if chunk.Some? {
          return Ok(chunk);
        }
        if target >= maxChunk {
          NoNewlineSlice(inner.data, at, maxChunk);
          return Err(RowTooLarge(filled, maxChunk));
        }
        target := if target * 2 < maxChunk then target * 2 else maxChunk;
      }
    }
  }

  /** What one call may answer when `data[..from]` was handed out before and `data[..to]` after. */
  ghost predicate IsResult(data: seq<byte>, from: int, to: int, r: Result<Option<seq<byte>>, ReadError>, limit: nat) {
    match r
    case Err(Io) => true
    case Err(RowTooLarge(len, most)) => len == most == limit && 0 <= from == to && LongLineAt(data, from, limit)
    case Ok(None) => from == to == |data|
    case Ok(Some(chunk)) => IsChunk(data, from, to, chunk, limit)
  }

  /** `chunk` is `data[from..to]`, and ends after a newline or is the unterminated last line. */
  ghost predicate IsChunk(data: seq<byte>, from: int, to: int, chunk: seq<byte>, limit: nat) {
    && 0 <= from < to <= |data|
    && chunk == data[from..to]
    && |chunk| <= limit
    && (data[to - 1] == NL || (NoNewline(chunk) && to == |data| && |chunk| < limit))
  }

  /** Newline-terminated chunks, but for the last, which may be an unterminated line. */
  ghost predicate AlignedChunks(chunks: seq<seq<byte>>) {
    && (forall i :: 0 <= i < |chunks| ==> chunks[i] != [])
    && (forall i :: 0 <= i < |chunks| - 1 ==> Aligned(chunks[i]))
    && (chunks != [] && !Aligned(chunks[|chunks| - 1]) ==> NoNewline(chunks[|chunks| - 1]))
  }

  /**
   * No chunk that is at most `limit` long and ends in a newline or the stream can step over
   * a newline-free run of `limit` bytes.
   */
  ghost predicate NoLongRunBefore(data: seq<byte>, at: nat, limit: nat) {
    forall k: nat | k < at :: !LongLineAt(data, k, limit)
  }

  lemma ChunkStepsOverNoRun(data: seq<byte>, from: nat, to: nat, limit: nat)
    requires from < to <= |data| && to - from <= limit && 0 < limit
    requires NoLongRunBefore(data, from, limit)
    requires data[to - 1] == NL || (to == |data| && to - from < limit)
    ensures NoLongRunBefore(data, to, limit)
  {
    forall k: nat | k < to
      ensures !LongLineAt(data, k, limit)
    {
      if k >= from {
        assert k + limit > |data| || data[to - 1] == NL;
      }
    }
  }

  /** A run reported at a chunk boundary is where the first long run begins, if any does. */
  lemma RunsEndWithStream(data: seq<byte>, limit: nat)
    requires NoLongRunBefore(data, |data|, limit) && 0 < limit
    ensures !HasLongRun(data, limit)
  {
    forall at: nat
      ensures !LongLineAt(data, at, limit)
    {
    }
  }

  /** What the chunks handed out so far are, up to `at`. */
  ghost predicate ChunksUpTo(data: seq<byte>, chunks: seq<seq<byte>>, at: int, limit: nat) {
    && 0 <= at <= |data|
    && Concat(chunks) == data[..at]
    && AlignedChunks(chunks)
    && (at < |data| ==> chunks == [] || Aligned(chunks[|chunks| - 1]))
    && NoLongRunBefore(data, at, limit)
  }

  lemma Advance(data: seq<byte>, chunks: seq<seq<byte>>, from: int, to: int, chunk: seq<byte>, limit: nat)
    requires ChunksUpTo(data, chunks, from, limit) && 0 < limit
    requires IsChunk(data, from, to, chunk, limit)
    ensures ChunksUpTo(data, chunks + [chunk], to, limit)
  {
    assert data[..from] + data[from..to] == data[..to];
    ConcatSnoc(chunks, chunk);
    ChunkStepsOverNoRun(data, from, to, limit);
  }

  datatype Outcome = Finished | Broken(error: ReadError)

  /**
   * What a pass over the whole stream may report: its chunks are aligned and concatenate to
   * a prefix of the stream; it finishes only with the whole stream delivered and no run of
   * `ceiling` bytes without a newline in it, and reports `RowTooLarge` only at such a run.
   */
  ghost predicate IsOutcome(data: seq<byte>, chunks: seq<seq<byte>>, outcome: Outcome, ceiling: nat) {
    && AlignedChunks(chunks)
    && Concat(chunks) <= data
    && match outcome
       case Finished => Concat(chunks) == data && !HasLongRun(data, ceiling)
       case Broken(Io) => true
       case Broken(RowTooLarge(len, limit)) =>
         len == limit == ceiling && LongLineAt(data, |Concat(chunks)|, ceiling) && HasLongRun(data, ceiling)
  }

  lemma Concluded(data: seq<byte>, chunks: seq<seq<byte>>, from: int, to: int, r: Result<Option<seq<byte>>, ReadError>, limit: nat)
    requires ChunksUpTo(data, chunks, from, limit) && 0 < limit
    requires IsResult(data, from, to, r, limit) && !(r.Ok? && r.value.Some?)
    ensures IsOutcome(data, chunks, if r.Ok? then Finished else Broken(r.error), limit)
  {
    if r.Ok? {
      assert data[..|data|] == data;
      RunsEndWithStream(data, limit);
    }
  }

  /** The ceiling in force: both limits are at least one, and the ceiling at least the target. */
  function Ceiling(target: nat, maxChunk: nat): (c: nat)
    ensures c >= 1 && c >= target && c >= maxChunk
    ensures c == 1 || c == target || c == maxChunk
  {
    var goal := if target < 1 then 1 else target;
    if maxChunk < goal then goal else maxChunk
  }

  /**
   * The reader thread's loop over a whole stream, for every stream, every pattern of short
   * reads and every pair of limits. `RowTooLarge` is reported if and only if `Ceiling` bytes
   * pass without a newline, unless the stream itself fails first.
   */
  method ReadAll(data: seq<byte>, target: nat, maxChunk: nat)
    returns (chunks: seq<seq<byte>>, outcome: Outcome)
    ensures IsOutcome(data, chunks, outcome, Ceiling(target, maxChunk))
  {
    var stream := new ByteStream(data);
    var reader := new ChunkReader(stream, target, maxChunk);
    ghost var ceiling := Ceiling(target, maxChunk);
    assert Concat<byte>([]) == data[..0];
    chunks := [];
    while true
      invariant reader.Valid() && reader.inner.data == data && reader.maxChunk == ceiling
      invariant fresh(reader) && fresh(reader.inner)
      invariant ChunksUpTo(data, chunks, reader.Handed(), ceiling)
      decreases |data| - reader.Handed()
    {
      ghost var before := reader.Handed();
      var r := reader.NextChunk();
      if r.Ok? && r.value.Some? {
        Advance(data, chunks, before, reader.Handed(), r.value.value, ceiling);
        chunks := chunks + [r.value.value];
      } else {
        Concluded(data, chunks, before, reader.Handed(), r, ceiling);
        outcome := if r.Ok? then Finished else Broken(r.error);
        return;
      }
    }
  }
}
