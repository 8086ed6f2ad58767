/** A read over an object-store GET that resumes a broken stream (src/source.rs). */
module Source {
  import opened Bytes

  const MAX_RESUMES: nat := 8

  /** What a stream does next: hand over up to `n` bytes, perhaps none, or break. */
  datatype Delivery = Chunk(n: nat) | Broken

  /**
   * A GET under way: where in the object it is, and what it has yet to do. When nothing is
   * left it ends, wherever it is. The store decides both.
   */
  datatype Stream = Stream(pos: nat, script: seq<Delivery>)

  datatype ReadError = GetFailed | TooManyResumes | Truncated

  class ObjectSource {
    const blob: seq<byte>
    const total: nat
    var delivered: nat
    var resumes: nat
    var stream: Option<Stream>
    var pending: seq<byte>
    // Where each ranged GET started, how many GETs there were, and whether one failed.
    ghost var ranges: seq<nat>
    ghost var gets: nat
    ghost var failed: bool

    /** Bytes handed to the reader so far. */
    ghost function Returned(): (n: int)
      reads this
    {
      delivered - |pending|
    }

    ghost predicate Valid()
      reads this
    {
      && total == |blob|
      && |pending| <= delivered <= total
      && pending == blob[delivered - |pending|..delivered]
      && (stream.Some? ==> stream.value.pos == delivered)
      && (stream.None? && !failed ==> delivered == total)
      && resumes <= MAX_RESUMES
      && |ranges| <= gets <= resumes + 1
      && (forall i :: 0 <= i < |ranges| ==> 0 < ranges[i] < total)
    }

    constructor (blob: seq<byte>)
      ensures this.blob == blob && total == |blob|
      ensures delivered == 0 && resumes == 0 && stream == None && pending == [] && !failed && ranges == [] && gets == 0
    {
      this.blob, total := blob, |blob|;
      delivered, resumes, stream, pending := 0, 0, None, [];
      ranges, gets, failed := [], 0, false;
    }

    /** Issues a GET from the current offset; the same call starts and resumes. */
    method OpenStream() returns (ok: bool)
      requires delivered == 0 || delivered < total
      modifies this`stream, this`ranges, this`gets, this`failed
      ensures gets == old(gets) + 1
      ensures ranges == if delivered > 0 then old(ranges) + [delivered] else old(ranges)
      ensures if ok then stream.Some? && stream.value.pos == delivered && failed == old(failed) else failed && stream == old(stream)
    {
      gets := gets + 1;
      ranges := if delivered > 0 then ranges + [delivered] else ranges;
      var reached: bool := *;
      if !reached {
        failed := true;
        return false;
      }
      var script: seq<Delivery> := *;
      stream := Some(Stream(delivered, script));
      return true;
    }

    method Start() returns (ok: bool)
      requires total == |blob| && delivered == 0 && resumes == 0 && stream == None && pending == [] && !failed && ranges == [] && gets == 0
      modifies this
      ensures Valid() && Returned() == 0 && failed == !ok
    {
      ok := OpenStream();
    }

    /** How much a source can still do before it must end. */
    ghost function Left(): (n: nat)
      reads this
    {
      if stream.Some? then |stream.value.script| + 1 else 0
    }

    /**
     * The next chunk, with a broken stream resumed. No chunk before a failure means the whole
     * object was delivered.
     */
    method NextChunk() returns (r: Result<Option<seq<byte>>, ReadError>)
      requires Valid() && pending == []
      modifies this`delivered, this`resumes, this`stream, this`ranges, this`gets, this`failed
      ensures match r
        case Ok(Some(bytes)) =>
          && old(delivered) + |bytes| == delivered <= total && bytes == blob[old(delivered)..delivered]
          && Resumed(old(delivered), bytes)
          && failed == old(failed)
          && (resumes > old(resumes) || (resumes == old(resumes) && Left() < old(Left())))
        case Ok(None) => Valid() && delivered == old(delivered) && failed == old(failed) && (!failed ==> delivered == total)
        case Err(e) => Valid() && delivered == old(delivered) && failed && Explains(e, old(resumes))
      ensures old(resumes) <= resumes && gets - old(gets) == resumes - old(resumes)
    {
      while true
        invariant Valid() && pending == [] && delivered == old(delivered) && failed == old(failed)
        invariant old(resumes) <= resumes && gets - old(gets) == resumes - old(resumes)
        invariant resumes == old(resumes) ==> stream == old(stream)
        decreases MAX_RESUMES - resumes
      {
        if stream.None? {
          return Ok(None);
        }
        if stream.value.script == [] {
          stream := None;
          if delivered < total {
            failed := true;
            return Err(Truncated);
          }
          return Ok(None);
        }
        match stream.value.script[0]
        case Chunk(n) =>
          var to := if delivered + n <= total then delivered + n else total;
          var bytes := blob[delivered..to];
          delivered := to;
          stream := Some(Stream(to, stream.value.script[1..]));
          return Ok(Some(bytes));
        case Broken =>
          if delivered >= total {
            stream := None;
            return Ok(None);
          }
          if resumes >= MAX_RESUMES {
            stream := Some(Stream(delivered, stream.value.script[1..]));
            failed := true;
            return Err(TooManyResumes);
          }
          resumes := resumes + 1;
          stream := None;
          var ok := Reopen();
          if !ok {
            return Err(GetFailed);
          }
      }
    }

    /**
     * Why a download failed: after eight resumes; at a stream that ended early; or at a GET
     * that resumed a broken stream. Nothing else is a failure.
     */
    ghost predicate Explains(e: ReadError, resumesBefore: nat)
      reads this
    {
      match e
      case TooManyResumes => resumes == 8
      case Truncated => delivered < total && stream.None?
      case GetFailed => resumes > resumesBefore && stream.None?
    }

    /** `Valid` but for the chunk just taken, which has still to become `pending`. */
    ghost predicate Resumed(from: nat, bytes: seq<byte>)
      reads this
    {
      && total == |blob|
      && from + |bytes| == delivered <= total
      && (stream.Some? ==> stream.value.pos == delivered)
      && (stream.None? && !failed ==> delivered == total)
      && resumes <= MAX_RESUMES && |ranges| <= gets <= resumes + 1
      && (forall i :: 0 <= i < |ranges| ==> 0 < ranges[i] < total)
    }

    /** Resuming where the broken stream stopped. */
    method Reopen() returns (ok: bool)
      requires total == |blob| && delivered < total && pending == [] && stream.None?
      requires 0 < resumes <= MAX_RESUMES && |ranges| <= gets <= resumes
      requires forall i :: 0 <= i < |ranges| ==> 0 < ranges[i] < total
      modifies this`stream, this`ranges, this`gets, this`failed
      ensures Valid() && gets == old(gets) + 1
      ensures if ok then stream.Some? && failed == old(failed) else failed && stream.None?
    {
      ok := OpenStream();
    }

    /**
     * One read of at most `max` bytes. What is returned is always the next bytes of the
     * object, and a non-empty request is answered with nothing, before any failure, only at
     * its very end.
     */
    method Read(max: nat) returns (r: Result<seq<byte>, ReadError>)
      requires Valid()
      modifies this
      ensures Valid()
      ensures match r
        case Ok(bytes) =>
          && |bytes| <= max && 0 <= old(Returned()) && Returned() == old(Returned()) + |bytes| <= total
          && bytes == blob[old(Returned())..Returned()]
          && failed == old(failed)
          && (bytes == [] && max > 0 && !failed ==> Returned() == total)
        case Err(e) => failed && Returned() == old(Returned()) && Explains(e, old(resumes))
      ensures old(resumes) <= resumes && gets - old(gets) == resumes - old(resumes)
    {
      if max == 0 {
        return Ok([]);
      }
      while pending == []
        invariant Valid() && Returned() == old(Returned()) && failed == old(failed)
        invariant old(resumes) <= resumes && gets - old(gets) == resumes - old(resumes)
        decreases MAX_RESUMES - resumes, if pending == [] then Left() + 1 else 0
      {
        var chunk := NextChunk();
        if chunk.Err? {
          return Err(chunk.error);
        }
        if chunk.value.None? {
          return Ok([]);
        }
        pending := chunk.value.value;
      }
      var take := if |pending| <= max then |pending| else max;
      var bytes := pending[..take];
      assert bytes == blob[Returned()..Returned() + take];
      pending := pending[take..];
      return Ok(bytes);
    }
  }

  /**
   * Reading an object to its end with requests of any size. Whatever the store does, what
   * comes out is a prefix of the object, and an end is reported only after all of it; at
   * most eight resumes happen, and no ranged GET starts at or past the length.
   */
  method ReadToEnd(blob: seq<byte>, request: nat)
    returns (bytes: seq<byte>, outcome: Option<ReadError>, resumes: nat, ghost ranges: seq<nat>)
    requires request > 0
    ensures |bytes| <= |blob| && bytes == blob[..|bytes|]
    ensures outcome.None? ==> bytes == blob
    ensures resumes <= 8 && (outcome == Some(TooManyResumes) ==> resumes == 8)
    ensures outcome == Some(Truncated) ==> |bytes| < |blob|
    ensures |ranges| <= resumes + 1
    ensures forall i :: 0 <= i < |ranges| ==> 0 < ranges[i] < |blob|
  {
    bytes := [];
    var source := new ObjectSource(blob);
    var ok := source.Start();
    if !ok {
      return bytes, Some(GetFailed), source.resumes, source.ranges;
    }
    while true
      invariant fresh(source) && source.Valid() && source.blob == blob && !source.failed
      invariant 0 <= source.Returned() <= |blob| && bytes == blob[..source.Returned()]
      decreases |blob| - source.Returned()
    {
      ghost var from := source.Returned();
      var r := source.Read(request);
      if r.Err? {
        return bytes, Some(r.error), source.resumes, source.ranges;
      }
      if r.value == [] {
        return bytes, None, source.resumes, source.ranges;
      }
      assert blob[..from] + blob[from..source.Returned()] == blob[..source.Returned()];
      bytes := bytes + r.value;
    }
  }
}
