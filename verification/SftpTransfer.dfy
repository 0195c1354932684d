/** Resumable SFTP upload and download through a part file beside the target. */
module SftpTransfer {
  import opened Common

  type Bytes = seq<bv8>

  datatype TransferError = TransferFailed | TransferCancelled

  /** The two files an attempt works on. */
  datatype Files = Files(part: Option<Bytes>, target: Option<Bytes>)

  const SFTP_TRANSFER_CHUNK_BYTES: nat := 256 * 1024

  /** `resume_offset_for_partial`: a part longer than the whole file is worthless. */
  function ResumeOffset(partialBytes: nat, totalBytes: nat): (r: nat)
    ensures r <= totalBytes && (r == partialBytes || r == 0)
  {
    if partialBytes <= totalBytes then partialBytes else 0
  }

  /** `next_transfer_read_len`: never past the end of the file, and no empty read before it. */
  function NextReadLen(loadedBytes: nat, totalBytes: nat, bufferLen: nat): (r: nat)
    ensures loadedBytes <= totalBytes ==> loadedBytes + r <= totalBytes
    ensures r <= bufferLen
    ensures r == 0 <==> totalBytes <= loadedBytes || bufferLen == 0
  {
    var remaining := if loadedBytes <= totalBytes then totalBytes - loadedBytes else 0;
    if remaining <= bufferLen then remaining else bufferLen
  }

  function Size(file: Option<Bytes>): nat {
    if file.Some? then |file.value| else 0
  }

  /** The bytes an attempt keeps of the part file it finds. */
  function Kept(part: Option<Bytes>, total: nat): Bytes {
    if part.Some? && |part.value| <= total then part.value else []
  }

  function Min(a: nat, b: nat): nat {
    if a <= b then a else b
  }

  /** The kept bytes, continued with the source's own from there up to byte `n`. */
  function Continued(kept: Bytes, source: Bytes, n: nat): Bytes {
    if Min(n, |source|) <= |kept| then kept else kept + source[|kept|..Min(n, |source|)]
  }

  /** Overwriting at a position: what `seek` and `write_all` do. */
  function WriteAt(file: Bytes, position: nat, data: Bytes): Bytes
    requires position <= |file|
  {
    file[..position] + data + (if position + |data| <= |file| then file[position + |data|..] else [])
  }

  /** A write that stored the first `k` bytes of its data. */
  function PartlyWritten(file: Bytes, position: nat, data: Bytes, k: nat): Bytes
    requires position <= |file| && k <= |data|
  {
    WriteAt(file, position, data[..k])
  }

  lemma StartsWithKept(kept: Bytes, source: Bytes, n: nat)
    requires n <= |kept|
    ensures Continued(kept, source, n) == kept
  {
  }

  lemma BeyondTheEnd(kept: Bytes, source: Bytes, n: nat)
    requires |source| <= n
    ensures Continued(kept, source, n) == Continued(kept, source, |source|)
  {
  }

  lemma AppendContinues(kept: Bytes, source: Bytes, n: nat, m: nat)
    requires |kept| <= n <= m <= |source|
    ensures |Continued(kept, source, n)| == n
    ensures WriteAt(Continued(kept, source, n), n, source[n..m]) == Continued(kept, source, m)
  {
    hide WriteAt;
    assert source[|kept|..n] + source[n..m] == source[|kept|..m];
    AppendAtEnd(Continued(kept, source, n), source[n..m]);
  }

  lemma AppendAtEnd(file: Bytes, data: Bytes)
    ensures WriteAt(file, |file|, data) == file + data
  {
  }

  /** What an attempt that failed or was cancelled can leave: the part file as it was, or gone because it was
      too long, or the kept bytes continued a little; and the old target, unless the part is complete. */
  ghost predicate FailedAttempt(before: Files, after: Files, source: Bytes, total: nat, end: nat) {
    && (|| after.part == before.part
        || (after.part.None? && Size(before.part) > total)
        || exists n: nat :: n <= end && after.part == Some(Continued(Kept(before.part, total), source, n)))
    && (|| after.target == before.target
        || (after.target.None? && after.part == Some(Continued(Kept(before.part, total), source, end))))
  }

  lemma UntouchedAttempt(before: Files, source: Bytes, total: nat, end: nat)
    ensures FailedAttempt(before, before, source, total, end)
  {
  }

  lemma DiscardedAttempt(before: Files, source: Bytes, total: nat, end: nat)
    requires Size(before.part) > total
    ensures FailedAttempt(before, before.(part := None), source, total, end)
  {
  }

  lemma InterruptedAttempt(before: Files, source: Bytes, total: nat, end: nat, n: nat)
    requires n <= end
    ensures var part := Some(Continued(Kept(before.part, total), source, n));
            FailedAttempt(before, before.(part := part), source, total, end)
  {
    hide Continued, Kept;
  }

  /** The part is complete, whatever became of the target. */
  lemma UnmovedAttempt(before: Files, after: Files, source: Bytes, total: nat, end: nat)
    requires after.part == Some(Continued(Kept(before.part, total), source, end))
    requires after.target == before.target || after.target.None?
    ensures FailedAttempt(before, after, source, total, end)
  {
    hide Continued, Kept;
  }

  /** The state of a loop that has stored everything up to byte `loaded`. */
  lemma CurrentAttempt(before: Files, source: Bytes, total: nat, end: nat, loaded: nat)
    requires loaded <= end || |source| <= end
    ensures var part := Some(Continued(Kept(before.part, total), source, loaded));
            FailedAttempt(before, before.(part := part), source, total, end)
  {
    hide Kept;
    var n := Min(loaded, end);
    assert Continued(Kept(before.part, total), source, loaded) == Continued(Kept(before.part, total), source, n);
    InterruptedAttempt(before, source, total, end, n);
  }

  lemma BrokenAttempt(before: Files, now: Bytes, source: Bytes, total: nat, end: nat, limit: nat)
    requires limit <= end
    requires exists n: nat :: n <= limit && now == Continued(Kept(before.part, total), source, n)
    ensures FailedAttempt(before, before.(part := Some(now)), source, total, end)
  {
    hide Continued, Kept;
    var n: nat :| n <= limit && now == Continued(Kept(before.part, total), source, n);
    InterruptedAttempt(before, source, total, end, n);
  }

  /** A part file is kept whole unless it is too long; the offset is its length, and the whole file is there exactly
      when its size is the announced one. */
  lemma KeptSize(part: Option<Bytes>, total: nat)
    ensures part.Some? && |part.value| <= total ==> Kept(part, total) == part.value
    ensures part.None? || |part.value| > total ==> Kept(part, total) == []
    ensures |Kept(part, total)| == total <==> total == 0 || (part.Some? && |part.value| == total)
    ensures |Kept(part, total)| == ResumeOffset(Size(part), total)
    ensures Kept(part, total) == (if ResumeOffset(Size(part), total) == 0 then [] else part.value)
  {
  }

  predicate SuccessfulAttempt(before: Files, after: Files, source: Bytes, total: nat, end: nat) {
    after == Files(None, Some(Continued(Kept(before.part, total), source, end)))
  }

  /** What a successful attempt delivers: the bytes of a part file that is not too long, whatever they are, and behind
      them the source's own up to `end`. A part file of the full size is delivered as it is. */
  lemma SuccessSpelled(before: Files, after: Files, source: Bytes, total: nat, end: nat)
    requires SuccessfulAttempt(before, after, source, total, end)
    ensures after.part.None? && after.target.Some?
    ensures var kept := if before.part.Some? && |before.part.value| <= total then |before.part.value| else 0;
            var last := if end <= |source| then end else |source|;
            var delivered := after.target.value;
            && |delivered| == (if kept <= last then last else kept)
            && (forall k :: 0 <= k < kept ==> delivered[k] == before.part.value[k])
            && (forall k :: kept <= k < last ==> delivered[k] == source[k])
  {
  }

  /** Progress of one attempt: it starts at the resume offset, never goes back and stays within the announced
      total. */
  predicate ProperProgress(reported: seq<nat>, base: nat, total: nat) {
    && (forall i :: 0 <= i < |reported| ==> base <= reported[i] <= base + total)
    && (forall i, j :: 0 <= i <= j < |reported| ==> reported[i] <= reported[j])
  }

  lemma FirstReport(base: nat, total: nat)
    ensures ProperProgress([], base, total)
  {
  }

  lemma ReportKeepsProper(reported: seq<nat>, value: nat, base: nat, total: nat)
    requires ProperProgress(reported, base, total)
    requires base <= value <= base + total && (reported != [] ==> reported[|reported| - 1] <= value)
    ensures ProperProgress(reported + [value], base, total)
  {
    var next := reported + [value];
    forall i, j | 0 <= i <= j < |next| ensures next[i] <= next[j] {
      if j == |reported| && i < j {
        assert reported[i] <= reported[|reported| - 1];
      }
    }
  }

  /** How many bytes a read or a write moves is up to the system. */
  method Choose(low: nat, high: nat) returns (k: nat)
    requires low <= high
    ensures low <= k <= high
  {
    k :| low <= k <= high;
  }

  /** One target, its part file and what has been reported to the progress callback of the current attempt. */
  class Transfer {
    var part: Option<Bytes>
    var target: Option<Bytes>
    var reported: seq<nat>
    /** When set, no operation fails, a read gets bytes while there are any, and nobody cancels. */
    const reliable: bool

    constructor (part: Option<Bytes>, target: Option<Bytes>, reliable: bool)
      ensures this.part == part && this.target == target && this.reliable == reliable
    {
      this.part, this.target, this.reported, this.reliable := part, target, [], reliable;
    }

    /** Whether an operation of either side succeeds. */
    method Try() returns (ok: bool)
      ensures reliable ==> ok
    {
      ok := *;
      ok := ok || reliable;
    }

    function State(): Files
      reads this
    {
      Files(part, target)
    }

    /** Writing a chunk: a failing write may have stored any part of it. */
    method WriteChunk(position: nat, data: Bytes) returns (ok: bool)
      requires part.Some? && position == |part.value|
      modifies this`part
      ensures part.Some?
      ensures ok ==> part.value == WriteAt(old(part).value, position, data)
      ensures reliable ==> ok
      ensures exists k: nat :: k <= |data| && part.value == PartlyWritten(old(part).value, position, data, k)
    {
      ok := Try();
      var stored := |data|;
      if !ok {
        stored := Choose(0, |data|);
      }
      assert data[..|data|] == data;
      part := Some(PartlyWritten(part.value, position, data, stored));
    }

    /** Opening the part file: created or emptied when nothing is kept. */
    method OpenPart(offset: nat) returns (ok: bool)
      requires offset == 0 || offset == Size(part)
      modifies this`part
      ensures ok ==> part == Some(if offset == 0 then [] else old(part).value)
      ensures !ok ==> part == old(part)
      ensures reliable ==> ok
    {
      ok := Try();
      if ok {
        part := if offset == 0 then Some([]) else part;
      }
    }

    /** Everything before the first byte: look at the part file, drop it when it is too long (the upload insists
        on that, the download truncates anyway), open both sides and seek to the resume offset. */
    method PreparePart(ghost source: Bytes, total: nat, ghost end: nat, mustRemove: bool)
      returns (r: Result<nat, TransferError>)
      modifies this`part
      ensures r.Ok? ==> r.value == |Kept(old(part), total)| <= total
      ensures r.Ok? ==> part == Some(Continued(Kept(old(part), total), source, r.value))
      ensures r.Err? ==> FailedAttempt(old(State()), State(), source, total, end)
      ensures reliable ==> r.Ok?
    {
      hide Continued, FailedAttempt, Kept;
      ghost var start := State();
      KeptSize(part, total);
      UntouchedAttempt(start, source, total, end);
      if Size(part) > total {
        DiscardedAttempt(start, source, total, end);
      }
      var known := Try();
      if !known {
        return Err(TransferFailed);
      }
      var existing := Size(part);
      var offset := ResumeOffset(existing, total);
      if existing > total {
        var removed := Try();
        if removed {
          part := None;
        } else if mustRemove {
          return Err(TransferFailed);
        }
      }
      var sourceReady := Try();
      if !sourceReady {
        return Err(TransferFailed);
      }
      var ready := OpenPart(offset);
      if !ready {
        return Err(TransferFailed);
      }
      StartsWithKept(Kept(start.part, total), source, offset);
      StartsWithKept(Kept(start.part, total), source, 0);
      InterruptedAttempt(start, source, total, end, 0);
      var seeked := Try();
      if !seeked {
        return Err(TransferFailed);
      }
      r := Ok(offset);
    }

    method Report(value: nat)
      modifies this`reported
      ensures reported == old(reported) + [value]
    {
      reported := reported + [value];
    }

    /** The remote copy is moved over the target: remove the target if there is one, then rename. */
    method ReplaceTarget() returns (r: Result<Done, TransferError>)
      requires part.Some?
      modifies this`part, this`target
      ensures r.Ok? ==> part.None? && target == old(part)
      ensures r.Err? ==> part == old(part) && (target == old(target) || target.None?)
      ensures reliable ==> r.Ok?
    {
      var removed := Try();
      if !removed {
        return Err(TransferFailed);
      }
      target := None;
      var renamed := Try();
      if !renamed {
        return Err(TransferFailed);
      }
      target, part := part, None;
      r := Ok(Done);
    }

    /** As in the download: a failing removal is ignored, the rename replaces. */
    method ReplaceLocalTarget() returns (r: Result<Done, TransferError>)
      requires part.Some?
      modifies this`part, this`target
      ensures r.Ok? ==> part.None? && target == old(part)
      ensures r.Err? ==> part == old(part) && (target == old(target) || target.None?)
      ensures reliable ==> r.Ok?
    {
      var removed := Try();
      if target.Some? && removed {
        target := None;
      }
      var renamed := Try();
      if !renamed {
        return Err(TransferFailed);
      }
      target, part := part, None;
      r := Ok(Done);
    }

    /** `upload_sftp_file`: reads the local file to its end, whatever size was announced. */
    method UploadFile(source: Bytes, total: nat, base: nat) returns (r: Result<Done, TransferError>)
      modifies this
      ensures r.Ok? ==> SuccessfulAttempt(old(State()), State(), source, total, |source|)
      ensures r.Err? ==> FailedAttempt(old(State()), State(), source, total, |source|)
      ensures |source| <= total ==> ProperProgress(reported, base, total)
      ensures r.Ok? ==> reported != [] && reported[|reported| - 1] == base + total
      ensures reliable ==> r.Ok?
    {
      hide Continued, WriteAt, PartlyWritten, ProperProgress, FailedAttempt, Kept;
      ghost var start := State();
      ghost var kept := Kept(part, total);
      FirstReport(base, total);
      reported := [];
      var prepared := PreparePart(source, total, |source|, true);
      if prepared.Err? {
        return Err(prepared.error);
      }
      var offset := prepared.value;
      var loaded := offset;
      ReportKeepsProper(reported, base + loaded, base, total);
      Report(base + loaded);
      while true
        invariant target == old(target)
        invariant offset <= loaded && offset == |kept|
        invariant loaded > offset ==> loaded <= |source|
        invariant part == Some(Continued(kept, source, loaded))
        invariant reported != [] && reported[|reported| - 1] == base + loaded
        invariant |source| <= total ==> loaded <= total && ProperProgress(reported, base, total)
        decreases |source| - loaded
      {
        CurrentAttempt(start, source, total, |source|, loaded);
        var running := Try();
        if !running {
          return Err(TransferCancelled);
        }
        var readable := Try();
        if !readable {
          return Err(TransferFailed);
        }
        if loaded >= |source| {
          break;
        }
        var read := Choose(1, Min(SFTP_TRANSFER_CHUNK_BYTES, |source| - loaded));
        AppendContinues(kept, source, loaded, loaded + read);
        ghost var before := part.value;
        var ok := WriteChunk(loaded, source[loaded..loaded + read]);
        if !ok {
          PartialChunk(kept, source, before, source[loaded..loaded + read], part.value);
          BrokenAttempt(start, part.value, source, total, |source|, loaded + read);
          return Err(TransferFailed);
        }
        loaded := loaded + read;
        if |source| <= total {
          ReportKeepsProper(reported, base + loaded, base, total);
        }
        Report(base + loaded);
      }
      BeyondTheEnd(kept, source, loaded);
      UnmovedAttempt(start, State(), source, total, |source|);
      var confirmed := Try();
      if !confirmed {
        return Err(TransferFailed);
      }
      r := ReplaceTarget();
      if r.Err? {
        UnmovedAttempt(start, State(), source, total, |source|);
        return;
      }
      if |source| <= total {
        ReportKeepsProper(reported, base + total, base, total);
      }
      Report(base + total);
    }

    /** `download_sftp_file`: reads exactly the announced size; a source that ends early is an error, unless the
        part file alone has that size. */
    method DownloadFile(source: Bytes, total: nat, base: nat) returns (r: Result<Done, TransferError>)
      modifies this
      ensures r.Ok? ==> SuccessfulAttempt(old(State()), State(), source, total, total)
      ensures r.Err? ==> FailedAttempt(old(State()), State(), source, total, total)
      ensures r.Ok? ==> total <= |source| || |Kept(old(part), total)| == total
      ensures reliable ==> (r.Ok? <==> total <= |source| || |Kept(old(part), total)| == total)
      ensures ProperProgress(reported, base, total)
      ensures r.Ok? ==> reported != [] && reported[|reported| - 1] == base + total
    {
      hide Continued, WriteAt, PartlyWritten, ProperProgress, FailedAttempt, Kept;
      ghost var start := State();
      ghost var kept := Kept(part, total);
      FirstReport(base, total);
      reported := [];
      var prepared := PreparePart(source, total, total, false);
      if prepared.Err? {
        return Err(prepared.error);
      }
      var offset := prepared.value;
      var loaded := offset;
      ReportKeepsProper(reported, base + loaded, base, total);
      Report(base + loaded);
      while loaded < total
        invariant target == old(target)
        invariant offset <= loaded <= total && offset == |kept|
        invariant loaded > offset ==> loaded <= |source|
        invariant part == Some(Continued(kept, source, loaded))
        invariant reported != [] && reported[|reported| - 1] == base + loaded
        invariant ProperProgress(reported, base, total)
      {
        CurrentAttempt(start, source, total, total, loaded);
        var running := Try();
        if !running {
          return Err(TransferCancelled);
        }
        var readable := Try();
        if !readable {
          return Err(TransferFailed);
        }
        var readLen := NextReadLen(loaded, total, SFTP_TRANSFER_CHUNK_BYTES);
        var available := if loaded <= |source| then |source| - loaded else 0;
        var reading := Try();
        var read := Choose(if reading then Min(1, available) else 0, Min(readLen, available));
        if read == 0 {
          return Err(TransferFailed);
        }
        AppendContinues(kept, source, loaded, loaded + read);
        ghost var before := part.value;
        var ok := WriteChunk(loaded, source[loaded..loaded + read]);
        if !ok {
          PartialChunk(kept, source, before, source[loaded..loaded + read], part.value);
          BrokenAttempt(start, part.value, source, total, total, loaded + read);
          return Err(TransferFailed);
        }
        loaded := loaded + read;
        ReportKeepsProper(reported, base + loaded, base, total);
        Report(base + loaded);
      }
      UnmovedAttempt(start, State(), source, total, total);
      var flushed := Try();
      if !flushed {
        return Err(TransferFailed);
      }
      r := ReplaceLocalTarget();
      if r.Err? {
        UnmovedAttempt(start, State(), source, total, total);
        return;
      }
      ReportKeepsProper(reported, base + total, base, total);
      Report(base + total);
    }
  }

  /** A chunk written half-way still continues the source. */
  lemma PartialChunk(kept: Bytes, source: Bytes, before: Bytes, data: Bytes, now: Bytes)
    requires |kept| <= |before| && |before| + |data| <= |source|
    requires before == Continued(kept, source, |before|) && data == source[|before|..|before| + |data|]
    requires exists k: nat :: k <= |data| && now == PartlyWritten(before, |before|, data, k)
    ensures exists n: nat :: n <= |before| + |data| && now == Continued(kept, source, n)
  {
    var k: nat :| k <= |data| && now == PartlyWritten(before, |before|, data, k);
    assert data[..k] == source[|before|..|before| + k];
    AppendContinues(kept, source, |before|, |before| + k);
  }

  // ---- any number of attempts ----

  /** There is no part file, or it is a prefix of the source. */
  predicate Resumable(files: Files, source: Bytes) {
    files.part.None? || files.part.value <= source
  }

  datatype Attempt = Attempt(ok: bool, after: Files)

  /** A sequence of attempts on a source that does not change; each starts where the last one left off. */
  ghost predicate Attempts(start: Files, run: seq<Attempt>, source: Bytes)
    decreases |run|
  {
    run != [] ==>
      && (if run[0].ok then SuccessfulAttempt(start, run[0].after, source, |source|, |source|)
          else FailedAttempt(start, run[0].after, source, |source|, |source|))
      && Attempts(run[0].after, run[1..], source)
  }

  lemma ContinuedPrefix(kept: Bytes, source: Bytes, n: nat)
    requires kept <= source
    ensures Continued(kept, source, n) <= source
    ensures Continued(kept, source, |source|) == source
  {
    assert source[..|kept|] == kept;
    if Min(n, |source|) > |kept| {
      assert kept + source[|kept|..Min(n, |source|)] == source[..Min(n, |source|)];
    }
    assert kept + source[|kept|..] == source;
  }

  lemma OneAttempt(before: Files, attempt: Attempt, source: Bytes)
    requires Resumable(before, source)
    requires if attempt.ok then SuccessfulAttempt(before, attempt.after, source, |source|, |source|)
             else FailedAttempt(before, attempt.after, source, |source|, |source|)
    ensures Resumable(attempt.after, source)
    ensures attempt.ok ==> attempt.after == Files(None, Some(source))
    ensures attempt.after.target == before.target || attempt.after.target == Some(source)
         || (attempt.after.target.None? && attempt.after.part == Some(source))
  {
    var kept := Kept(before.part, |source|);
    ContinuedPrefix(kept, source, |source|);
    if !attempt.ok {
      var after := attempt.after;
      if !(after.part == before.part || after.part.None?) {
        var n: nat :| n <= |source| && after.part == Some(Continued(kept, source, n));
        ContinuedPrefix(kept, source, n);
      }
    }
  }

  /** Resume correctness: however many attempts failed or were cancelled before, the part file is always a
      prefix of the source, a successful attempt leaves the target equal to the source with no part file, and
      the target is at every moment the old one, the whole new one, or absent beside a complete part. */
  lemma {:induction false} ResumeCorrect(start: Files, run: seq<Attempt>, source: Bytes, i: nat)
    requires Resumable(start, source) && Attempts(start, run, source) && i < |run|
    ensures Resumable(run[i].after, source)
    ensures run[i].ok ==> run[i].after == Files(None, Some(source))
    ensures run[i].after.target == start.target || run[i].after.target == Some(source) || run[i].after.target.None?
    decreases |run|
  {
    OneAttempt(start, run[0], source);
    if i > 0 {
      ResumeCorrect(run[0].after, run[1..], source, i - 1);
    }
  }

  /** The exact condition on what an attempt finds: success delivers the source if and only if the part file
      was absent, too long, or a prefix. */
  lemma SuccessIsExact(before: Files, after: Files, source: Bytes)
    requires SuccessfulAttempt(before, after, source, |source|, |source|)
    ensures after.target == Some(source) <==>
            before.part.None? || |before.part.value| > |source| || before.part.value <= source
  {
    var kept := Kept(before.part, |source|);
    var whole := Continued(kept, source, |source|);
    if kept <= source {
      ContinuedPrefix(kept, source, |source|);
    } else {
      assert whole[..|kept|] == kept;
    }
  }

  /** A part file that is no prefix is kept as it is: the attempt succeeds and delivers something else. */
  lemma ForeignPartSpoils(part: Bytes, source: Bytes)
    requires part == [1] && source == [2, 3]
    ensures SuccessfulAttempt(Files(Some(part), None), Files(None, Some([1, 3])), source, |source|, |source|)
    ensures Some([1, 3]) != Some(source)
  {
    var before := Files(Some(part), None);
    assert |source| == 2 && Kept(before.part, |source|) == part;
    var delivered: Bytes := [1, 3];
    assert Continued(part, source, |source|) == part + source[1..2];
    assert part + source[1..2] == delivered;
    assert delivered[0] != source[0];
  }
}
