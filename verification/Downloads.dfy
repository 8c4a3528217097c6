/**
  The resumable blob download of distribution/pull_v2.go (`v2LayerDescriptor.Download`), as a state
  machine over attempts. The registry, the temporary file system and the digest computation are
  parameters of an attempt; `verified` stands for "has the requested digest".
*/
module Downloads {
  import opened Wrappers

  type Byte = bv8

  /** The fields that outlive an attempt: the bytes of tmpFile, and the bytes fed to the verifier. */
  datatype Descriptor = Descriptor(tmpFile: Option<seq<Byte>>, verifier: Option<seq<Byte>>)

  /** `final` says that retryOnError marks the error as one that a retry will not help. */
  datatype OpenResult = Opened | BlobUnknown | OpenError(final: bool)
  datatype CopyEnd = EOF | WrongRange | CopyError(final: bool)

  /** What one attempt meets. `size` is `None` when seeking to the end of the remote blob fails. */
  datatype Attempt = Attempt(
    createOK: bool, seekEndOK: bool, truncateOK: bool, rewindOK: bool, verifierOK: bool,
    open: OpenResult, resumeOK: bool, size: Option<nat>, restoreOK: bool,
    delivered: seq<Byte>, end: CopyEnd)

  datatype Outcome = Success(content: seq<Byte>) | Retry | Fatal

  const Initial := Descriptor(None, None)

  // ---------------------------------------------------------------- one attempt

  /** truncateDownloadFile. */
  function Truncate(ld: Descriptor, ok: bool): Descriptor {
    Descriptor(if ok then Some([]) else ld.tmpFile, None)
  }

  function TruncateThenRetry(ld: Descriptor, ok: bool): (Descriptor, Outcome) {
    (Truncate(ld, ok), if ok then Retry else Fatal)
  }

  /** The temporary file an attempt works on, if it can have one, and the bytes it has already. */
  function Prepare(ld: Descriptor, a: Attempt): Option<seq<Byte>> {
    if ld.tmpFile.Some? && a.seekEndOK then ld.tmpFile
    else if a.createOK then Some([])
    else None
  }

  /** From the check of a completed copy on. */
  function Finish(ld: Descriptor, a: Attempt, resumed: bool, verified: seq<Byte> -> bool): (Descriptor, Outcome)
    requires ld.tmpFile.Some? && ld.verifier.Some?
  {
    if !verified(ld.verifier.value) then
      if resumed then TruncateThenRetry(ld, a.truncateOK) else (ld, Fatal)
    else if !a.rewindOK then (Descriptor(None, None), Fatal)
    else (ld.(tmpFile := None), Success(ld.tmpFile.value))
  }

  /** From the creation of the verifier on: the copy from offset `|ld.tmpFile|`. */
  function Copy(ld: Descriptor, a: Attempt, verified: seq<Byte> -> bool): (Descriptor, Outcome)
    requires ld.tmpFile.Some?
  {
    if ld.verifier.None? && !a.verifierOK then (ld, Fatal)
    else
      var before := ld.tmpFile.value;
      var fed := if ld.verifier.None? then [] else ld.verifier.value;
      var copied := Descriptor(Some(before + a.delivered), Some(fed + a.delivered));
      match a.end
      case WrongRange => TruncateThenRetry(copied, a.truncateOK)
      case CopyError(final) => (copied, if final then Fatal else Retry)
      case EOF => Finish(copied, a, |before| != 0, verified)
  }

  /** Download. */
  function RunAttempt(ld: Descriptor, a: Attempt, verified: seq<Byte> -> bool): (Descriptor, Outcome) {
    var tmp := Prepare(ld, a);
    if tmp.None? then (ld.(tmpFile := None), Fatal)
    else
      var ready := ld.(tmpFile := tmp);
      var offset := |tmp.value|;
      if !a.open.Opened? then (ready, if a.open.BlobUnknown? || a.open.final then Fatal else Retry)
      else if offset != 0 && !a.resumeOK then TruncateThenRetry(ready, a.truncateOK)
      else if a.size.None? then Copy(ready, a, verified)
      else if a.size.value != 0 && offset > a.size.value then
        if !a.truncateOK then (Truncate(ready, false), Fatal)
        else if !a.restoreOK then (Truncate(ready, true), Retry)
        else Copy(Truncate(ready, true), a, verified)
      else if !a.restoreOK then (ready, Retry)
      else Copy(ready, a, verified)
  }

  // ---------------------------------------------------------------- the outcome of an attempt

  /** The bytes of earlier attempts that an attempt finds, if it can position the file behind them. */
  function Found(ld: Descriptor, a: Attempt): seq<Byte> {
    if ld.tmpFile.Some? && a.seekEndOK then ld.tmpFile.value else []
  }

  /** There is a temporary file to work on. */
  predicate HasFile(ld: Descriptor, a: Attempt) {
    (ld.tmpFile.Some? && a.seekEndOK) || a.createOK
  }

  /** The registry opens the blob, but not at the offset of what was found. */
  predicate CannotResume(ld: Descriptor, a: Attempt) {
    HasFile(ld, a) && a.open.Opened? && Found(ld, a) != [] && !a.resumeOK
  }

  /** The blob is opened at the offset, but is known to be shorter than what was found. */
  predicate Oversized(ld: Descriptor, a: Attempt) {
    HasFile(ld, a) && a.open.Opened? && !CannotResume(ld, a) && a.size.Some? && 0 < a.size.value < |Found(ld, a)|
  }

  /** The attempt comes to the verifier. */
  predicate ReachesVerifier(ld: Descriptor, a: Attempt) {
    && HasFile(ld, a) && a.open.Opened? && !CannotResume(ld, a)
    && (Oversized(ld, a) ==> a.truncateOK) && (a.size.Some? ==> a.restoreOK)
  }

  /** The attempt copies: it has a verifier or can make one. */
  predicate ReachesCopy(ld: Descriptor, a: Attempt) {
    ReachesVerifier(ld, a) && ((ld.verifier.Some? && !Oversized(ld, a)) || a.verifierOK)
  }

  /** The bytes in the file, and those fed to the verifier, when the copy starts. */
  function KeptBytes(ld: Descriptor, a: Attempt): seq<Byte> {
    if Oversized(ld, a) then [] else Found(ld, a)
  }

  function FedBytes(ld: Descriptor, a: Attempt): seq<Byte> {
    if Oversized(ld, a) || ld.verifier.None? then [] else ld.verifier.value
  }

  /**
    Every outcome of an attempt, from what it finds and meets. It succeeds exactly when a copy reaches
    its end, is verified and the file can be rewound; it then returns what was kept and what was
    delivered. It is given up exactly when there is no file, the blob is unknown or the error final,
    a truncation that is needed fails, no verifier can be made, a copy from the beginning is
    rejected, or the rewind fails. In all other cases it may be retried.
  */
  lemma OutcomeExactly(ld: Descriptor, a: Attempt, verified: seq<Byte> -> bool)
    ensures var r := RunAttempt(ld, a, verified).1;
            var content, ends := KeptBytes(ld, a) + a.delivered, ReachesCopy(ld, a) && a.end.EOF?;
            var accepted := verified(FedBytes(ld, a) + a.delivered);
            && (r.Success? <==> ends && accepted && a.rewindOK)
            && (r.Success? ==> r.content == content)
            && (r.Fatal? <==>
                  || !HasFile(ld, a)
                  || (HasFile(ld, a) && (a.open.BlobUnknown? || a.open == OpenError(true)))
                  || ((CannotResume(ld, a) || Oversized(ld, a)) && !a.truncateOK)
                  || (ReachesVerifier(ld, a) && !ReachesCopy(ld, a))
                  || (ReachesCopy(ld, a) && a.end == CopyError(true))
                  || (ReachesCopy(ld, a) && a.end.WrongRange? && !a.truncateOK)
                  || (ends && !accepted && (KeptBytes(ld, a) == [] || !a.truncateOK))
                  || (ends && accepted && !a.rewindOK))
  {}

  /** A file larger than the blob is thrown away: an attempt that completes then returns what was delivered alone. */
  lemma OversizedStartsOver(ld: Descriptor, a: Attempt, verified: seq<Byte> -> bool)
    requires Oversized(ld, a) && a.truncateOK && Completes(a)
    ensures RunAttempt(ld, a, verified).1 == if verified(a.delivered) then Success(a.delivered) else Fatal
  {
    OutcomeExactly(ld, a, verified);
    assert [] + a.delivered == a.delivered;
  }

  /** What is left for the next attempt when one may be retried: nothing after a truncation, else all bytes so far. */
  lemma RetryKeepsBytes(ld: Descriptor, a: Attempt, verified: seq<Byte> -> bool)
    requires RunAttempt(ld, a, verified).1.Retry?
    ensures var ld' := RunAttempt(ld, a, verified).0;
            if CannotResume(ld, a) || (ReachesCopy(ld, a) && !a.end.CopyError?) then ld' == Descriptor(Some([]), None)
            else if ReachesCopy(ld, a) then ld' == Descriptor(Some(KeptBytes(ld, a) + a.delivered), Some(FedBytes(ld, a) + a.delivered))
            else ld' == Descriptor(Some(KeptBytes(ld, a)), if Oversized(ld, a) then None else ld.verifier)
  {}

  // ---------------------------------------------------------------- the verifier has seen the file

  /** The verifier was fed exactly the bytes of the temporary file. */
  ghost predicate Synced(ld: Descriptor) {
    match ld.tmpFile
    case None => ld.verifier.None?
    case Some(bytes) => if ld.verifier.None? then bytes == [] else ld.verifier.value == bytes
  }

  /** The operations on the temporary file that the attempt needs succeed. */
  ghost predicate FileWorks(ld: Descriptor, a: Attempt) {
    a.truncateOK && (ld.tmpFile.Some? ==> a.seekEndOK)
  }

  /** A failed attempt leaves file and verifier in step; a successful one returns content with the requested digest. */
  lemma AttemptKeepsSync(ld: Descriptor, a: Attempt, verified: seq<Byte> -> bool)
    requires Synced(ld) && FileWorks(ld, a)
    ensures var (ld', r) := RunAttempt(ld, a, verified);
            if r.Success? then verified(r.content) else Synced(ld')
  {}

  /** The state before attempt `n`, when all attempts before it have failed. */
  function After(attempts: seq<Attempt>, verified: seq<Byte> -> bool): Descriptor {
    if attempts == [] then Initial
    else RunAttempt(After(attempts[..|attempts| - 1], verified), attempts[|attempts| - 1], verified).0
  }

  /** Attempts one after the other: every one but possibly the last fails, and their file operations succeed. */
  ghost predicate Attempts(attempts: seq<Attempt>, verified: seq<Byte> -> bool) {
    attempts != [] ==>
      var before := attempts[..|attempts| - 1];
      && Attempts(before, verified)
      && (before != [] ==> !RunAttempt(After(before[..|before| - 1], verified), before[|before| - 1], verified).1.Success?)
      && FileWorks(After(before, verified), attempts[|attempts| - 1])
  }

  /** Over any number of failed attempts, the first success returns content with the requested digest. */
  lemma {:induction false} FirstSuccessIsVerified(attempts: seq<Attempt>, verified: seq<Byte> -> bool)
    requires Attempts(attempts, verified)
    ensures attempts == [] ==> Synced(After(attempts, verified))
    ensures attempts != [] ==>
              var (ld, r) := RunAttempt(After(attempts[..|attempts| - 1], verified), attempts[|attempts| - 1], verified);
              if r.Success? then verified(r.content) else Synced(After(attempts, verified))
    decreases |attempts|
  {
    if attempts != [] {
      var before := attempts[..|attempts| - 1];
      FirstSuccessIsVerified(before, verified);
      AttemptKeepsSync(After(before, verified), attempts[|attempts| - 1], verified);
    }
  }

  /** Why seeking in the temporary file must work: a new file with the old verifier rejects a correct blob. */
  lemma SeekFailureLosesSync()
    ensures var verified := (bytes: seq<Byte>) => bytes == [1, 2];
            var ld := Descriptor(Some([1]), Some([1]));
            var a := Attempt(true, false, true, true, true, Opened, true, Some(2), true, [1, 2], EOF);
            Synced(ld) && RunAttempt(ld, a, verified) == (Descriptor(Some([1, 2]), Some([1, 1, 2])), Fatal)
  {
    var verified := (bytes: seq<Byte>) => bytes == [1, 2];
    var one: seq<Byte> := [1];
    var blob: seq<Byte> := [1, 2];
    assert one + blob == [1, 1, 2] && [] + blob == blob;
    assert !verified([1, 1, 2]);
  }

  /** A worse case of the same: the attempt succeeds, with content that does not have the requested digest. */
  lemma SeekFailureReturnsWrongContent()
    ensures var verified := (bytes: seq<Byte>) => bytes == [1, 2];
            var ld := Descriptor(Some([1]), Some([1]));
            var a := Attempt(true, false, true, true, true, Opened, true, Some(2), true, [2], EOF);
            Synced(ld) && RunAttempt(ld, a, verified).1 == Success([2]) && !verified([2])
  {
    var verified := (bytes: seq<Byte>) => bytes == [1, 2];
    var one: seq<Byte> := [1];
    var two: seq<Byte> := [2];
    assert one + two == [1, 2] && [] + two == two;
    assert verified([1, 2]) && !verified(two);
  }

  /** The bytes the verifier has been fed before an attempt. */
  function Fed(ld: Descriptor): seq<Byte> {
    if ld.verifier.None? then [] else ld.verifier.value
  }

  /** After a failed seek the attempt gets as far as copying. */
  predicate Copies(ld: Descriptor, a: Attempt) {
    a.createOK && a.open.Opened? && (a.size.Some? ==> a.restoreOK) && (ld.verifier.Some? || a.verifierOK)
  }

  /**
    When the seek fails, the attempt stays in step, if it does not succeed, exactly in these cases:
    no new file could be created and there is no verifier; the copy ended in a range error, and
    truncating works or nothing had been copied; both are thrown away after a failed rewind; or
    otherwise nothing had been fed to the verifier before.
  */
  lemma SeekFailureExactly(ld: Descriptor, a: Attempt, verified: seq<Byte> -> bool)
    requires Synced(ld) && ld.tmpFile.Some? && !a.seekEndOK
    ensures var (ld', r) := RunAttempt(ld, a, verified);
            !r.Success? ==>
              (Synced(ld') <==>
                 if !a.createOK then ld.verifier.None?
                 else if Copies(ld, a) && a.end.WrongRange? then a.truncateOK || a.delivered == []
                 else if Copies(ld, a) && a.end.EOF? && verified(Fed(ld) + a.delivered) then true
                 else Fed(ld) == [])
  {
    assert [] + a.delivered == a.delivered;
    if Fed(ld) != [] {
      assert |Fed(ld) + a.delivered| > |a.delivered|;
    } else {
      assert Fed(ld) + a.delivered == a.delivered;
    }
  }

  /**
    When the seek fails, the attempt succeeds exactly when the old verifier accepts what it was fed
    before together with what is delivered now; what it returns is only the latter. If one content
    only has the requested digest, that is the requested content exactly when the verifier had been
    fed nothing.
  */
  lemma SeekFailureSuccess(ld: Descriptor, a: Attempt, verified: seq<Byte> -> bool)
    requires Synced(ld) && ld.tmpFile.Some? && !a.seekEndOK
    ensures var r := RunAttempt(ld, a, verified).1;
            && (r.Success? <==> Copies(ld, a) && a.end.EOF? && verified(Fed(ld) + a.delivered) && a.rewindOK)
            && (r.Success? ==> r.content == a.delivered)
            && (r.Success? && (forall x, y :: verified(x) && verified(y) ==> x == y) ==> (verified(r.content) <==> Fed(ld) == []))
  {
    assert [] + a.delivered == a.delivered;
    if Fed(ld) != [] {
      assert |Fed(ld) + a.delivered| > |a.delivered|;
    } else {
      assert Fed(ld) + a.delivered == a.delivered;
    }
  }

  // ---------------------------------------------------------------- one blob, served faithfully

  ghost predicate PrefixOf(ld: Descriptor, blob: seq<Byte>) {
    ld.tmpFile.Some? ==> ld.tmpFile.value <= blob
  }

  /** The registry serves `blob` from the offset asked for: a prefix of the rest, and all of it when the copy ends well. */
  ghost predicate Serves(ld: Descriptor, a: Attempt, blob: seq<Byte>) {
    && (a.size.Some? ==> a.size.value == |blob|)
    && (Prepare(ld, a).Some? && |Prepare(ld, a).value| <= |blob| ==>
          var rest := blob[|Prepare(ld, a).value|..];
          a.delivered <= rest && (a.end.EOF? ==> a.delivered == rest))
  }

  /** Nothing goes wrong in the attempt and the copy reaches the end. */
  predicate Completes(a: Attempt) {
    a.createOK && a.open.Opened? && a.resumeOK && a.restoreOK && a.verifierOK && a.rewindOK && a.end.EOF?
  }

  /**
    If the registry serves one fixed blob, the temporary file is always a prefix of it, and a copy
    that completes, resumed or not, is accepted and returns the blob.
  */
  lemma FixedBlobAlwaysVerifies(ld: Descriptor, a: Attempt, verified: seq<Byte> -> bool, blob: seq<Byte>)
    requires Synced(ld) && FileWorks(ld, a) && PrefixOf(ld, blob) && verified(blob)
    requires Serves(ld, a, blob)
    ensures var (ld', r) := RunAttempt(ld, a, verified);
            && (r.Success? ==> r.content == blob)
            && (!r.Success? ==> Synced(ld') && PrefixOf(ld', blob))
            && (r.Fatal? ==>
                  || !a.createOK || a.open.BlobUnknown? || a.open == OpenError(true)
                  || !a.verifierOK || a.end == CopyError(true) || !a.rewindOK)
            && (Completes(a) ==> r == Success(blob))
  {
    var tmp := Prepare(ld, a);
    if tmp.Some? {
      var sofar := tmp.value;
      assert sofar <= blob;
      var rest := blob[|sofar|..];
      assert sofar + rest == blob;
      assert sofar + a.delivered <= blob;
      assert a.end.EOF? ==> sofar + a.delivered == blob;
      assert [] + a.delivered == a.delivered;
    }
  }

  /** Every attempt is served from `blob`. */
  ghost predicate AllServed(attempts: seq<Attempt>, verified: seq<Byte> -> bool, blob: seq<Byte>) {
    forall n :: 0 <= n < |attempts| ==> Serves(After(attempts[..n], verified), attempts[n], blob)
  }

  /**
    Over any number of failed attempts served from one blob, the first success returns the blob, and
    the first attempt that completes its copy is one.
  */
  lemma {:induction false} FixedBlobArrives(attempts: seq<Attempt>, verified: seq<Byte> -> bool, blob: seq<Byte>)
    requires Attempts(attempts, verified) && AllServed(attempts, verified, blob) && verified(blob)
    ensures attempts != [] ==>
              var (ld, r) := RunAttempt(After(attempts[..|attempts| - 1], verified), attempts[|attempts| - 1], verified);
              && (if r.Success? then r.content == blob else Synced(ld) && PrefixOf(ld, blob))
              && (Completes(attempts[|attempts| - 1]) ==> r == Success(blob))
    decreases |attempts|
  {
    if attempts != [] {
      var before, last := attempts[..|attempts| - 1], attempts[|attempts| - 1];
      assert forall n :: 0 <= n < |before| ==> before[..n] == attempts[..n];
      assert Serves(After(attempts[..|attempts| - 1], verified), attempts[|attempts| - 1], blob);
      FixedBlobArrives(before, verified, blob);
      FixedBlobAlwaysVerifies(After(before, verified), last, verified, blob);
    }
  }

  // ---------------------------------------------------------------- the descriptor as an object

  class LayerDescriptor {
    var tmpFile: Option<seq<Byte>>
    var verifier: Option<seq<Byte>>

    ghost function Abs(): Descriptor
      reads this
    {
      Descriptor(tmpFile, verifier)
    }

    constructor ()
      ensures Abs() == Initial
    {
      tmpFile, verifier := None, None;
    }

    method TruncateDownloadFile(ok: bool)
      requires tmpFile.Some?
      modifies this
      ensures Abs() == Truncate(old(Abs()), ok)
    {
      verifier := None;
      if ok { tmpFile := Some([]); }
    }

    /** The bytes written by earlier attempts, or a new file. */
    method OpenTempFile(a: Attempt) returns (ok: bool)
      modifies this`tmpFile
      ensures ok == Prepare(old(Abs()), a).Some?
      ensures tmpFile == Prepare(old(Abs()), a)
    {
      if tmpFile.None? || !a.seekEndOK {
        tmpFile := if a.createOK then Some([]) else None;
      }
      ok := tmpFile.Some?;
    }

    method CopyBlob(a: Attempt, verified: seq<Byte> -> bool) returns (r: Outcome)
      requires tmpFile.Some?
      modifies this
      ensures (Abs(), r) == Copy(old(Abs()), a, verified)
    {
      if verifier.None? {
        if !a.verifierOK { return Fatal; }
        verifier := Some([]);
      }
      var resumed := |tmpFile.value| != 0;
      verifier := Some(verifier.value + a.delivered);
      tmpFile := Some(tmpFile.value + a.delivered);
      if a.end.WrongRange? {
        TruncateDownloadFile(a.truncateOK);
        return if a.truncateOK then Retry else Fatal;
      }
      if a.end.CopyError? { return if a.end.final then Fatal else Retry; }
      if !verified(verifier.value) {
        if !resumed { return Fatal; }
        TruncateDownloadFile(a.truncateOK);
        return if a.truncateOK then Retry else Fatal;
      }
      if !a.rewindOK {
        tmpFile, verifier := None, None;
        return Fatal;
      }
      r := Success(tmpFile.value);
      tmpFile := None;
    }

    method Download(a: Attempt, verified: seq<Byte> -> bool) returns (r: Outcome)
      modifies this
      ensures (Abs(), r) == RunAttempt(old(Abs()), a, verified)
    {
      var ok := OpenTempFile(a);
      if !ok { return Fatal; }
      var offset := |tmpFile.value|;
      if a.open.BlobUnknown? { return Fatal; }
      if a.open.OpenError? { return if a.open.final then Fatal else Retry; }
      if offset != 0 && !a.resumeOK {
        TruncateDownloadFile(a.truncateOK);
        return if a.truncateOK then Retry else Fatal;
      }
      if a.size.Some? {
        if a.size.value != 0 && offset > a.size.value {
          TruncateDownloadFile(a.truncateOK);
          if !a.truncateOK { return Fatal; }
        }
        if !a.restoreOK { return Retry; }
      }
      r := CopyBlob(a, verified);
    }
  }
}
