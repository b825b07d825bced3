/**
  The schema manager's validity marker: a cache file holding the Unix
  time of the last integrity check that found nothing to repair. The file
  system is reduced to one optional file with read and write permission
  flags, and `time()` to an explicit `now` argument.
 */
module SchemaValidity {
  import opened Common

  /** Maximum age of a successful integrity check, in seconds. */
  const IntegrityCheckInterval: int := 1800

  /** HTTP status used when the marker cannot be removed. */
  const HttpUnauthorized: int := 401

  /**
    The marker file. `value` is what `intval(file_get_contents(..))`
    yields for its contents; `readable` and `writable` are the results of
    `is_readable` and `is_writable`.
   */
  datatype Marker =
    | Absent
    | Present(value: int, readable: bool, writable: bool)

  datatype Abort = Abort(status: int)

  /** The timestamp `isValid` compares against: 0 for a missing or unreadable file. */
  function StoredTimestamp(m: Marker): (ts: int)
    ensures m.Absent? ==> ts == 0
    ensures m.Present? && !m.readable ==> ts == 0
    ensures m.Present? && m.readable ==> ts == m.value
  {
    if m.Present? && m.readable then m.value else 0
  }

  /** `isValid`: the last recorded check is at most `IntegrityCheckInterval` seconds old. */
  predicate IsValid(m: Marker, now: int) {
    StoredTimestamp(m) >= now - IntegrityCheckInterval
  }

  /** `needsCheck`: an integrity check is due. */
  function NeedsCheck(m: Marker, now: int): (r: bool)
    ensures r <==> !IsValid(m, now)
    ensures r <==> StoredTimestamp(m) < now - IntegrityCheckInterval
  {
    !IsValid(m, now)
  }

  /**
    `markValid`: write `now` into the marker. A missing file is created
    (the cache directory is taken to be writable); an existing file that
    is not writable keeps its old contents, as `file_put_contents` fails.
   */
  function MarkValid(m: Marker, now: int): (r: Marker)
    ensures r.Present?
    ensures m.Absent? ==> r == Present(now, true, true)
    ensures m.Present? && m.writable ==> r == m.(value := now)
    ensures m.Present? && !m.writable ==> r == m
  {
    match m
    case Absent => Present(now, true, true)
    case Present(_, readable, writable) =>
      if writable then Present(now, readable, writable) else m
  }

  /**
    `invalidate`: delete a writable marker; a marker that exists but is
    not writable aborts the request with 401 and nothing changes; a
    missing marker stays missing.
   */
  function Invalidate(m: Marker): (r: Result<Marker, Abort>)
    ensures r.Success? <==> (m.Absent? || m.writable)
    ensures r.Success? ==> r.value == Absent
    ensures r.Failure? ==> r.error == Abort(HttpUnauthorized)
  {
    match m
    case Absent => Success(Absent)
    case Present(_, _, writable) =>
      if writable then Success(Absent) else Failure(Abort(HttpUnauthorized))
  }

  /**
    After `markValid` at time `t` on a marker that can be rewritten (or
    created) and read back, the marker is valid exactly during the
    following `IntegrityCheckInterval` seconds (and at any earlier time).
   */
  lemma MarkValidWindow(m: Marker, t: int, later: int)
    requires m.Absent? || (m.readable && m.writable)
    ensures IsValid(MarkValid(m, t), later) <==> later <= t + IntegrityCheckInterval
    ensures IsValid(MarkValid(m, t), t)
  {
  }

  /** Marking valid is the only way out of "needs check" and it is immediate. */
  lemma MarkValidThenNoCheck(m: Marker, t: int)
    requires m.Absent? || (m.readable && m.writable)
    ensures !NeedsCheck(MarkValid(m, t), t)
  {
  }

  /**
    After a successful `invalidate` the marker reads as 0, so a check is
    needed at any time past the first interval of the Unix epoch.
   */
  lemma InvalidateThenNeedsCheck(m: Marker, now: int)
    requires Invalidate(m).Success?
    requires now > IntegrityCheckInterval
    ensures !IsValid(Invalidate(m).value, now)
    ensures NeedsCheck(Invalidate(m).value, now)
  {
  }

  /** A marker that cannot be removed survives `invalidate` unchanged and may still read as valid. */
  lemma InvalidateAbortKeepsMarker(m: Marker, now: int)
    requires m.Present? && !m.writable && m.readable
    requires m.value >= now - IntegrityCheckInterval
    ensures Invalidate(m).Failure?
    ensures IsValid(m, now)
  {
  }

  /** An unreadable marker never makes the schema valid, whatever it holds. */
  lemma UnreadableMarkerCountsAsZero(v: int, w: bool, now: int)
    requires now > IntegrityCheckInterval
    ensures !IsValid(Present(v, false, w), now)
  {
  }
}
