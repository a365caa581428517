/**
  `upload_to_ozone` of the one-shot archivers: up to three put attempts of one
  WAL segment under `base/<today>/<name>`, retrying only connectivity errors.

  The two variants differ in one respect: one of them calls `time.sleep`
  between attempts without importing `time`, so its first connectivity error
  on a non-final attempt raises `NameError` out of the function. The flag
  `sleepDefined` selects the variant.
*/
module Uploader {

  import opened Wrappers
  import opened Text
  import opened Calendar
  import opened ObjectStore

  const MaxRetries: nat := 3

  /** True, False, or an exception escaping the function. */
  datatype Verdict = Uploaded | Failed | Crashed

  /** The store afterwards, the verdict, how many attempts were made in all and
      how many `time.sleep(RETRY_DELAY)` calls completed. */
  datatype Attempts = Attempts(remote: Remote, verdict: Verdict, attempts: nat, sleeps: nat)

  /** The retry loop from attempt number `attempt` (0-based) on. */
  function Retry(r: Remote, o: Oracle, key: string, data: Bytes, attempt: nat, sleepDefined: bool): (a: Attempts)
    requires attempt < MaxRetries
    ensures attempt < a.attempts <= MaxRetries
    ensures a.remote.calls == r.calls + (a.attempts - attempt)
    ensures forall i :: r.calls <= i < a.remote.calls - 1 ==> o(i) == ConnErr
    ensures a.verdict == Uploaded <==> o(a.remote.calls - 1) == Ok
    ensures a.verdict == Crashed <==>
              !sleepDefined && o(a.remote.calls - 1) == ConnErr && a.attempts < MaxRetries
    ensures sleepDefined && o(a.remote.calls - 1) == ConnErr ==> a.attempts == MaxRetries
    ensures a.remote.objects == if a.verdict == Uploaded then r.objects[key := data] else r.objects
    ensures a.sleeps == if sleepDefined then a.attempts - attempt - 1 else 0
    ensures !sleepDefined ==> a.attempts == attempt + 1 || a.verdict != Crashed
    decreases MaxRetries - attempt
  {
    var (r1, out) := Put(r, o, key, data);
    match out
    case Ok => Attempts(r1, Uploaded, attempt + 1, 0)
    case OtherErr => Attempts(r1, Failed, attempt + 1, 0)
    case ConnErr =>
      if attempt < MaxRetries - 1 then
        if sleepDefined then
          var rest := Retry(r1, o, key, data, attempt + 1, sleepDefined);
          rest.(sleeps := rest.sleeps + 1)
        else
          Attempts(r1, Crashed, attempt + 1, 0)
      else
        Attempts(r1, Failed, attempt + 1, 0)
  }

  /** `upload_to_ozone(path, name)` with the wall clock read as `now`. */
  function Upload(r: Remote, o: Oracle, base: string, now: Instant, name: string, data: Bytes, sleepDefined: bool): Attempts
  {
    Retry(r, o, ObjectKey(base, DateOf(now), name), data, 0, sleepDefined)
  }

  /** The verdict of an upload, read directly off the first three outcomes. */
  function ExpectedVerdict(o: Oracle, c: nat, sleepDefined: bool): Verdict {
    if o(c) == Ok then Uploaded
    else if o(c) == OtherErr then Failed
    else if !sleepDefined then Crashed
    else if o(c + 1) == Ok then Uploaded
    else if o(c + 1) == OtherErr then Failed
    else if o(c + 2) == Ok then Uploaded
    else Failed
  }

  /** The retry loop agrees with the outcome table above, and it stops at the
      first outcome that is not a connectivity error. */
  lemma RetryMatchesTable(r: Remote, o: Oracle, key: string, data: Bytes, sleepDefined: bool)
    ensures Retry(r, o, key, data, 0, sleepDefined).verdict == ExpectedVerdict(o, r.calls, sleepDefined)
    ensures var a := Retry(r, o, key, data, 0, sleepDefined);
            a.attempts == MaxRetries || o(a.remote.calls - 1) != ConnErr || a.verdict == Crashed
  {
    var a := Retry(r, o, key, data, 0, sleepDefined);
    if o(r.calls) == ConnErr && sleepDefined {
      var r1 := Put(r, o, key, data).0;
      var b := Retry(r1, o, key, data, 1, sleepDefined);
      if o(r1.calls) == ConnErr {
        var r2 := Put(r1, o, key, data).0;
        assert b.verdict == Retry(r2, o, key, data, 2, sleepDefined).verdict;
      }
    }
  }

  /** A successful upload stores the segment under today's date folder, and the
      date token of that key parses back to today. */
  lemma UploadKey(r: Remote, o: Oracle, base: string, now: Instant, name: string, data: Bytes, sleepDefined: bool)
    requires '/' !in base && '/' !in name
    requires Upload(r, o, base, now, name, data, sleepDefined).verdict == Uploaded
    ensures var objects := Upload(r, o, base, now, name, data, sleepDefined).remote.objects;
            var key := base + "/" + Format(DateOf(now)) + "/" + name;
            key in objects && objects[key] == data
    ensures var today := DateOf(now);
            SplitOn(ObjectKey(base, today, name), "/") == [base, Format(today), name] &&
            ParseDate(Format(today)) == Some(today)
  {
    var today := DateOf(now);
    var key := ObjectKey(base, today, name);
    var a := Retry(r, o, key, data, 0, sleepDefined);
    assert a.remote.objects == r.objects[key := data];
    ObjectKeySplit(base, today, name);
  }
}
