/**
  The S3-compatible object store and the local directories the archivers work on.

  The store is a map from key to content. Every request the scripts send (a put,
  a list, a delete) meets an outcome chosen by an oracle that is indexed by how
  many requests the run has already sent, so one oracle fixes the behaviour of
  the network for a whole run.
*/
module ObjectStore {

  import opened Wrappers
  import opened Text
  import opened Calendar
  import Chunking

  type Bytes = seq<bv8>

  /** `OZONE_BASE_FOLDER`, the first key segment of every archived segment. */
  const BaseFolder: string := "wal_backups"

  /** How one request ends: it succeeds, it meets `NoCredentialsError` or
      `EndpointConnectionError`, or it raises any other exception. */
  datatype Outcome = Ok | ConnErr | OtherErr

  /** The outcome of the n-th request of a run. */
  type Oracle = nat -> Outcome

  /** Stored objects, and the number of requests sent so far. */
  datatype Remote = Remote(objects: map<string, Bytes>, calls: nat)

  /** Every request numbered `from` up to `to` (exclusive) succeeds. */
  predicate AllOk(o: Oracle, from: nat, to: nat) {
    forall i :: from <= i < to ==> o(i) == Ok
  }

  /** A run of successes that starts with a success. */
  lemma AllOkCons(o: Oracle, from: nat, to: nat)
    requires from < to
    ensures AllOk(o, from, to) <==> o(from) == Ok && AllOk(o, from + 1, to)
  {
  }

  /** `upload_file`: the object is written only when the request succeeds. */
  function Put(r: Remote, o: Oracle, key: string, data: Bytes): (Remote, Outcome) {
    var out := o(r.calls);
    (Remote(if out == Ok then r.objects[key := data] else r.objects, r.calls + 1), out)
  }

  /** `delete_objects` with one batch of keys; per-key errors are not modelled. */
  function DeleteBatch(r: Remote, o: Oracle, batch: seq<string>): (Remote, Outcome) {
    var out := o(r.calls);
    (Remote(if out == Ok then r.objects - KeySet(batch) else r.objects, r.calls + 1), out)
  }

  function KeySet(keys: seq<string>): set<string> {
    set k | k in keys
  }

  /** The keys of a sequence of delete batches. */
  function LoggedKeys(log: seq<seq<string>>): set<string> {
    KeySet(Chunking.Flatten(log))
  }

  predicate Distinct<T(==)>(xs: seq<T>) {
    forall i, j :: 0 <= i < j < |xs| ==> xs[i] != xs[j]
  }

  // ---------------------------------------------------------------------------
  // Listing.
  // ---------------------------------------------------------------------------

  /** `list_objects_v2` returns at most this many keys per page. */
  const PageLimit: nat := 1000

  /** The pages of `list_objects_v2(Prefix=prefix)`: at least one page, every
      page but the last full, none over the limit, and together every key with
      the prefix exactly once. The order of keys is left open. */
  ghost predicate IsListing(keys: set<string>, prefix: string, pages: seq<seq<string>>) {
    && |pages| >= 1
    && (forall i :: 0 <= i < |pages| ==> |pages[i]| <= PageLimit)
    && (forall i :: 0 <= i < |pages| - 1 ==> |pages[i]| == PageLimit)
    && Distinct(Chunking.Flatten(pages))
    && (forall k :: k in Chunking.Flatten(pages) <==> k in keys && StartsWith(k, prefix))
  }

  /** How the store answers listings; the pages depend only on the keys it holds. */
  type Lister = (set<string>, string) -> seq<seq<string>>

  ghost predicate ValidLister(l: Lister) {
    forall keys, prefix :: IsListing(keys, prefix, l(keys, prefix))
  }

  // ---------------------------------------------------------------------------
  // Local files.
  // ---------------------------------------------------------------------------

  /** A local file: its bytes and its modification time (local time). */
  datatype LocalFile = LocalFile(content: Bytes, mtime: Instant)

  /** A directory: file name to file. */
  type Dir = map<string, LocalFile>

  /** `os.listdir`: each entry once, in an order the model leaves open. */
  ghost predicate Enumerates(names: seq<string>, entries: set<string>) {
    Distinct(names) && (forall n :: n in names <==> n in entries)
  }

  /** A directory entry name never contains the path separator. */
  predicate PlainNames(entries: set<string>) {
    forall n :: n in entries ==> '/' !in n
  }

  // ---------------------------------------------------------------------------
  // Object keys `base/YYYY-MM-DD/name`.
  // ---------------------------------------------------------------------------

  function ObjectKey(base: string, date: Date, name: string): string
    requires ValidDate(date)
  {
    base + "/" + Format(date) + "/" + name
  }

  lemma DigitsNoSlash(s: string)
    requires AllDigits(s)
    ensures '/' !in s
  {
  }

  lemma FormatNoSlash(d: Date)
    requires ValidDate(d)
    ensures '/' !in Format(d)
  {
    DigitsNoSlash(Padded(d.year, 4));
    DigitsNoSlash(Padded(d.month, 2));
    DigitsNoSlash(Padded(d.day, 2));
  }

  /** Splitting `s0/s1/.../sn/rest` on '/' yields the segments, then the parts of `rest`. */
  lemma {:induction false} SegmentsSplit(segs: seq<string>, rest: string)
    requires |segs| >= 1 && forall i :: 0 <= i < |segs| ==> '/' !in segs[i]
    ensures SplitOn(Join(segs, "/") + "/" + rest, "/") == segs + SplitOn(rest, "/")
    decreases |segs|
  {
    if |segs| == 1 {
      SplitCons(segs[0], '/', rest);
    } else {
      var inner := Join(segs[1..], "/");
      var tail := inner + "/" + rest;
      assert Join(segs, "/") == segs[0] + "/" + inner;
      assert Join(segs, "/") + "/" + rest == segs[0] + ['/'] + tail;
      SplitCons(segs[0], '/', tail);
      SegmentsSplit(segs[1..], rest);
      assert segs == [segs[0]] + segs[1..];
    }
  }

  /** A key splits into base, date token and name, and its date token parses
      back to the date it was built from. */
  lemma ObjectKeySplit(base: string, date: Date, name: string)
    requires ValidDate(date) && '/' !in base && '/' !in name
    ensures SplitOn(ObjectKey(base, date, name), "/") == [base, Format(date), name]
    ensures ParseDate(SplitOn(ObjectKey(base, date, name), "/")[1]) == Some(date)
  {
    FormatNoSlash(date);
    var segs := [base, Format(date)];
    assert Join(segs, "/") == base + "/" + Format(date);
    SegmentsSplit(segs, name);
    SplitNoSep(name, '/');
    ParseFormat(date);
  }

  /** Different (date, name) pairs get different keys under one base. */
  lemma ObjectKeyInjective(base: string, d1: Date, n1: string, d2: Date, n2: string)
    requires ValidDate(d1) && ValidDate(d2) && '/' !in base && '/' !in n1 && '/' !in n2
    ensures ObjectKey(base, d1, n1) == ObjectKey(base, d2, n2) <==> d1 == d2 && n1 == n2
  {
    if ObjectKey(base, d1, n1) == ObjectKey(base, d2, n2) {
      ObjectKeySplit(base, d1, n1);
      ObjectKeySplit(base, d2, n2);
    }
  }
}
