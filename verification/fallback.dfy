/**
  The local fallback queue of the one-shot archivers: `save_to_local_fallback`
  copies a segment into the queue directory, and `retry_fallback_uploads`
  drains the queue in listing order, removing a file only after its put
  succeeded and stopping at the first failure of any kind: a failed put, or a
  failed `os.remove` after a put that succeeded.
*/
module Fallback {

  import opened Wrappers
  import opened Calendar
  import opened ObjectStore

  /** `shutil.copy2` into the queue: content and modification time are kept.
      The copy fails when the directory is missing or `copyOk` says the
      file system refused it. */
  function SaveCopy(queue: Option<Dir>, name: string, src: LocalFile, copyOk: bool): (res: (Option<Dir>, bool))
    ensures res.1 ==> res.0.Some? && name in res.0.value && res.0.value[name] == src
    ensures res.1 ==> forall n :: n in res.0.value && n != name ==> queue.Some? && n in queue.value && res.0.value[n] == queue.value[n]
    ensures !res.1 ==> res.0 == queue
    ensures res.1 <==> queue.Some? && copyOk
  {
    if queue.Some? && copyOk then (Some(queue.value[name := src]), true) else (queue, false)
  }

  /** The key a queued file is uploaded under: the date of its modification time. */
  function QueueKey(base: string, name: string, f: LocalFile): string {
    ObjectKey(base, DateOf(f.mtime), name)
  }

  /** How a queued file is named in the store; the drain only relies on this
      being a function of the file's name and metadata. */
  type KeyOf = (string, LocalFile) -> string

  function QueueKeys(base: string): KeyOf {
    (n: string, f: LocalFile) => QueueKey(base, n, f)
  }

  /** The objects after putting the named queue files, in order, successfully. */
  function Pushes(objects: map<string, Bytes>, key: KeyOf, d: Dir, names: seq<string>): map<string, Bytes>
    requires forall i :: 0 <= i < |names| ==> names[i] in d
    decreases |names|
  {
    if |names| == 0 then objects
    else Pushes(objects[key(names[0], d[names[0]]) := d[names[0]].content], key, d, names[1..])
  }

  /** Whether `os.remove` of a queued file succeeds, by name. */
  type Removes = string -> bool

  /** Putting a slice is putting its first file, then the rest of the slice. */
  lemma PushesSlice(objects: map<string, Bytes>, key: KeyOf, d: Dir, names: seq<string>, i: nat, end: nat)
    requires i < end <= |names| && forall j :: 0 <= j < |names| ==> names[j] in d
    ensures Pushes(objects, key, d, names[i..end])
         == Pushes(objects[key(names[i], d[names[i]]) := d[names[i]].content], key, d, names[i + 1..end])
  {
    assert names[i..end][1..] == names[i + 1..end];
  }

  /** Puts the queue files `names[i..]` one by one, removing each after its
      put, until a put or a removal fails. Returns the store, the index of the
      first file not removed, and the index of the first file not stored; the
      two differ only when a put succeeded and its removal failed. */
  function DrainFrom(r: Remote, o: Oracle, key: KeyOf, removes: Removes, d: Dir, names: seq<string>, i: nat): (res: (Remote, nat, nat))
    requires i <= |names| && forall j :: 0 <= j < |names| ==> names[j] in d
    ensures i <= res.1 <= res.2 <= |names| && res.2 <= res.1 + 1
    ensures res.1 < res.2 ==> !removes(names[res.1])
    ensures forall j :: i <= j < res.1 ==> removes(names[j])
    ensures res.0.objects == Pushes(r.objects, key, d, names[i..res.2])
    ensures res.0.calls == r.calls + (res.1 - i) + (if res.1 < |names| then 1 else 0)
    ensures AllOk(o, r.calls, r.calls + (res.1 - i))
    ensures res.1 < |names| ==> (o(r.calls + (res.1 - i)) == Ok <==> res.1 < res.2)
    decreases |names| - i
  {
    if i == |names| then (r, i, i)
    else
      var f := d[names[i]];
      var (r1, out) := Put(r, o, key(names[i], f), f.content);
      if out != Ok then (r1, i, i)
      else if !removes(names[i]) then
        PushesSlice(r.objects, key, d, names, i, i + 1);
        (r1, i, i + 1)
      else
        var res := DrainFrom(r1, o, key, removes, d, names, i + 1);
        PushesSlice(r.objects, key, d, names, i, res.2);
        AllOkCons(o, r.calls, r.calls + (res.1 - i));
        res
  }

  /** The store and queue after a drain, the number of files whose put
      succeeded, and the number of files removed from the queue. */
  datatype DrainRun = DrainRun(remote: Remote, queue: Option<Dir>, uploaded: nat, removed: nat)

  /** `retry_fallback_uploads`; `listing` is the `os.listdir` order of the queue. */
  function Drain(r: Remote, o: Oracle, key: KeyOf, removes: Removes, queue: Option<Dir>, listing: seq<string>): (res: DrainRun)
    requires queue.Some? ==> forall j :: 0 <= j < |listing| ==> listing[j] in queue.value
    ensures queue.None? ==> res == DrainRun(r, queue, 0, 0)
    ensures queue.Some? ==> res.removed <= res.uploaded <= |listing| && res.uploaded <= res.removed + 1 && res.queue.Some?
    ensures queue.Some? && res.removed < res.uploaded ==> !removes(listing[res.removed])
    ensures queue.Some? ==> res.queue.value == queue.value - KeySet(listing[..res.removed])
    ensures queue.Some? ==> res.remote.objects == Pushes(r.objects, key, queue.value, listing[..res.uploaded])
  {
    if queue.None? then DrainRun(r, queue, 0, 0)
    else
      var (r1, k, u) := DrainFrom(r, o, key, removes, queue.value, listing, 0);
      assert listing[0..u] == listing[..u];
      DrainRun(r1, Some(queue.value - KeySet(listing[..k])), u, k)
  }

  /** The number of leading successes among the next `n` requests. */
  function LeadingOk(o: Oracle, c: nat, n: nat): (k: nat)
    ensures k <= n
    ensures AllOk(o, c, c + k)
    ensures k < n ==> o(c + k) != Ok
    decreases n
  {
    if n == 0 || o(c) != Ok then 0 else 1 + LeadingOk(o, c + 1, n - 1)
  }

  /** The position of the first name from `from` on whose removal fails, or
      the length when every removal succeeds. */
  function FirstKept(names: seq<string>, removes: Removes, from: nat): (k: nat)
    requires from <= |names|
    ensures from <= k <= |names|
    ensures forall j :: from <= j < k ==> removes(names[j])
    ensures k < |names| ==> !removes(names[k])
    decreases |names| - from
  {
    if from == |names| || !removes(names[from]) then from else FirstKept(names, removes, from + 1)
  }

  function Min(a: nat, b: nat): nat {
    if a <= b then a else b
  }

  lemma DrainFromCount(r: Remote, o: Oracle, key: KeyOf, removes: Removes, d: Dir, names: seq<string>, i: nat)
    requires i <= |names| && forall j :: 0 <= j < |names| ==> names[j] in d
    ensures var res, l, f := DrainFrom(r, o, key, removes, d, names, i), LeadingOk(o, r.calls, |names| - i), FirstKept(names, removes, i);
            && res.1 == (if i + l < f then i + l else f)
            && res.2 == (if i + l <= f then i + l else f + 1)
  {
  }

  /** The drain removes exactly the files before the first one whose put or
      whose removal fails, and stores one file more when only the removal
      failed. It sends one request per removed file, and one more for the
      file it stopped at. */
  lemma DrainCount(r: Remote, o: Oracle, key: KeyOf, removes: Removes, queue: Option<Dir>, listing: seq<string>)
    requires queue.Some? && forall j :: 0 <= j < |listing| ==> listing[j] in queue.value
    ensures var res, l, f := Drain(r, o, key, removes, queue, listing), LeadingOk(o, r.calls, |listing|), FirstKept(listing, removes, 0);
            && res.removed == Min(l, f)
            && res.uploaded == Min(l, f + 1)
            && res.remote.calls == r.calls + res.removed + (if res.removed < |listing| then 1 else 0)
  {
    DrainFromStart(r, o, key, removes, queue.value, listing);
  }

  /** `DrainFromCount` for a drain of the whole list. */
  lemma DrainFromStart(r: Remote, o: Oracle, key: KeyOf, removes: Removes, d: Dir, names: seq<string>)
    requires forall j :: 0 <= j < |names| ==> names[j] in d
    ensures var res, l, f := DrainFrom(r, o, key, removes, d, names, 0), LeadingOk(o, r.calls, |names|), FirstKept(names, removes, 0);
            res.1 == Min(l, f) && res.2 == Min(l, f + 1)
  {
    DrainFromCount(r, o, key, removes, d, names, 0);
    var n: nat := |names| - 0;
    assert n == |names|;
  }

  /** Puts of other keys leave an object alone. */
  lemma {:induction false} PushesKeep(objects: map<string, Bytes>, key: KeyOf, d: Dir, names: seq<string>, k: string)
    requires forall i :: 0 <= i < |names| ==> names[i] in d
    requires forall i :: 0 <= i < |names| ==> key(names[i], d[names[i]]) != k
    ensures k in Pushes(objects, key, d, names) <==> k in objects
    ensures k in objects ==> Pushes(objects, key, d, names)[k] == objects[k]
    decreases |names|
  {
    if |names| > 0 {
      PushesKeep(objects[key(names[0], d[names[0]]) := d[names[0]].content], key, d, names[1..], k);
    }
  }

  /** Distinct queue files get distinct keys. */
  predicate KeysDistinct(key: KeyOf, d: Dir) {
    forall n1, n2 :: n1 in d && n2 in d && n1 != n2 ==> key(n1, d[n1]) != key(n2, d[n2])
  }

  lemma QueueKeysDistinct(base: string, d: Dir)
    requires '/' !in base && PlainNames(d.Keys)
    ensures KeysDistinct(QueueKeys(base), d)
  {
    forall n1, n2 | n1 in d && n2 in d && n1 != n2
      ensures QueueKey(base, n1, d[n1]) != QueueKey(base, n2, d[n2])
    {
      ObjectKeyInjective(base, DateOf(d[n1].mtime), n1, DateOf(d[n2].mtime), n2);
    }
  }

  /** Queued files never overwrite the key of a segment that is not queued. */
  lemma QueueKeysAvoid(base: string, d: Dir, names: seq<string>, date: Date, name: string)
    requires '/' !in base && PlainNames(d.Keys) && ValidDate(date) && '/' !in name && name !in d
    requires forall i :: 0 <= i < |names| ==> names[i] in d
    ensures forall i :: 0 <= i < |names| ==> QueueKeys(base)(names[i], d[names[i]]) != ObjectKey(base, date, name)
  {
    forall i | 0 <= i < |names|
      ensures QueueKey(base, names[i], d[names[i]]) != ObjectKey(base, date, name)
    {
      ObjectKeyInjective(base, DateOf(d[names[i]].mtime), names[i], date, name);
    }
  }

  /** After pushing distinct queue files, each one's key holds its content. */
  lemma {:induction false} PushesStore(objects: map<string, Bytes>, key: KeyOf, d: Dir, names: seq<string>, j: nat)
    requires KeysDistinct(key, d) && Distinct(names)
    requires forall i :: 0 <= i < |names| ==> names[i] in d
    requires j < |names|
    ensures var k := key(names[j], d[names[j]]);
            k in Pushes(objects, key, d, names) && Pushes(objects, key, d, names)[k] == d[names[j]].content
    decreases |names|
  {
    var first := objects[key(names[0], d[names[0]]) := d[names[0]].content];
    if j == 0 {
      var k := key(names[0], d[names[0]]);
      assert forall i :: 0 <= i < |names[1..]| ==> names[1..][i] != names[0];
      PushesKeep(first, key, d, names[1..], k);
    } else {
      PushesStore(first, key, d, names[1..], j - 1);
    }
  }

  /** No segment is lost by the drain: a file that left the queue is in the
      store under its key with its content, and the file whose put or removal
      failed and every file listed after it are still queued, unchanged. */
  lemma DrainSafe(r: Remote, o: Oracle, base: string, removes: Removes, queue: Option<Dir>, listing: seq<string>)
    requires queue.Some? && Enumerates(listing, queue.value.Keys)
    requires '/' !in base && PlainNames(queue.value.Keys)
    ensures var res := Drain(r, o, QueueKeys(base), removes, queue, listing);
            forall n :: n in queue.value && n !in res.queue.value ==>
              var f := queue.value[n];
              QueueKey(base, n, f) in res.remote.objects && res.remote.objects[QueueKey(base, n, f)] == f.content
    ensures var res := Drain(r, o, QueueKeys(base), removes, queue, listing);
            forall j :: res.removed <= j < |listing| ==>
              listing[j] in res.queue.value && res.queue.value[listing[j]] == queue.value[listing[j]]
  {
    var d := queue.value;
    var res := Drain(r, o, QueueKeys(base), removes, queue, listing);
    var done := listing[..res.uploaded];
    QueueKeysDistinct(base, d);
    forall n | n in d && n !in res.queue.value
      ensures QueueKey(base, n, d[n]) in res.remote.objects && res.remote.objects[QueueKey(base, n, d[n])] == d[n].content
    {
      assert n in KeySet(listing[..res.removed]);
      var j :| 0 <= j < res.removed && listing[j] == n;
      assert done[j] == n;
      PushesStore(r.objects, QueueKeys(base), d, done, j);
    }
    forall j | res.removed <= j < |listing|
      ensures listing[j] in res.queue.value
    {
      assert listing[j] !in KeySet(listing[..res.removed]);
    }
  }
}
