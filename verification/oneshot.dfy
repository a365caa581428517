/**
  `main` of the two one-shot archivers that PostgreSQL runs as its
  `archive_command` with the segment's path and file name.

  Both variants exit 1 on a wrong argument count or a missing file, create the
  fallback queue directory if needed (dying if `os.makedirs` raises), and
  upload the segment. After a
  successful upload they drain the queue and exit 0; one variant also prunes
  old partitions. After a failed upload they copy the segment into the queue
  and exit 0 if the copy succeeded, 1 otherwise. The variant without the
  `time` import can instead die with an uncaught `NameError`.
*/
module OneShot {

  import opened Wrappers
  import opened Text
  import opened Calendar
  import opened ObjectStore
  import opened Uploader
  import opened Fallback
  import opened Pruner

  /** Which script: whether it prunes after a successful upload, and whether
      `time` is imported so that the retry delay can run. */
  datatype Script = Script(prunes: bool, importsTime: bool)

  /** The archiver that prunes old partitions after each upload. */
  const PruningArchiver := Script(true, true)

  /** The archiver without pruning, as written: `time` is never imported. */
  const PlainArchiver := Script(false, false)

  /** The same archiver with the missing import added. */
  const FixedPlainArchiver := Script(false, true)

  /** `sys.exit(code)`, or an exception that escapes `main` (the interpreter
      then exits with status 1). */
  datatype Exit = Exit(code: int) | Crash

  function Status(e: Exit): int {
    if e.Crash? then 1 else e.code
  }

  /** The remote store and the fallback queue directory (absent or present). */
  datatype Host = Host(remote: Remote, queue: Option<Dir>)

  /** What the environment decides for one run: request outcomes, the clock,
      whether the fallback copy succeeds, how the store lists keys, the order
      in which `os.listdir` returns the queue, whether `os.makedirs` can
      create a missing queue directory, and which queued files `os.remove`
      can delete. */
  datatype World = World(o: Oracle, now: Instant, copyOk: bool, lister: Lister, order: seq<string>,
                         dirOk: bool, removes: Removes)

  /** The queue directory once `ensure_local_fallback_dir` has returned. */
  function Ensure(queue: Option<Dir>): Dir {
    if queue.Some? then queue.value else map[]
  }

  /** One invocation. `args` is `sys.argv[1:]`; `src` is the file at the given
      path, if one exists. */
  function RunScript(s: Script, args: seq<string>, src: Option<LocalFile>, h: Host, w: World): (res: (Host, Exit))
    requires ValidLister(w.lister)
    requires Enumerates(w.order, Ensure(h.queue).Keys)
    ensures |args| != 2 || src.None? ==> res == (h, Exit(1))
    ensures |args| == 2 && src.Some? && h.queue.None? && !w.dirOk ==> res == (h, Crash)
    ensures res.1 == Exit(0) || res.1 == Exit(1) || res.1 == Crash
    ensures res.1 == Crash ==> res.0.remote.objects == h.remote.objects
    ensures res.1 == Crash && (h.queue.Some? || w.dirOk) ==> !s.importsTime && res.0.queue == Some(Ensure(h.queue))
    ensures res.1 == Exit(1) ==>
              res.0.remote.objects == h.remote.objects && (res.0 == h || res.0.queue == Some(Ensure(h.queue)))
    ensures !s.prunes ==> h.remote.objects.Keys <= res.0.remote.objects.Keys
  {
    if |args| != 2 || src.None? then (h, Exit(1))
    else if h.queue.None? && !w.dirOk then (h, Crash)
    else
      var queue := Ensure(h.queue);
      var name := args[1];
      var up := Upload(h.remote, w.o, BaseFolder, w.now, name, src.value.content, s.importsTime);
      match up.verdict
      case Crashed => (Host(up.remote, Some(queue)), Crash)
      case Uploaded => (AfterUpload(s, up.remote, queue, w), Exit(0))
      case Failed =>
        var (q, copied) := SaveCopy(Some(queue), name, src.value, w.copyOk);
        (Host(up.remote, q), Exit(if copied then 0 else 1))
  }

  /** After a successful upload: drain the queue, then prune if the script
      does. Without pruning no key of the store goes away. */
  function AfterUpload(s: Script, r: Remote, queue: Dir, w: World): (h: Host)
    requires ValidLister(w.lister) && Enumerates(w.order, queue.Keys)
    ensures h.queue.Some?
    ensures !s.prunes ==> r.objects.Keys <= h.remote.objects.Keys
  {
    var d := Drain(r, w.o, QueueKeys(BaseFolder), w.removes, Some(queue), w.order);
    if s.prunes then
      var p := ArchiverPrune(d.remote, w.o, w.lister, w.now);
      Host(p.remote, d.queue)
    else
      PushesGrow(r.objects, QueueKeys(BaseFolder), queue, w.order[..d.uploaded]);
      Host(d.remote, d.queue)
  }

  lemma {:induction false} PushesGrow(objects: map<string, Bytes>, key: KeyOf, d: Dir, names: seq<string>)
    requires forall i :: 0 <= i < |names| ==> names[i] in d
    ensures objects.Keys <= Pushes(objects, key, d, names).Keys
    decreases |names|
  {
    if |names| > 0 {
      PushesGrow(objects[key(names[0], d[names[0]]) := d[names[0]].content], key, d, names[1..]);
    }
  }

  /** The segment is safe: in the store under today's partition with its
      content, or in the queue with its content and modification time. */
  predicate Archived(h: Host, name: string, f: LocalFile, now: Instant) {
    var key := ObjectKey(BaseFolder, DateOf(now), name);
    (key in h.remote.objects && h.remote.objects[key] == f.content) ||
    (h.queue.Some? && name in h.queue.value && h.queue.value[name] == f)
  }

  /** The drain never overwrites the key of a segment that is not queued. */
  lemma DrainKeepsKey(r: Remote, o: Oracle, removes: Removes, queue: Dir, order: seq<string>, date: Date, name: string, data: Bytes)
    requires Enumerates(order, queue.Keys) && PlainNames(queue.Keys)
    requires ValidDate(date) && '/' !in name && name !in queue
    requires ObjectKey(BaseFolder, date, name) in r.objects && r.objects[ObjectKey(BaseFolder, date, name)] == data
    ensures var d := Drain(r, o, QueueKeys(BaseFolder), removes, Some(queue), order);
            ObjectKey(BaseFolder, date, name) in d.remote.objects && d.remote.objects[ObjectKey(BaseFolder, date, name)] == data
  {
    var d := Drain(r, o, QueueKeys(BaseFolder), removes, Some(queue), order);
    var done := order[..d.uploaded];
    assert forall i :: 0 <= i < |done| ==> done[i] in queue;
    QueueKeysAvoid(BaseFolder, queue, done, date, name);
    PushesKeep(r.objects, QueueKeys(BaseFolder), queue, done, ObjectKey(BaseFolder, date, name));
  }

  /** The archiver's prune never deletes an object of today's partition. */
  lemma PruneKeepsToday(r: Remote, o: Oracle, lister: Lister, now: Instant, name: string)
    requires ValidLister(lister)
    requires ObjectKey(BaseFolder, DateOf(now), name) in r.objects
    ensures var p := ArchiverPrune(r, o, lister, now);
            var key := ObjectKey(BaseFolder, DateOf(now), name);
            key in p.remote.objects && p.remote.objects[key] == r.objects[key]
  {
    var today := DateOf(now);
    FlatLayoutSegments();
    PruneSafe(r, o, lister, FirstPage, FlatLayout(), [BaseFolder], now, ArchiverRetentionDays);
    FormatNoSlash(today);
    var key := ObjectKey(BaseFolder, today, name);
    assert key == Join([BaseFolder, Format(today)], "/") + "/" + name;
    SegmentsSplit([BaseFolder, Format(today)], name);
    assert Token(key, FlatLayout()) == Some(Format(today));
    if MinusDays(now, ArchiverRetentionDays).Some? {
      TodayNotStale(now, ArchiverRetentionDays);
    }
  }

  /** Exit status 0 means the segment was archived, as PostgreSQL assumes when
      it recycles the segment. This holds when the segment's name is a plain
      file name that is not already queued. */
  lemma ExitZeroArchived(s: Script, args: seq<string>, src: Option<LocalFile>, h: Host, w: World)
    requires ValidLister(w.lister)
    requires Enumerates(w.order, Ensure(h.queue).Keys) && PlainNames(Ensure(h.queue).Keys)
    requires |args| == 2 && '/' !in args[1] && args[1] !in Ensure(h.queue)
    ensures var res := RunScript(s, args, src, h, w);
            Status(res.1) == 0 ==> src.Some? && Archived(res.0, args[1], src.value, w.now)
  {
    var res := RunScript(s, args, src, h, w);
    if Status(res.1) == 0 {
      var queue := Ensure(h.queue);
      var name := args[1];
      var f := src.value;
      var today := DateOf(w.now);
      var key := ObjectKey(BaseFolder, today, name);
      var up := Upload(h.remote, w.o, BaseFolder, w.now, name, f.content, s.importsTime);
      if up.verdict == Uploaded {
        DrainKeepsKey(up.remote, w.o, w.removes, queue, w.order, today, name, f.content);
        if s.prunes {
          var d := Drain(up.remote, w.o, QueueKeys(BaseFolder), w.removes, Some(queue), w.order);
          PruneKeepsToday(d.remote, w.o, w.lister, w.now, name);
        }
      }
    }
  }

  /** Why `ExitZeroArchived` asks that the segment not be queued already: a
      queued file with the segment's own name, dated today, is drained right
      after the segment's upload, is put under the same key and is removed.
      With every request answered the script exits 0, and the segment's own
      content is then neither in the store nor in the queue. */
  lemma QueuedTwinReplacesSegment(s: Script, path: string, name: string, f: LocalFile, g: LocalFile, r: Remote, w: World)
    requires ValidLister(w.lister) && forall c :: w.o(c) == Ok
    requires w.order == [name] && w.removes(name)
    requires '/' !in name && DateOf(g.mtime) == DateOf(w.now) && g.content != f.content
    ensures var res := RunScript(s, [path, name], Some(f), Host(r, Some(map[name := g])), w);
            res.1 == Exit(0) && !Archived(res.0, name, f, w.now)
  {
    var queue := map[name := g];
    var key := ObjectKey(BaseFolder, DateOf(w.now), name);
    var up := Upload(r, w.o, BaseFolder, w.now, name, f.content, s.importsTime);
    assert up.verdict == Uploaded;
    assert Enumerates(w.order, queue.Keys);
    var d := Drain(up.remote, w.o, QueueKeys(BaseFolder), w.removes, Some(queue), w.order);
    DrainCount(up.remote, w.o, QueueKeys(BaseFolder), w.removes, Some(queue), w.order);
    assert d.removed == 1 && d.uploaded == 1;
    assert w.order[..1] == [name];
    assert QueueKey(BaseFolder, name, g) == key;
    assert d.remote.objects == up.remote.objects[key := g.content];
    assert d.queue == Some(map[]);
    if s.prunes {
      PruneKeepsToday(d.remote, w.o, w.lister, w.now, name);
    }
  }

  /** Found defect, as written: the script without the `time` import dies on
      the first connectivity error, with status 1 and no fallback copy. */
  lemma MissingImportLosesFallback(args: seq<string>, f: LocalFile, h: Host, w: World)
    requires ValidLister(w.lister) && Enumerates(w.order, Ensure(h.queue).Keys)
    requires |args| == 2 && w.copyOk && (h.queue.Some? || w.dirOk)
    requires w.o(h.remote.calls) == ConnErr
    ensures RunScript(PlainArchiver, args, Some(f), h, w).1 == Crash
    ensures Status(RunScript(PlainArchiver, args, Some(f), h, w).1) == 1
    ensures var q := RunScript(PlainArchiver, args, Some(f), h, w).0.queue;
            q.Some? && (args[1] in q.value <==> args[1] in Ensure(h.queue))
  {
    RetryMatchesTable(h.remote, w.o, ObjectKey(BaseFolder, DateOf(w.now), args[1]), f.content, false);
  }

  /** With the import added, the same outage of three connectivity errors
      ends in a fallback copy of the segment and exit status 0. */
  lemma FixedImportFallsBack(args: seq<string>, f: LocalFile, h: Host, w: World)
    requires ValidLister(w.lister) && Enumerates(w.order, Ensure(h.queue).Keys)
    requires |args| == 2 && w.copyOk && (h.queue.Some? || w.dirOk)
    requires w.o(h.remote.calls) == ConnErr && w.o(h.remote.calls + 1) == ConnErr && w.o(h.remote.calls + 2) == ConnErr
    ensures var res := RunScript(FixedPlainArchiver, args, Some(f), h, w);
            res.1 == Exit(0) && res.0.queue.Some? && args[1] in res.0.queue.value && res.0.queue.value[args[1]] == f
  {
    RetryMatchesTable(h.remote, w.o, ObjectKey(BaseFolder, DateOf(w.now), args[1]), f.content, true);
  }
}
