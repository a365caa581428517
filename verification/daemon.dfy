/**
  One iteration of the polling daemon that ships WAL segments from the
  PostgreSQL WAL directory to the store, keeping failed ones in a local backup
  directory: drain the backup directory, upload the eligible segments, prune
  old partitions, and (when the last upload went through) delete old backup
  files. The ten-minute sleep and the endless loop are outside the model; the
  `ozone_down` flag is part of the state so that iterations compose.

  The script as written has four defects, each switched off by one field of
  `Fixes`: the store client is never bound, the drain looks up modification
  times in the WAL directory, the local cleanup deletes backup files that were
  never uploaded, and the partition prefix lacks its trailing '/'.
*/
module Daemon {

  import opened Wrappers
  import opened Text
  import opened Calendar
  import opened ObjectStore
  import opened Chunking
  import opened Fallback
  import opened Pruner

  datatype Fixes = Fixes(clientBound: bool, mtimeFromBackup: bool, cleanupArchivedOnly: bool, folderSlash: bool)

  const AsWritten := Fixes(false, false, false, false)
  const Repaired := Fixes(true, true, true, true)

  /** Partitions and backup files older than this many days are deleted. */
  const RetentionDays: nat := 7

  /** The WAL directory, the backup directory, the store and `ozone_down`. */
  datatype Node = Node(wal: Dir, backup: Dir, remote: Remote, ozoneDown: bool)

  /** The iteration ran to its end, or an exception escaped `main` and the
      daemon died in the given state. */
  datatype Step = Running(node: Node) | Died(node: Node)

  /** `get_wal_files`: names starting with `0000` and ending with `.partial`. */
  predicate Eligible(name: string) {
    StartsWith(name, "0000") && EndsWith(name, ".partial")
  }

  function WalFiles(listing: seq<string>): (names: seq<string>)
    ensures forall x :: x in names <==> x in listing && Eligible(x)
    ensures Distinct(listing) ==> Distinct(names)
    ensures |names| <= |listing|
  {
    if |listing| == 0 then []
    else (if Eligible(listing[0]) then [listing[0]] else []) + WalFiles(listing[1..])
  }

  /** An upload: with the client unbound, the name lookup raises `NameError`
      before any request is sent, which the caller sees as an ordinary error. */
  function Request(r: Remote, o: Oracle, fx: Fixes, key: string, data: Bytes): (Remote, Outcome) {
    if fx.clientBound then Put(r, o, key, data) else (r, OtherErr)
  }

  /** `retry_local_backup` from listing position `i` on. A successful upload
      removes the file, unless `os.remove` fails, which the generic handler
      logs; a connectivity error stops the drain; any other error moves on to
      the next file. The modification time for the key is looked up outside
      the `try`, in the WAL directory as written. */
  function RetryBackup(n: Node, o: Oracle, fx: Fixes, key: KeyOf, removes: Removes, order: seq<string>, i: nat): (s: Step)
    requires i <= |order| && Distinct(order)
    requires forall j :: i <= j < |order| ==> order[j] in n.backup
    ensures s.node.wal == n.wal && s.node.ozoneDown == n.ozoneDown
    ensures s.node.backup.Keys <= n.backup.Keys
    ensures forall x :: x in s.node.backup ==> s.node.backup[x] == n.backup[x]
    ensures forall x :: x in n.backup && x !in s.node.backup ==> x in order[i..]
    ensures forall j :: i <= j < |order| && order[j] !in s.node.backup ==> fx.clientBound
    ensures s.Died? ==> !fx.mtimeFromBackup
    ensures !fx.clientBound ==> s.node.backup == n.backup && s.node.remote == n.remote
    ensures n.remote.objects.Keys <= s.node.remote.objects.Keys
    decreases |order| - i
  {
    if i == |order| then Running(n)
    else
      var name := order[i];
      var f := n.backup[name];
      if !fx.mtimeFromBackup && name !in n.wal then Died(n)
      else
        var stamp := if fx.mtimeFromBackup then f else n.wal[name];
        var (r1, out) := Request(n.remote, o, fx, key(name, stamp), f.content);
        match out
        case Ok =>
          var left := if removes(name) then n.backup - {name} else n.backup;
          RetryBackup(n.(remote := r1, backup := left), o, fx, key, removes, order, i + 1)
        case ConnErr => Running(n.(remote := r1))
        case OtherErr => RetryBackup(n.(remote := r1), o, fx, key, removes, order, i + 1)
  }

  /** One file of the main loop's pass: upload it under the date of its
      modification time; on failure rename it into the backup directory (a
      failed rename is only logged). Every file sets `ozone_down`. */
  function ScanOne(n: Node, o: Oracle, fx: Fixes, key: KeyOf, moves: string -> bool, name: string): (m: Node)
    requires name in n.wal
    ensures var f, ok := n.wal[name], fx.clientBound && o(n.remote.calls) == Ok;
            && m.remote.calls == n.remote.calls + (if fx.clientBound then 1 else 0)
            && m.remote.objects == (if ok then n.remote.objects[key(name, f) := f.content] else n.remote.objects)
            && (m.ozoneDown <==> !ok)
            && (ok || !moves(name) ==> m.wal == n.wal && m.backup == n.backup)
            && (!ok && moves(name) ==> m.wal == n.wal - {name} && m.backup == n.backup[name := f])
  {
    var f := n.wal[name];
    var (r1, out) := Request(n.remote, o, fx, key(name, f), f.content);
    if out == Ok then n.(remote := r1, ozoneDown := false)
    else if moves(name) then n.(remote := r1, wal := n.wal - {name}, backup := n.backup[name := f], ozoneDown := true)
    else n.(remote := r1, ozoneDown := true)
  }

  /** The main loop's pass over the eligible WAL files from position `i` on:
      one request per file when the client is bound, and files leave the WAL
      directory but never change there. */
  function ScanUpload(n: Node, o: Oracle, fx: Fixes, key: KeyOf, moves: string -> bool, names: seq<string>, i: nat): (m: Node)
    requires i <= |names| && Distinct(names)
    requires forall j :: i <= j < |names| ==> names[j] in n.wal
    ensures m.remote.calls == n.remote.calls + (if fx.clientBound then |names| - i else 0)
    ensures i == |names| ==> m.ozoneDown == n.ozoneDown
    ensures m.wal.Keys <= n.wal.Keys && forall x :: x in m.wal ==> m.wal[x] == n.wal[x]
    ensures n.remote.objects.Keys <= m.remote.objects.Keys
    ensures !fx.clientBound ==> m.remote == n.remote
    decreases |names| - i
  {
    if i == |names| then n
    else ScanUpload(ScanOne(n, o, fx, key, moves, names[i]), o, fx, key, moves, names, i + 1)
  }

  /** One file handled: the rest of the names are still there, unchanged,
      and the pass continues from the next position. */
  lemma ScanUnfold(n: Node, o: Oracle, fx: Fixes, key: KeyOf, moves: string -> bool, names: seq<string>, i: nat)
    requires i < |names| && Distinct(names)
    requires forall j :: i <= j < |names| ==> names[j] in n.wal
    ensures var next := ScanOne(n, o, fx, key, moves, names[i]);
            && (forall j :: i < j < |names| ==> names[j] in next.wal && next.wal[names[j]] == n.wal[names[j]])
            && ScanUpload(n, o, fx, key, moves, names, i) == ScanUpload(next, o, fx, key, moves, names, i + 1)
  {
  }

  /** The pass over the last name is that file's step alone. */
  lemma ScanLast(n: Node, o: Oracle, fx: Fixes, key: KeyOf, moves: string -> bool, names: seq<string>, i: nat)
    requires i + 1 == |names| && Distinct(names) && names[i] in n.wal
    ensures var m := ScanOne(n, o, fx, key, moves, names[i]);
            && ScanUpload(n, o, fx, key, moves, names, i) == m
            && (m.ozoneDown <==> !(fx.clientBound && o(m.remote.calls - 1) == Ok))
  {
    var m := ScanOne(n, o, fx, key, moves, names[i]);
    if fx.clientBound {
      assert m.remote.calls - 1 == n.remote.calls;
    }
  }

  /** A file leaves the WAL directory only into the backup directory, and
      queued files the pass does not name stay queued. */
  lemma {:induction false} ScanMoves(n: Node, o: Oracle, fx: Fixes, key: KeyOf, moves: string -> bool, names: seq<string>, i: nat)
    requires i <= |names| && Distinct(names)
    requires forall j :: i <= j < |names| ==> names[j] in n.wal
    ensures var m := ScanUpload(n, o, fx, key, moves, names, i);
            && (forall x :: x in n.wal && x !in m.wal ==> x in names[i..] && x in m.backup && m.backup[x] == n.wal[x])
            && (forall x :: x in n.backup && x !in names[i..] ==> x in m.backup && m.backup[x] == n.backup[x])
    decreases |names| - i
  {
    if i < |names| {
      var next := ScanOne(n, o, fx, key, moves, names[i]);
      ScanUnfold(n, o, fx, key, moves, names, i);
      ScanMoves(next, o, fx, key, moves, names, i + 1);
      assert names[i..] == [names[i]] + names[i + 1..];
    }
  }

  /** Every file of the pass sets `ozone_down`, so afterwards the flag says
      whether the last request failed. */
  lemma {:induction false} ScanFlag(n: Node, o: Oracle, fx: Fixes, key: KeyOf, moves: string -> bool, names: seq<string>, i: nat)
    requires i < |names| && Distinct(names)
    requires forall j :: i <= j < |names| ==> names[j] in n.wal
    ensures var m := ScanUpload(n, o, fx, key, moves, names, i);
            m.ozoneDown <==> !(fx.clientBound && o(m.remote.calls - 1) == Ok)
    decreases |names| - i
  {
    var next := ScanOne(n, o, fx, key, moves, names[i]);
    ScanUnfold(n, o, fx, key, moves, names, i);
    if i + 1 < |names| {
      ScanFlag(next, o, fx, key, moves, names, i + 1);
    } else {
      ScanLast(n, o, fx, key, moves, names, i);
    }
  }

  /** Nothing enters the backup directory during the pass but the files it
      names, unchanged. */
  lemma {:induction false} ScanOrigin(n: Node, o: Oracle, fx: Fixes, key: KeyOf, moves: string -> bool, names: seq<string>, i: nat)
    requires i <= |names| && Distinct(names)
    requires forall j :: i <= j < |names| ==> names[j] in n.wal
    ensures var m := ScanUpload(n, o, fx, key, moves, names, i);
            forall x :: x in m.backup ==> x in n.backup || (x in names[i..] && m.backup[x] == n.wal[x])
    decreases |names| - i
  {
    if i < |names| {
      var next := ScanOne(n, o, fx, key, moves, names[i]);
      ScanUnfold(n, o, fx, key, moves, names, i);
      ScanOrigin(next, o, fx, key, moves, names, i + 1);
      ScanMoves(next, o, fx, key, moves, names, i + 1);
      var m := ScanUpload(n, o, fx, key, moves, names, i);
      assert names[i..] == [names[i]] + names[i + 1..];
      forall x | x in m.backup && x !in n.backup
        ensures x in names[i..] && m.backup[x] == n.wal[x]
      {
        if x in next.backup {
          assert x == names[i] && next.backup[x] == n.wal[x];
          assert x !in names[i + 1..];
        } else {
          var j :| i + 1 <= j < |names| && names[j] == x;
        }
      }
    }
  }

  /** What the pass does to each file it visits: the file is stored under
      its key, or it stayed put because the rename failed, or it left the
      WAL directory. */
  lemma {:induction false} ScanFate(n: Node, o: Oracle, fx: Fixes, key: KeyOf, moves: string -> bool, names: seq<string>, i: nat)
    requires i <= |names| && Distinct(names)
    requires forall j :: i <= j < |names| ==> names[j] in n.wal
    ensures var m := ScanUpload(n, o, fx, key, moves, names, i);
            forall j :: i <= j < |names| ==>
              var x := names[j];
              x !in m.wal || (fx.clientBound && key(x, n.wal[x]) in m.remote.objects) || !moves(x)
    decreases |names| - i
  {
    if i < |names| {
      var next := ScanOne(n, o, fx, key, moves, names[i]);
      ScanUnfold(n, o, fx, key, moves, names, i);
      ScanFate(next, o, fx, key, moves, names, i + 1);
    }
  }

  /** A backup file old enough for `delete_old_local_files`; with the repair,
      only if its upload is in the store. */
  predicate Removable(x: string, f: LocalFile, cutoff: Instant, fx: Fixes, objects: map<string, Bytes>) {
    InstantBefore(f.mtime, cutoff) && (!fx.cleanupArchivedOnly || Stored(objects, x, f))
  }

  /** The file's content is in the store under the key its upload uses. */
  predicate Stored(objects: map<string, Bytes>, x: string, f: LocalFile) {
    QueueKey(BaseFolder, x, f) in objects && objects[QueueKey(BaseFolder, x, f)] == f.content
  }

  /** `delete_old_local_files`: the cutoff is computed outside any `try`, so an
      out-of-range date kills the daemon. A failed `os.remove` is logged and
      keeps the file. */
  function CleanLocal(n: Node, fx: Fixes, now: Instant, removes: Removes): (s: Step)
    ensures s.Died? <==> MinusDays(now, RetentionDays).None?
    ensures s.node.wal == n.wal && s.node.remote == n.remote && s.node.ozoneDown == n.ozoneDown
    ensures s.node.backup.Keys <= n.backup.Keys && forall x :: x in s.node.backup ==> s.node.backup[x] == n.backup[x]
    ensures s.Running? ==> forall x :: x in n.backup ==>
              (x !in s.node.backup <==>
                 Removable(x, n.backup[x], MinusDays(now, RetentionDays).value, fx, n.remote.objects) && removes(x))
  {
    match MinusDays(now, RetentionDays)
    case None => Died(n)
    case Some(cutoff) =>
      Running(n.(backup := map x | x in n.backup && !(Removable(x, n.backup[x], cutoff, fx, n.remote.objects) && removes(x)) :: n.backup[x]))
  }

  // ---------------------------------------------------------------------------
  // delete_old_folders: a delimited listing of the partitions under the base
  // folder, then, for each partition dated before the cutoff, one listing of
  // its keys (first page only) and one delete request.
  // ---------------------------------------------------------------------------

  const Root: string := BaseFolder + "/"

  /** A common prefix of a delimited listing under `p`: `p`, a segment without
      the delimiter, and the delimiter. */
  predicate CommonPrefix(c: string, p: string) {
    |c| > |p| && StartsWith(c, p) && c[|c| - 1] == '/' && '/' !in c[|p|..|c| - 1]
  }

  /** The listing with `Delimiter='/'`: one page of common prefixes. */
  type Delimited = (set<string>, string) -> seq<string>

  ghost predicate ValidDelimited(d: Delimited) {
    forall keys, p ::
      && |d(keys, p)| <= PageLimit
      && Distinct(d(keys, p))
      && forall c :: c in d(keys, p) ==> CommonPrefix(c, p) && exists k :: k in keys && StartsWith(k, c)
  }

  /** The date token read from a common prefix: strip the trailing delimiters
      and take the last segment. */
  function FolderToken(c: string): string {
    Last(SplitOn(RStrip(c, '/'), "/"))
  }

  /** A partition whose date, rendered again, sorts before the cutoff string. */
  predicate OldToken(t: string, cutoff: string) {
    ParseDate(t).Some? && Less(Format(ParseDate(t).value), cutoff)
  }

  /** Key `k` lies under the root, in a partition named `t` with an old date
      — with the slash, inside that partition; without it, merely starting
      with the partition's name. */
  ghost predicate InOldFolder(k: string, slash: bool, cutoff: string) {
    exists t :: '/' !in t && OldToken(t, cutoff) && StartsWith(k, Root + t + (if slash then "/" else ""))
  }

  lemma RStripOne(s: string, c: char)
    requires |s| > 0 && s[|s| - 1] != c
    ensures RStrip(s + [c], c) == s
  {
    assert (s + [c])[..|s|] == s;
  }

  lemma FolderTokenSegment(c: string, seg: string)
    requires c == Root + seg + "/" && '/' !in seg && |seg| > 0
    ensures RStrip(c, '/') == Root + seg && FolderToken(c) == seg
  {
    RStripOne(Root + seg, '/');
    assert Root + seg == BaseFolder + ['/'] + seg;
    SplitCons(BaseFolder, '/', seg);
    SplitNoSep(seg, '/');
  }

  /** A common prefix that yields a date is the root, the token, and '/'. */
  lemma FolderTokenOf(c: string)
    requires CommonPrefix(c, Root)
    ensures ParseDate(FolderToken(c)).Some? ==> '/' !in FolderToken(c) && RStrip(c, '/') == Root + FolderToken(c)
  {
    var seg := c[|Root|..|c| - 1];
    assert c == Root + seg + "/";
    if |seg| > 0 {
      FolderTokenSegment(c, seg);
    } else {
      assert c == BaseFolder + "//";
      assert RStrip(c, '/') == BaseFolder by {
        assert c[..|c| - 1] == BaseFolder + "/";
        RStripOne(BaseFolder, '/');
      }
      SplitNoSep(BaseFolder, '/');
      SplitNoSep(BaseFolder, '-');
    }
  }

  lemma FirstPageKeys(keys: set<string>, prefix: string, pages: seq<seq<string>>)
    requires IsListing(keys, prefix, pages)
    ensures forall k :: k in pages[0] ==> k in keys && StartsWith(k, prefix)
    ensures |pages[0]| <= PageLimit
  {
    assert Flatten(pages) == pages[0] + Flatten(pages[1..]);
  }

  /** Every key on the first listing page of an old partition is stored and
      lies in that partition. */
  lemma FolderPage(keys: set<string>, lister: Lister, c: string, slash: bool, cutoff: string)
    requires ValidLister(lister) && CommonPrefix(c, Root) && OldToken(FolderToken(c), cutoff)
    ensures var name := RStrip(c, '/');
            forall k :: k in lister(keys, if slash then name + "/" else name)[0] ==>
              k in keys && InOldFolder(k, slash, cutoff)
  {
    FolderTokenOf(c);
    var t := FolderToken(c);
    var name := RStrip(c, '/');
    var prefix := if slash then name + "/" else name;
    assert prefix == Root + t + (if slash then "/" else "");
    FirstPageKeys(keys, prefix, lister(keys, prefix));
  }

  /** The loop over the common prefixes from position `i` on; a token that
      does not parse and a failed request both end the loop, as the
      surrounding `try` does. */
  function FolderSweep(r: Remote, o: Oracle, fx: Fixes, lister: Lister, cutoff: string, commons: seq<string>, i: nat): (p: Pass)
    requires ValidLister(lister)
    requires i <= |commons| && forall j :: i <= j < |commons| ==> CommonPrefix(commons[j], Root)
    ensures p.remote.objects == r.objects - LoggedKeys(p.log)
    ensures BatchesSized(p.log)
    ensures forall k :: k in LoggedKeys(p.log) ==> k in r.objects && InOldFolder(k, fx.folderSlash, cutoff)
    ensures r.calls <= p.remote.calls
    decreases |commons| - i
  {
    if i == |commons| then Pass(r, [], true)
    else
      var step := FolderStep(r, o, fx, lister, cutoff, commons[i]);
      if !step.ok then step
      else
        var rest := FolderSweep(step.remote, o, fx, lister, cutoff, commons, i + 1);
        LoggedAppend(step.log, rest.log);
        MinusMinus(r.objects, LoggedKeys(step.log), LoggedKeys(rest.log));
        Pass(rest.remote, step.log + rest.log, rest.ok)
  }

  /** One common prefix `c`: skip it when its date is not old enough, else
      list its first page and delete what was listed. `ok` is false when the
      loop ends here. */
  function FolderStep(r: Remote, o: Oracle, fx: Fixes, lister: Lister, cutoff: string, c: string): (p: Pass)
    requires ValidLister(lister) && CommonPrefix(c, Root)
    ensures p.remote.objects == r.objects - LoggedKeys(p.log)
    ensures |p.log| <= 1 && BatchesSized(p.log)
    ensures forall k :: k in LoggedKeys(p.log) ==> k in r.objects && InOldFolder(k, fx.folderSlash, cutoff)
    ensures r.calls <= p.remote.calls
  {
    match ParseDate(FolderToken(c))
    case None => Pass(r, [], false)
    case Some(d) =>
      if !Less(Format(d), cutoff) then Pass(r, [], true)
      else
        var name := RStrip(c, '/');
        var prefix := if fx.folderSlash then name + "/" else name;
        var r1 := Remote(r.objects, r.calls + 1);
        if o(r.calls) != Ok then Pass(r1, [], false)
        else
          var page := lister(r.objects.Keys, prefix)[0];
          FirstPageKeys(r.objects.Keys, prefix, lister(r.objects.Keys, prefix));
          if |page| == 0 then Pass(r1, [], true)
          else
            var (r2, out) := DeleteBatch(r1, o, page);
            if out != Ok then Pass(r2, [], false)
            else
              FolderPage(r.objects.Keys, lister, c, fx.folderSlash, cutoff);
              LoggedOne(page);
              Pass(r2, [page], true)
  }

  /** `delete_old_folders`. Without a bound client the first request raises a
      `NameError` that the function's own handler swallows. */
  function DeleteOldFolders(r: Remote, o: Oracle, fx: Fixes, now: Instant, commons: Delimited, lister: Lister): (p: Pass)
    requires ValidDelimited(commons) && ValidLister(lister)
    ensures p.remote.objects == r.objects - LoggedKeys(p.log)
    ensures BatchesSized(p.log)
    ensures !fx.clientBound ==> p.remote == r && p.log == []
    ensures LoggedKeys(p.log) != {} ==>
              && MinusDays(now, RetentionDays).Some?
              && forall k :: k in LoggedKeys(p.log) ==>
                   k in r.objects && InOldFolder(k, fx.folderSlash, Format(DateOf(MinusDays(now, RetentionDays).value)))
    ensures r.calls <= p.remote.calls
  {
    if !fx.clientBound then Pass(r, [], false)
    else
      var r1 := Remote(r.objects, r.calls + 1);
      if o(r.calls) != Ok then Pass(r1, [], false)
      else
        var cs := commons(r.objects.Keys, Root);
        if |cs| == 0 then Pass(r1, [], true)
        else
          match MinusDays(now, RetentionDays)
          case None => Pass(r1, [], false)
          case Some(cutoff) => FolderSweep(r1, o, fx, lister, Format(DateOf(cutoff)), cs, 0)
  }

  /** The string comparison of dates is the date order: a partition counts as
      old exactly when its date is before the cutoff's date. */
  lemma OldTokenMeaning(t: string, cutoff: Instant)
    ensures OldToken(t, Format(DateOf(cutoff))) <==> ParseDate(t).Some? && DateBefore(ParseDate(t).value, DateOf(cutoff))
  {
    if ParseDate(t).Some? {
      FormatOrder(ParseDate(t).value, DateOf(cutoff));
    }
  }

  /** An object directly under the root, with no partition segment, is never
      inside an old partition. */
  lemma TopLevelNotInFolder(k: string, cutoff: string)
    requires StartsWith(k, Root) && '/' !in k[|Root|..]
    ensures !InOldFolder(k, true, cutoff)
  {
    forall t | '/' !in t
      ensures !StartsWith(k, Root + t + "/")
    {
      var q := Root + t + "/";
      if |q| <= |k| {
        assert k[|Root|..][|t|] == k[|Root| + |t|];
        assert q[|Root| + |t|] == '/';
      }
    }
  }

  lemma DistinctBound(xs: seq<string>, s: set<string>)
    requires Distinct(xs) && forall i :: 0 <= i < |xs| ==> xs[i] in s
    ensures |xs| <= |s|
    decreases |xs|
  {
    if |xs| > 0 {
      assert forall i :: 0 <= i < |xs[1..]| ==> xs[1..][i] == xs[i + 1] && xs[1..][i] != xs[0];
      DistinctBound(xs[1..], s - {xs[0]});
    }
  }

  /** A listing of fewer keys than a page holds has everything on its first page. */
  lemma SmallListing(keys: set<string>, prefix: string, pages: seq<seq<string>>)
    requires IsListing(keys, prefix, pages) && |keys| < PageLimit
    ensures forall k :: k in keys && StartsWith(k, prefix) ==> k in pages[0]
  {
    var f := Flatten(pages);
    assert f == pages[0] + Flatten(pages[1..]);
    DistinctBound(f, keys);
    assert |pages[0]| < PageLimit;
    assert |pages| == 1;
    assert Flatten(pages[1..]) == [];
  }

  /** Found defect, as written: the partition prefix is listed without its
      trailing '/', so an object beside an old partition whose name begins
      with the partition's date is deleted with it. */
  lemma SiblingDeleted(d: Date, cutoff: string, o: Oracle, lister: Lister, a: Bytes, b: Bytes)
    requires ValidDate(d) && Less(Format(d), cutoff) && ValidLister(lister) && AllOk(o, 0, 2)
    ensures var inside, beside := Root + Format(d) + "/a", Root + Format(d) + ".json";
            var p := FolderSweep(Remote(map[inside := a, beside := b], 0), o, AsWritten, lister, cutoff, [Root + Format(d) + "/"], 0);
            beside !in p.remote.objects
  {
    var inside, beside := Root + Format(d) + "/a", Root + Format(d) + ".json";
    var keys := map[inside := a, beside := b].Keys;
    var c := Root + Format(d) + "/";
    FormatNoSlash(d);
    ParseFormat(d);
    FolderTokenSegment(c, Format(d));
    var prefix := Root + Format(d);
    assert |keys| <= 2;
    SmallListing(keys, prefix, lister(keys, prefix));
    assert beside == prefix + ".json";
    assert StartsWith(beside, prefix);
  }

  /** Repaired: objects directly under the root survive any pruning pass. */
  lemma SiblingKept(r: Remote, o: Oracle, lister: Lister, cutoff: string, commons: seq<string>, k: string)
    requires ValidLister(lister) && forall j :: 0 <= j < |commons| ==> CommonPrefix(commons[j], Root)
    requires k in r.objects && StartsWith(k, Root) && '/' !in k[|Root|..]
    ensures var p := FolderSweep(r, o, Repaired, lister, cutoff, commons, 0);
            k in p.remote.objects && p.remote.objects[k] == r.objects[k]
  {
    TopLevelNotInFolder(k, cutoff);
  }

  // ---------------------------------------------------------------------------
  // The drain and the scan with the repairs: what they leave in the store.
  // ---------------------------------------------------------------------------

  /** The drain writes only the keys of the files it visits. */
  lemma {:induction false} RetryKeeps(n: Node, o: Oracle, fx: Fixes, key: KeyOf, removes: Removes, order: seq<string>, i: nat, k: string)
    requires fx.mtimeFromBackup && i <= |order| && Distinct(order)
    requires forall j :: i <= j < |order| ==> order[j] in n.backup
    requires forall j :: i <= j < |order| ==> key(order[j], n.backup[order[j]]) != k
    ensures var s := RetryBackup(n, o, fx, key, removes, order, i);
            (k in s.node.remote.objects <==> k in n.remote.objects) &&
            (k in n.remote.objects ==> s.node.remote.objects[k] == n.remote.objects[k])
    decreases |order| - i
  {
    if i < |order| {
      var name := order[i];
      var r1 := Request(n.remote, o, fx, key(name, n.backup[name]), n.backup[name].content).0;
      var left := if removes(name) then n.backup - {name} else n.backup;
      var n1 := if o(n.remote.calls) == Ok then n.(remote := r1, backup := left) else n.(remote := r1);
      if o(n.remote.calls) != ConnErr {
        RetryKeeps(n1, o, fx, key, removes, order, i + 1, k);
      }
    }
  }

  /** The keys the files `names[i..]` of `d` are stored under are pairwise different. */
  predicate KeysApart(key: KeyOf, d: Dir, names: seq<string>, i: nat)
    requires forall j :: i <= j < |names| ==> names[j] in d
  {
    forall j, l :: i <= j < l < |names| ==> key(names[j], d[names[j]]) != key(names[l], d[names[l]])
  }

  /** Queue keys of distinct plain names are distinct. */
  lemma QueueKeysApart(d: Dir, names: seq<string>, i: nat)
    requires Distinct(names) && PlainNames(d.Keys)
    requires forall j :: i <= j < |names| ==> names[j] in d
    ensures KeysApart(QueueKeys(BaseFolder), d, names, i)
  {
    forall j, l | i <= j < l < |names|
      ensures QueueKey(BaseFolder, names[j], d[names[j]]) != QueueKey(BaseFolder, names[l], d[names[l]])
    {
      ObjectKeyInjective(BaseFolder, DateOf(d[names[j]].mtime), names[j], DateOf(d[names[l]].mtime), names[l]);
    }
  }

  /** The drain with keys kept apart: a file that leaves the backup
      directory has its content in the store under its key. */
  lemma {:induction false} RetryPuts(n: Node, o: Oracle, fx: Fixes, key: KeyOf, removes: Removes, order: seq<string>, i: nat)
    requires fx.mtimeFromBackup && i <= |order| && Distinct(order)
    requires forall j :: i <= j < |order| ==> order[j] in n.backup
    requires KeysApart(key, n.backup, order, i)
    ensures var s := RetryBackup(n, o, fx, key, removes, order, i);
            forall x :: x in n.backup && x !in s.node.backup ==>
              key(x, n.backup[x]) in s.node.remote.objects && s.node.remote.objects[key(x, n.backup[x])] == n.backup[x].content
    decreases |order| - i
  {
    if i < |order| {
      var name := order[i];
      var f := n.backup[name];
      var r1 := Request(n.remote, o, fx, key(name, f), f.content).0;
      match o(n.remote.calls)
      case Ok =>
        var n1 := n.(remote := r1, backup := if removes(name) then n.backup - {name} else n.backup);
        assert KeysApart(key, n1.backup, order, i + 1);
        RetryPuts(n1, o, fx, key, removes, order, i + 1);
        RetryKeeps(n1, o, fx, key, removes, order, i + 1, key(name, f));
      case ConnErr =>
      case OtherErr =>
        RetryPuts(n.(remote := r1), o, fx, key, removes, order, i + 1);
    }
  }

  /** Repaired drain: a backup file leaves the directory only once its content
      is in the store under its own key. */
  lemma RetryArchives(n: Node, o: Oracle, fx: Fixes, removes: Removes, order: seq<string>, i: nat)
    requires fx.mtimeFromBackup && i <= |order| && Distinct(order) && PlainNames(n.backup.Keys)
    requires forall j :: i <= j < |order| ==> order[j] in n.backup
    ensures var s := RetryBackup(n, o, fx, QueueKeys(BaseFolder), removes, order, i);
            forall x :: x in n.backup && x !in s.node.backup ==> Stored(s.node.remote.objects, x, n.backup[x])
  {
    QueueKeysApart(n.backup, order, i);
    RetryPuts(n, o, fx, QueueKeys(BaseFolder), removes, order, i);
  }

  /** The scan writes only the keys of the files it visits. */
  lemma {:induction false} ScanKeeps(n: Node, o: Oracle, fx: Fixes, key: KeyOf, moves: string -> bool, names: seq<string>, i: nat, k: string)
    requires i <= |names| && Distinct(names)
    requires forall j :: i <= j < |names| ==> names[j] in n.wal
    requires forall j :: i <= j < |names| ==> key(names[j], n.wal[names[j]]) != k
    ensures var m := ScanUpload(n, o, fx, key, moves, names, i);
            (k in m.remote.objects <==> k in n.remote.objects) &&
            (k in n.remote.objects ==> m.remote.objects[k] == n.remote.objects[k])
    decreases |names| - i
  {
    if i < |names| {
      var name := names[i];
      var f := n.wal[name];
      var next := ScanOne(n, o, fx, key, moves, name);
      ScanKeeps(next, o, fx, key, moves, names, i + 1, k);
    }
  }

  // ---------------------------------------------------------------------------
  // One iteration of the main loop.
  // ---------------------------------------------------------------------------

  /** What the iteration reads from outside: the store's answers, the clock,
      whether each rename and each removal succeeds, the directory listings in
      `os.listdir` order, and the two kinds of store listing. */
  datatype Env = Env(o: Oracle, now: Instant, moves: string -> bool, removes: Removes, backupOrder: seq<string>,
                     walListing: seq<string>, commons: Delimited, lister: Lister)

  /** The directory listings enumerate the two directories. */
  ghost predicate ValidDirs(n: Node, e: Env) {
    && Enumerates(e.backupOrder, n.backup.Keys) && PlainNames(n.backup.Keys)
    && Enumerates(e.walListing, n.wal.Keys) && PlainNames(n.wal.Keys)
  }

  ghost predicate ValidEnv(n: Node, e: Env) {
    ValidDirs(n, e) && ValidDelimited(e.commons) && ValidLister(e.lister)
  }

  /** The uploading half of an iteration: drain the backup directory, then
      upload the eligible segments. */
  function Transfer(n: Node, e: Env, fx: Fixes): (s: Step)
    requires ValidDirs(n, e)
    ensures s.Died? ==> !fx.mtimeFromBackup
    ensures !fx.clientBound ==> s.node.remote == n.remote
    ensures s.node.wal.Keys <= n.wal.Keys && forall x :: x in s.node.wal ==> s.node.wal[x] == n.wal[x]
  {
    var key := QueueKeys(BaseFolder);
    match RetryBackup(n, e.o, fx, key, e.removes, e.backupOrder, 0)
    case Died(m) => Died(m)
    case Running(n1) => Running(ScanUpload(n1, e.o, fx, key, e.moves, WalFiles(e.walListing), 0))
  }

  /** The housekeeping half: prune old partitions, then delete old backup
      files unless the last upload failed. */
  function Housekeep(n: Node, e: Env, fx: Fixes): (s: Step)
    requires ValidDelimited(e.commons) && ValidLister(e.lister)
    ensures s.Died? <==> !n.ozoneDown && MinusDays(e.now, RetentionDays).None?
    ensures s.node.wal == n.wal && s.node.ozoneDown == n.ozoneDown
    ensures !fx.clientBound ==> s.node.remote == n.remote
    ensures n.ozoneDown ==> s.node.backup == n.backup
    ensures s.node.backup.Keys <= n.backup.Keys && forall x :: x in s.node.backup ==> s.node.backup[x] == n.backup[x]
    ensures fx.cleanupArchivedOnly ==>
              forall x :: x in n.backup && x !in s.node.backup ==> Stored(s.node.remote.objects, x, n.backup[x])
  {
    var p := DeleteOldFolders(n.remote, e.o, fx, e.now, e.commons, e.lister);
    var n3 := n.(remote := p.remote);
    if n3.ozoneDown then Running(n3) else CleanLocal(n3, fx, e.now, e.removes)
  }

  /** One pass of the main loop. */
  function Iterate(n: Node, e: Env, fx: Fixes): (s: Step)
    requires ValidEnv(n, e)
    ensures s.Died? ==> !fx.mtimeFromBackup || MinusDays(e.now, RetentionDays).None?
    ensures !fx.clientBound ==> s.node.remote == n.remote
    ensures s.node.wal.Keys <= n.wal.Keys && forall x :: x in s.node.wal ==> s.node.wal[x] == n.wal[x]
  {
    match Transfer(n, e, fx)
    case Died(m) => Died(m)
    case Running(n2) => Housekeep(n2, e, fx)
  }

  /** A segment file is still in one of the two directories unchanged, or in
      the store under its key. */
  ghost predicate Kept(m: Node, x: string, f: LocalFile) {
    || (x in m.wal && m.wal[x] == f)
    || (x in m.backup && m.backup[x] == f)
    || Stored(m.remote.objects, x, f)
  }

  /** The segment's date is before the retention cutoff's date. */
  predicate Expired(f: LocalFile, now: Instant) {
    MinusDays(now, RetentionDays).Some? && DateBefore(DateOf(f.mtime), DateOf(MinusDays(now, RetentionDays).value))
  }

  lemma SegmentPrefix(a: string, b: string, rest: string)
    requires '/' !in a && '/' !in b && StartsWith(a + "/" + rest, b + "/")
    ensures a == b
  {
    var s := a + "/" + rest;
    assert s[|b|] == '/';
    assert s[|a|] == '/';
    assert forall i :: 0 <= i < |a| ==> s[i] == a[i];
    assert forall i :: 0 <= i < |b| ==> s[i] == b[i];
    assert |a| == |b|;
  }

  /** A key of the form root, segment, '/', rest lies inside partition `t`
      only if `t` is that segment. */
  lemma PartitionOfKey(seg: string, t: string, rest: string)
    requires '/' !in seg && '/' !in t && StartsWith(Root + seg + "/" + rest, Root + t + "/")
    ensures seg == t
  {
    var k := Root + seg + "/" + rest;
    assert k[|Root|..] == seg + "/" + rest;
    assert (Root + t + "/")[|Root|..] == t + "/";
    SegmentPrefix(seg, t, rest);
  }

  /** The repaired pruning deletes a segment's object only if the segment's
      date is before the cutoff date. */
  lemma PrunedKeyExpired(x: string, f: LocalFile, cutoff: Instant)
    requires '/' !in x && InOldFolder(QueueKey(BaseFolder, x, f), true, Format(DateOf(cutoff)))
    ensures DateBefore(DateOf(f.mtime), DateOf(cutoff))
  {
    var date := DateOf(f.mtime);
    var seg := Format(date);
    var t :| '/' !in t && OldToken(t, Format(DateOf(cutoff))) && StartsWith(QueueKey(BaseFolder, x, f), Root + t + "/");
    assert QueueKey(BaseFolder, x, f) == Root + seg + "/" + x;
    FormatNoSlash(date);
    PartitionOfKey(seg, t, x);
    ParseFormat(date);
    OldTokenMeaning(t, cutoff);
  }

  /** Pruning keeps a stored segment unless its date is past retention. */
  lemma PruneKeeps(objects: map<string, Bytes>, p: Pass, now: Instant, x: string, f: LocalFile)
    requires '/' !in x && Stored(objects, x, f)
    requires p.remote.objects == objects - LoggedKeys(p.log)
    requires LoggedKeys(p.log) != {} ==>
               && MinusDays(now, RetentionDays).Some?
               && forall k :: k in LoggedKeys(p.log) ==> InOldFolder(k, true, Format(DateOf(MinusDays(now, RetentionDays).value)))
    ensures Stored(p.remote.objects, x, f) || Expired(f, now)
  {
    if QueueKey(BaseFolder, x, f) in LoggedKeys(p.log) {
      PrunedKeyExpired(x, f, MinusDays(now, RetentionDays).value);
    }
  }

  lemma KeyAvoids(wal: Dir, names: seq<string>, x: string, f: LocalFile)
    requires PlainNames(wal.Keys) && '/' !in x && x !in wal
    requires forall j :: 0 <= j < |names| ==> names[j] in wal
    ensures forall j :: 0 <= j < |names| ==> QueueKeys(BaseFolder)(names[j], wal[names[j]]) != QueueKey(BaseFolder, x, f)
  {
    QueueKeysAvoid(BaseFolder, wal, names, DateOf(f.mtime), x);
  }

  /** Repaired, a backup file is still queued after the uploading half, or
      its content is in the store. */
  lemma TransferKeepsBackup(n: Node, e: Env, x: string)
    requires ValidDirs(n, e) && n.wal.Keys !! n.backup.Keys && x in n.backup
    ensures Transfer(n, e, Repaired).Running?
    ensures Kept(Transfer(n, e, Repaired).node, x, n.backup[x])
  {
    var key := QueueKeys(BaseFolder);
    var n1 := RetryBackup(n, e.o, Repaired, key, e.removes, e.backupOrder, 0).node;
    var names := WalFiles(e.walListing);
    var f := n.backup[x];
    assert n1.wal == n.wal;
    assert x !in names;
    ScanMoves(n1, e.o, Repaired, key, e.moves, names, 0);
    if x !in n1.backup {
      RetryArchives(n, e.o, Repaired, e.removes, e.backupOrder, 0);
      assert '/' !in x && x !in n1.wal;
      KeyAvoids(n1.wal, names, x, f);
      ScanKeeps(n1, e.o, Repaired, key, e.moves, names, 0, QueueKey(BaseFolder, x, f));
    }
  }

  /** Repaired, a WAL file is still in a directory after the uploading half. */
  lemma TransferKeepsWal(n: Node, e: Env, x: string)
    requires ValidDirs(n, e) && x in n.wal
    ensures Transfer(n, e, Repaired).Running?
    ensures Kept(Transfer(n, e, Repaired).node, x, n.wal[x])
  {
    var n1 := RetryBackup(n, e.o, Repaired, QueueKeys(BaseFolder), e.removes, e.backupOrder, 0).node;
    assert n1.wal == n.wal;
    ScanMoves(n1, e.o, Repaired, QueueKeys(BaseFolder), e.moves, WalFiles(e.walListing), 0);
  }

  /** Repaired, the uploading half loses nothing: every file of either
      directory is afterwards still in a directory or in the store. (A name
      in both directories is excluded: the rename would replace the queued
      file.) */
  lemma TransferNoLoss(n: Node, e: Env)
    requires ValidDirs(n, e) && n.wal.Keys !! n.backup.Keys
    ensures var s := Transfer(n, e, Repaired);
            && s.Running?
            && (forall x :: x in n.backup ==> Kept(s.node, x, n.backup[x]))
            && (forall x :: x in n.wal ==> Kept(s.node, x, n.wal[x]))
  {
    var n1 := RetryBackup(n, e.o, Repaired, QueueKeys(BaseFolder), e.removes, e.backupOrder, 0).node;
    assert n1.wal == n.wal;
    forall x | x in n.backup
      ensures Kept(Transfer(n, e, Repaired).node, x, n.backup[x])
    {
      TransferKeepsBackup(n, e, x);
    }
    forall x | x in n.wal
      ensures Kept(Transfer(n, e, Repaired).node, x, n.wal[x])
    {
      TransferKeepsWal(n, e, x);
    }
  }

  /** Housekeeping keeps a file kept before, unless its date is past retention. */
  lemma HousekeepKeeps(n2: Node, e: Env, x: string, f: LocalFile)
    requires ValidDelimited(e.commons) && ValidLister(e.lister)
    requires '/' !in x && Kept(n2, x, f)
    ensures Kept(Housekeep(n2, e, Repaired).node, x, f) || Expired(f, e.now)
  {
    var p := DeleteOldFolders(n2.remote, e.o, Repaired, e.now, e.commons, e.lister);
    assert Housekeep(n2, e, Repaired).node.remote == p.remote;
    if Stored(n2.remote.objects, x, f) {
      PruneKeeps(n2.remote.objects, p, e.now, x, f);
    }
  }

  /** Repaired, a whole iteration loses nothing except on purpose: a file
      that left both directories is in the store, or its upload reached the
      store and was pruned with its partition because its date is past
      retention. */
  lemma IterateNoLoss(n: Node, e: Env)
    requires ValidEnv(n, e) && n.wal.Keys !! n.backup.Keys
    ensures var s := Iterate(n, e, Repaired);
            && (forall x :: x in n.backup ==> Kept(s.node, x, n.backup[x]) || Expired(n.backup[x], e.now))
            && (forall x :: x in n.wal ==> Kept(s.node, x, n.wal[x]) || Expired(n.wal[x], e.now))
  {
    TransferNoLoss(n, e);
    var n2 := Transfer(n, e, Repaired).node;
    assert Iterate(n, e, Repaired) == Housekeep(n2, e, Repaired);
    forall x | x in n.backup
      ensures Kept(Housekeep(n2, e, Repaired).node, x, n.backup[x]) || Expired(n.backup[x], e.now)
    {
      HousekeepKeeps(n2, e, x, n.backup[x]);
    }
    forall x | x in n.wal
      ensures Kept(Housekeep(n2, e, Repaired).node, x, n.wal[x]) || Expired(n.wal[x], e.now)
    {
      HousekeepKeeps(n2, e, x, n.wal[x]);
    }
  }

  // ---------------------------------------------------------------------------
  // The defects, each as written and repaired.
  // ---------------------------------------------------------------------------

  /** As written, with the client unbound, the uploading half moves every
      eligible segment into the backup directory and leaves `ozone_down` set. */
  lemma UnboundTransfer(n: Node, e: Env, x: string)
    requires ValidDirs(n, e) && n.backup == map[] && forall y :: e.moves(y)
    requires x in n.wal && Eligible(x)
    ensures var s := Transfer(n, e, AsWritten);
            && s.Running? && s.node.ozoneDown
            && x !in s.node.wal && x in s.node.backup && s.node.backup[x] == n.wal[x]
  {
    var n1 := RetryBackup(n, e.o, AsWritten, QueueKeys(BaseFolder), e.removes, e.backupOrder, 0).node;
    assert n1 == n;
    var names := WalFiles(e.walListing);
    var j :| 0 <= j < |names| && names[j] == x;
    ScanFate(n1, e.o, AsWritten, QueueKeys(BaseFolder), e.moves, names, 0);
    ScanMoves(n1, e.o, AsWritten, QueueKeys(BaseFolder), e.moves, names, 0);
    ScanFlag(n1, e.o, AsWritten, QueueKeys(BaseFolder), e.moves, names, 0);
  }

  /** Found defect, as written: the store client is never bound, so no
      segment ever reaches the store; every eligible segment is moved to the
      backup directory instead, whatever the store would have answered. */
  lemma UnboundClientArchivesNothing(n: Node, e: Env)
    requires ValidEnv(n, e) && n.backup == map[] && forall x :: e.moves(x)
    ensures var s := Iterate(n, e, AsWritten);
            && s.node.remote == n.remote
            && forall x :: x in n.wal && Eligible(x) ==> x !in s.node.wal && x in s.node.backup && s.node.backup[x] == n.wal[x]
  {
    var n2 := Transfer(n, e, AsWritten).node;
    forall x | x in n.wal && Eligible(x)
      ensures Transfer(n, e, AsWritten).Running? && n2.ozoneDown
      ensures x !in n2.wal && x in n2.backup && n2.backup[x] == n.wal[x]
    {
      UnboundTransfer(n, e, x);
    }
  }

  /** With every request answered, the scan leaves both directories alone. */
  lemma {:induction false} ScanOkFrame(n: Node, o: Oracle, fx: Fixes, key: KeyOf, moves: string -> bool, names: seq<string>, i: nat)
    requires fx.clientBound && i <= |names| && Distinct(names)
    requires forall j :: i <= j < |names| ==> names[j] in n.wal
    requires AllOk(o, n.remote.calls, n.remote.calls + |names| - i)
    ensures var m := ScanUpload(n, o, fx, key, moves, names, i);
            m.wal == n.wal && m.backup == n.backup
    decreases |names| - i
  {
    if i < |names| {
      var name := names[i];
      var f := n.wal[name];
      assert o(n.remote.calls) == Ok;
      var next := ScanOne(n, o, fx, key, moves, name);
      ScanOkFrame(next, o, fx, key, moves, names, i + 1);
    }
  }

  /** With every request answered and keys kept apart, every file the scan
      visits ends up in the store under its key. */
  lemma {:induction false} ScanPuts(n: Node, o: Oracle, fx: Fixes, key: KeyOf, moves: string -> bool, names: seq<string>, i: nat)
    requires fx.clientBound && i <= |names| && Distinct(names)
    requires forall j :: i <= j < |names| ==> names[j] in n.wal
    requires AllOk(o, n.remote.calls, n.remote.calls + |names| - i) && KeysApart(key, n.wal, names, i)
    ensures var m := ScanUpload(n, o, fx, key, moves, names, i);
            forall j :: i <= j < |names| ==>
              key(names[j], n.wal[names[j]]) in m.remote.objects &&
              m.remote.objects[key(names[j], n.wal[names[j]])] == n.wal[names[j]].content
    decreases |names| - i
  {
    if i < |names| {
      var name := names[i];
      var f := n.wal[name];
      assert o(n.remote.calls) == Ok;
      var next := ScanOne(n, o, fx, key, moves, name);
      ScanPuts(next, o, fx, key, moves, names, i + 1);
      ScanKeeps(next, o, fx, key, moves, names, i + 1, key(name, f));
    }
  }

  /** With the client bound and every request answered, the scan stores every
      segment it visits and keeps it in the WAL directory. */
  lemma ScanStores(n: Node, o: Oracle, fx: Fixes, moves: string -> bool, names: seq<string>, i: nat)
    requires fx.clientBound && i <= |names| && Distinct(names) && PlainNames(n.wal.Keys)
    requires forall j :: i <= j < |names| ==> names[j] in n.wal
    requires AllOk(o, n.remote.calls, n.remote.calls + |names| - i)
    ensures var m := ScanUpload(n, o, fx, QueueKeys(BaseFolder), moves, names, i);
            && m.wal == n.wal && m.backup == n.backup
            && forall j :: i <= j < |names| ==> Stored(m.remote.objects, names[j], n.wal[names[j]])
  {
    ScanOkFrame(n, o, fx, QueueKeys(BaseFolder), moves, names, i);
    QueueKeysApart(n.wal, names, i);
    ScanPuts(n, o, fx, QueueKeys(BaseFolder), moves, names, i);
  }

  /** Repaired: with every request answered, every eligible segment is stored
      and stays in the WAL directory. */
  lemma BoundClientStores(n: Node, e: Env)
    requires ValidDirs(n, e) && forall c :: e.o(c) == Ok
    ensures var s := Transfer(n, e, Repaired);
            && s.Running?
            && forall x :: x in n.wal && Eligible(x) ==> x in s.node.wal && Stored(s.node.remote.objects, x, n.wal[x])
  {
    var n1 := RetryBackup(n, e.o, Repaired, QueueKeys(BaseFolder), e.removes, e.backupOrder, 0).node;
    var names := WalFiles(e.walListing);
    assert n1.wal == n.wal;
    ScanStores(n1, e.o, Repaired, e.moves, names, 0);
    forall x | x in n.wal && Eligible(x)
      ensures x in names
    {
    }
  }

  /** Found defect, as written: the drain reads a backup file's modification
      time from the WAL directory, outside the `try`; a backup file whose
      name is no longer there raises and ends the daemon. */
  lemma BackupOnlyFileKills(n: Node, e: Env, fx: Fixes)
    requires ValidEnv(n, e) && !fx.mtimeFromBackup && |e.backupOrder| > 0 && e.backupOrder[0] !in n.wal
    ensures Iterate(n, e, fx).Died?
  {
  }

  /** With the store unreachable, a single backup file and an empty WAL
      directory reach the cleanup untouched, with the store unchanged. */
  lemma StaleFlagStages(n: Node, e: Env, fx: Fixes, x: string, f: LocalFile)
    requires ValidEnv(n, e) && n.wal == map[] && n.backup == map[x := f] && !n.ozoneDown
    requires forall c :: e.o(c) == ConnErr
    requires fx.clientBound && fx.mtimeFromBackup
    ensures var n2 := Transfer(n, e, fx).node;
            && Transfer(n, e, fx).Running?
            && n2.backup == n.backup && n2.wal == n.wal && !n2.ozoneDown
            && n2.remote.objects == n.remote.objects
            && DeleteOldFolders(n2.remote, e.o, fx, e.now, e.commons, e.lister).remote.objects == n.remote.objects
  {
    var order, names := e.backupOrder, WalFiles(e.walListing);
    assert n.backup.Keys == {x};
    assert forall i :: 0 <= i < |order| ==> order[i] in order;
    DistinctBound(order, {x});
    assert order[0] == x;
    assert order == [x];
    assert forall i :: 0 <= i < |names| ==> names[i] in names;
    DistinctBound(names, {});
  }

  /** Found defect, as written: `ozone_down` is only set while uploading, so
      with no new segment it keeps its initial `False` while the store is
      unreachable, and the cleanup deletes an old backup file that never
      reached the store. */
  lemma StaleFlagLosesSegment(n: Node, e: Env, x: string, f: LocalFile)
    requires ValidEnv(n, e) && n.wal == map[] && n.backup == map[x := f] && !n.ozoneDown
    requires forall c :: e.o(c) == ConnErr
    requires !Stored(n.remote.objects, x, f)
    requires MinusDays(e.now, RetentionDays).Some? && InstantBefore(f.mtime, MinusDays(e.now, RetentionDays).value)
    requires e.removes(x)
    ensures var s := Iterate(n, e, Fixes(true, true, false, true));
            s.Running? && !Kept(s.node, x, f)
  {
    StaleFlagStages(n, e, Fixes(true, true, false, true), x, f);
  }

  /** Repaired, the same situation keeps the file. */
  lemma StaleFlagRepaired(n: Node, e: Env, x: string, f: LocalFile)
    requires ValidEnv(n, e) && n.wal == map[] && n.backup == map[x := f] && !n.ozoneDown
    requires forall c :: e.o(c) == ConnErr
    requires !Stored(n.remote.objects, x, f)
    ensures var s := Iterate(n, e, Repaired);
            s.Running? ==> x in s.node.backup && s.node.backup[x] == f
  {
    StaleFlagStages(n, e, Repaired, x, f);
  }
}
