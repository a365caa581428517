/**
  Date-partition retention pruning of the archive store.

  Keys look like `<prefix><YYYY-MM-DD>/<name>`. The pruner lists the keys under
  the prefix, collects the partition tokens that parse as dates, and deletes
  every object under `<prefix><token>/` for each partition whose midnight lies
  before the cutoff `now - days`. Any failed request aborts the rest of the
  pass; the error is logged and not re-raised.

  Two listing disciplines occur:
  - `Paginated` walks every listing page and deletes each page in batches of
    at most 1000 keys;
  - `FirstPage` reads only the first page of each listing and deletes that
    page in one request, and computes the cutoff after the first listing
    rather than before it.
*/
module Pruner {

  import opened Wrappers
  import opened Text
  import opened Calendar
  import opened ObjectStore
  import opened Chunking

  datatype Variant = Paginated | FirstPage

  /** The listing prefix (ending in '/'), the segment index of the token, and
      the least number of segments a key needs for its token to be read. */
  datatype Layout = Layout(prefix: string, index: nat, least: nat)

  /** `parts[index]` of a key split on '/', for keys with at least `least`
      parts (and more than `index`). */
  function Token(key: string, layout: Layout): Option<string> {
    var parts := SplitOn(key, "/");
    if |parts| >= layout.least && |parts| > layout.index then Some(parts[layout.index]) else None
  }

  /** The key has a segment after its token, so it can lie inside a partition. */
  predicate Nested(key: string, layout: Layout) {
    |SplitOn(key, "/")| >= layout.index + 2
  }

  /** Midnight at the start of a date, as `strptime` returns it. */
  function Midnight(d: Date): Instant
    requires ValidDate(d)
  {
    OrdinalRange(d);
    Instant(Ordinal(d), 0)
  }

  /** A token naming a partition strictly older than the cutoff. */
  predicate Stale(t: string, cutoff: Instant) {
    ParseDate(t).Some? && InstantBefore(Midnight(ParseDate(t).value), cutoff)
  }

  /** Some listed key has date token `t`. */
  ghost predicate Listed(keys: seq<string>, layout: Layout, t: string) {
    exists i :: 0 <= i < |keys| && Token(keys[i], layout) == Some(t) && ParseDate(t).Some?
  }

  /** A token is listed by a non-empty key list when the first key has it
      or the rest list it. */
  lemma ListedCons(keys: seq<string>, layout: Layout)
    requires |keys| > 0
    ensures forall t :: Listed(keys, layout, t) <==>
              (Token(keys[0], layout) == Some(t) && ParseDate(t).Some?) || Listed(keys[1..], layout, t)
  {
    forall t | Listed(keys, layout, t)
      ensures (Token(keys[0], layout) == Some(t) && ParseDate(t).Some?) || Listed(keys[1..], layout, t)
    {
      var i :| 0 <= i < |keys| && Token(keys[i], layout) == Some(t) && ParseDate(t).Some?;
      if i > 0 {
        assert keys[1..][i - 1] == keys[i];
      }
    }
    forall t | Listed(keys[1..], layout, t)
      ensures Listed(keys, layout, t)
    {
      var i :| 0 <= i < |keys[1..]| && Token(keys[1..][i], layout) == Some(t) && ParseDate(t).Some?;
      assert keys[i + 1] == keys[1..][i];
    }
  }

  /** The partition dictionary: date tokens in order of first appearance, once each. */
  function Collect(keys: seq<string>, layout: Layout, seen: seq<string>): (ts: seq<string>)
    ensures Distinct(seen) ==> Distinct(ts)
    ensures |seen| <= |ts| && ts[..|seen|] == seen
    ensures forall t :: t in ts <==> t in seen || Listed(keys, layout, t)
    ensures (forall j :: 0 <= j < |seen| ==> '/' !in seen[j]) ==> forall j :: 0 <= j < |ts| ==> '/' !in ts[j]
    decreases |keys|
  {
    if |keys| == 0 then seen
    else
      var tok := Token(keys[0], layout);
      var next := if tok.Some? && ParseDate(tok.value).Some? && tok.value !in seen then seen + [tok.value] else seen;
      SplitPartsFree(keys[0], '/');
      var ts := Collect(keys[1..], layout, next);
      ListedCons(keys, layout);
      assert ts[..|seen|] == ts[..|next|][..|seen|] && next[..|seen|] == seen;
      ts
  }

  // ---------------------------------------------------------------------------
  // Bookkeeping of one pass: the store afterwards, the delete batches that
  // succeeded, and whether the pass ran to the end.
  // ---------------------------------------------------------------------------

  datatype Pass = Pass(remote: Remote, log: seq<seq<string>>, ok: bool)

  predicate BatchesSized(log: seq<seq<string>>) {
    forall i :: 0 <= i < |log| ==> 1 <= |log[i]| <= PageLimit
  }

  lemma KeySetAppend(a: seq<string>, b: seq<string>)
    ensures KeySet(a + b) == KeySet(a) + KeySet(b)
  {
  }

  lemma LoggedAppend(a: seq<seq<string>>, b: seq<seq<string>>)
    ensures LoggedKeys(a + b) == LoggedKeys(a) + LoggedKeys(b)
  {
    FlattenAppend(a, b);
    KeySetAppend(Flatten(a), Flatten(b));
  }

  lemma LoggedCons(b: seq<string>, rest: seq<seq<string>>)
    ensures LoggedKeys([b] + rest) == KeySet(b) + LoggedKeys(rest)
  {
    assert ([b] + rest)[1..] == rest;
    KeySetAppend(b, Flatten(rest));
  }

  lemma LoggedOne(b: seq<string>)
    ensures LoggedKeys([b]) == KeySet(b)
  {
    assert Chunking.Flatten([b]) == b + Chunking.Flatten<string>([]);
    assert b + [] == b;
  }

  lemma MinusMinus(m: map<string, Bytes>, a: set<string>, b: set<string>)
    ensures (m - a) - b == m - (a + b)
  {
  }

  /** How one listing page is deleted. */
  function Batches(page: seq<string>, v: Variant): seq<seq<string>> {
    match v
    case Paginated => Chunks(page, PageLimit)
    case FirstPage => if |page| == 0 then [] else [page]
  }

  /** Either way the batches hold the page's keys exactly once, in order, and
      none exceeds the limit; for a page within the limit the single unbatched
      request is the same as the batched one. */
  lemma BatchesCover(page: seq<string>, v: Variant)
    requires |page| <= PageLimit
    ensures Flatten(Batches(page, v)) == page
    ensures BatchesSized(Batches(page, v))
    ensures Batches(page, FirstPage) == Batches(page, Paginated)
  {
    ChunksFlatten(page, PageLimit);
    if |page| > 0 {
      assert Flatten([page]) == page + Flatten([]);
    }
  }

  /** Sends the delete batches one by one until one fails. */
  function DeleteAll(r: Remote, o: Oracle, batches: seq<seq<string>>): (p: Pass)
    ensures p.remote.objects == r.objects - LoggedKeys(p.log)
    ensures |p.log| <= |batches| && p.log == batches[..|p.log|]
    ensures p.ok ==> p.log == batches
    ensures p.ok <==> AllOk(o, r.calls, p.remote.calls)
    ensures r.calls <= p.remote.calls
    decreases |batches|
  {
    if |batches| == 0 then Pass(r, [], true)
    else
      var (r1, out) := DeleteBatch(r, o, batches[0]);
      if out != Ok then Pass(r1, [], false)
      else
        var rest := DeleteAll(r1, o, batches[1..]);
        LoggedCons(batches[0], rest.log);
        MinusMinus(r.objects, KeySet(batches[0]), LoggedKeys(rest.log));
        Pass(rest.remote, [batches[0]] + rest.log, rest.ok)
  }

  /** Walks the listing pages of one partition from page `i` on: a list request
      per page, then that page's delete batches. */
  function PurgePages(r: Remote, o: Oracle, pages: seq<seq<string>>, v: Variant, i: nat): (p: Pass)
    requires i <= |pages| && forall j :: 0 <= j < |pages| ==> |pages[j]| <= PageLimit
    ensures p.remote.objects == r.objects - LoggedKeys(p.log)
    ensures LoggedKeys(p.log) <= KeySet(Flatten(pages[i..]))
    ensures BatchesSized(p.log)
    ensures p.ok <==> AllOk(o, r.calls, p.remote.calls)
    ensures p.ok ==> LoggedKeys(p.log) == KeySet(Flatten(pages[i..]))
    ensures r.calls <= p.remote.calls
    decreases |pages| - i
  {
    if i == |pages| then Pass(r, [], true)
    else
      var r1 := Remote(r.objects, r.calls + 1);
      if o(r.calls) != Ok then Pass(r1, [], false)
      else
        var batches := Batches(pages[i], v);
        BatchesCover(pages[i], v);
        var d := DeleteAll(r1, o, batches);
        PageStep(pages, i);
        FlattenPrefix(batches, |d.log|);
        if !d.ok then Pass(d.remote, d.log, false)
        else
          var rest := PurgePages(d.remote, o, pages, v, i + 1);
          LoggedAppend(d.log, rest.log);
          MinusMinus(r.objects, LoggedKeys(d.log), LoggedKeys(rest.log));
          Pass(rest.remote, d.log + rest.log, rest.ok)
  }

  lemma PageStep(pages: seq<seq<string>>, i: nat)
    requires i < |pages|
    ensures KeySet(Flatten(pages[i..])) == KeySet(pages[i]) + KeySet(Flatten(pages[i + 1..]))
  {
    assert pages[i..] == [pages[i]] + pages[i + 1..];
    FlattenAppend([pages[i]], pages[i + 1..]);
    assert Flatten([pages[i]]) == pages[i] + Flatten([]);
    KeySetAppend(pages[i], Flatten(pages[i + 1..]));
  }

  /** The keys of a prefix of the batches are among the keys of all of them. */
  lemma FlattenPrefix(batches: seq<seq<string>>, n: nat)
    requires n <= |batches|
    ensures KeySet(Flatten(batches[..n])) <= KeySet(Flatten(batches))
  {
    assert batches == batches[..n] + batches[n..];
    FlattenAppend(batches[..n], batches[n..]);
    KeySetAppend(Flatten(batches[..n]), Flatten(batches[n..]));
  }

  /** Deletes one partition `folderPrefix`: lists it (all pages, or the first
      page only) and deletes what the listing returned. */
  function PurgeFolder(r: Remote, o: Oracle, lister: Lister, v: Variant, folderPrefix: string): (p: Pass)
    requires ValidLister(lister)
    ensures p.remote.objects == r.objects - LoggedKeys(p.log)
    ensures forall k :: k in LoggedKeys(p.log) ==> k in r.objects && StartsWith(k, folderPrefix)
    ensures BatchesSized(p.log)
    ensures p.ok <==> AllOk(o, r.calls, p.remote.calls)
    ensures p.ok && v == Paginated ==> forall k :: k in p.remote.objects ==> !StartsWith(k, folderPrefix)
    ensures r.calls <= p.remote.calls
  {
    var pages := lister(r.objects.Keys, folderPrefix);
    assert IsListing(r.objects.Keys, folderPrefix, pages);
    var used := if v == FirstPage then pages[..1] else pages;
    var p := PurgePages(r, o, used, v, 0);
    assert used[0..] == used;
    FlattenPrefix(pages, 1);
    p
  }

  /** Deletes, from `parts[i]` on, every partition the predicate marks stale. */
  function PurgeAll(r: Remote, o: Oracle, lister: Lister, v: Variant, prefix: string,
                    cutoff: Instant, parts: seq<string>, i: nat): (p: Pass)
    requires ValidLister(lister) && i <= |parts|
    ensures p.remote.objects == r.objects - LoggedKeys(p.log)
    ensures forall k :: k in LoggedKeys(p.log) ==>
              k in r.objects && exists j :: i <= j < |parts| && Stale(parts[j], cutoff) && StartsWith(k, prefix + parts[j] + "/")
    ensures BatchesSized(p.log)
    ensures p.ok <==> AllOk(o, r.calls, p.remote.calls)
    ensures p.ok && v == Paginated ==>
              forall k, j :: k in p.remote.objects && i <= j < |parts| && Stale(parts[j], cutoff) ==>
                !StartsWith(k, prefix + parts[j] + "/")
    ensures r.calls <= p.remote.calls
    decreases |parts| - i
  {
    if i == |parts| then Pass(r, [], true)
    else if !Stale(parts[i], cutoff) then PurgeAll(r, o, lister, v, prefix, cutoff, parts, i + 1)
    else
      var f := PurgeFolder(r, o, lister, v, prefix + parts[i] + "/");
      if !f.ok then f
      else
        var rest := PurgeAll(f.remote, o, lister, v, prefix, cutoff, parts, i + 1);
        LoggedAppend(f.log, rest.log);
        MinusMinus(r.objects, LoggedKeys(f.log), LoggedKeys(rest.log));
        Pass(rest.remote, f.log + rest.log, rest.ok)
  }

  /** The collection pass of the paginator: one list request per page. */
  function ListPages(r: Remote, o: Oracle, n: nat): (res: (Remote, bool))
    ensures res.0.objects == r.objects
    ensures res.1 <==> AllOk(o, r.calls, res.0.calls)
    ensures r.calls <= res.0.calls <= r.calls + n
    ensures res.1 ==> res.0.calls == r.calls + n
    decreases n
  {
    if n == 0 then (r, true)
    else if o(r.calls) != Ok then (Remote(r.objects, r.calls + 1), false)
    else ListPages(Remote(r.objects, r.calls + 1), o, n - 1)
  }

  /** `k` lies in a partition, named by a '/'-free token, older than the cutoff. */
  ghost predicate Swept(k: string, prefix: string, cutoff: Instant) {
    exists t :: '/' !in t && Stale(t, cutoff) && StartsWith(k, prefix + t + "/")
  }

  /** The paginated pass once the cutoff is known: list every page, collect
      the partitions, purge the stale ones. */
  function PrunePaginated(r: Remote, o: Oracle, lister: Lister, layout: Layout, cutoff: Instant): (p: Pass)
    requires ValidLister(lister)
    ensures p.remote.objects == r.objects - LoggedKeys(p.log)
    ensures BatchesSized(p.log)
    ensures p.ok <==> AllOk(o, r.calls, p.remote.calls)
    ensures forall k :: k in LoggedKeys(p.log) ==> k in r.objects && Swept(k, layout.prefix, cutoff)
    ensures p.ok ==>
              forall k, t ::
                (k in r.objects && StartsWith(k, layout.prefix) && Token(k, layout) == Some(t) &&
                 Stale(t, cutoff) && StartsWith(k, layout.prefix + t + "/"))
                ==> k !in p.remote.objects
  {
    var pages := lister(r.objects.Keys, layout.prefix);
    assert IsListing(r.objects.Keys, layout.prefix, pages);
    var (r1, listed) := ListPages(r, o, |pages|);
    if !listed then Pass(r1, [], false)
    else
      var parts := Collect(Flatten(pages), layout, []);
      var p := PurgeAll(r1, o, lister, Paginated, layout.prefix, cutoff, parts, 0);
      SweptFrom(p.log, layout.prefix, cutoff, parts);
      ListedKeys(r.objects.Keys, pages, layout, cutoff, parts);
      if p.ok then
        Completes(r.objects, p.remote.objects, layout, cutoff, parts);
        p
      else p
  }

  /** The first-page pass once the first listing succeeded and the cutoff is
      known: collect the partitions of the first page, purge the stale ones. */
  function PruneFirstPage(r: Remote, o: Oracle, lister: Lister, layout: Layout, cutoff: Instant, page: seq<string>): (p: Pass)
    requires ValidLister(lister)
    ensures p.remote.objects == r.objects - LoggedKeys(p.log)
    ensures BatchesSized(p.log)
    ensures p.ok <==> AllOk(o, r.calls, p.remote.calls)
    ensures forall k :: k in LoggedKeys(p.log) ==> k in r.objects && Swept(k, layout.prefix, cutoff)
  {
    var parts := Collect(page, layout, []);
    var p := PurgeAll(r, o, lister, FirstPage, layout.prefix, cutoff, parts, 0);
    SweptFrom(p.log, layout.prefix, cutoff, parts);
    p
  }

  /** One pruning pass with retention `days`, the wall clock read as `now`. */
  function Prune(r: Remote, o: Oracle, lister: Lister, v: Variant, layout: Layout, now: Instant, days: nat): (p: Pass)
    requires ValidLister(lister)
    ensures p.remote.objects == r.objects - LoggedKeys(p.log)
    ensures BatchesSized(p.log)
    ensures p.ok <==> MinusDays(now, days).Some? && AllOk(o, r.calls, p.remote.calls)
    ensures forall k :: k in LoggedKeys(p.log) ==>
              k in r.objects && MinusDays(now, days).Some? && Swept(k, layout.prefix, MinusDays(now, days).value)
    ensures p.ok && v == Paginated ==>
              forall k, t ::
                (k in r.objects && StartsWith(k, layout.prefix) && Token(k, layout) == Some(t) &&
                 Stale(t, MinusDays(now, days).value) && StartsWith(k, layout.prefix + t + "/"))
                ==> k !in p.remote.objects
  {
    match v
    case Paginated =>
      (match MinusDays(now, days)
       case None => Pass(r, [], false)
       case Some(cutoff) => PrunePaginated(r, o, lister, layout, cutoff))
    case FirstPage =>
      var r1 := Remote(r.objects, r.calls + 1);
      if o(r.calls) != Ok then Pass(r1, [], false)
      else
        match MinusDays(now, days)
        case None => Pass(r1, [], false)
        case Some(cutoff) =>
          var p := PruneFirstPage(r1, o, lister, layout, cutoff, lister(r.objects.Keys, layout.prefix)[0]);
          AllOkCons(o, r.calls, p.remote.calls);
          p
  }

  lemma SweptFrom(log: seq<seq<string>>, prefix: string, cutoff: Instant, parts: seq<string>)
    requires forall j :: 0 <= j < |parts| ==> '/' !in parts[j]
    requires forall k :: k in LoggedKeys(log) ==>
               exists j :: 0 <= j < |parts| && Stale(parts[j], cutoff) && StartsWith(k, prefix + parts[j] + "/")
    ensures forall k :: k in LoggedKeys(log) ==> Swept(k, prefix, cutoff)
  {
    forall k | k in LoggedKeys(log) ensures Swept(k, prefix, cutoff) {
      var j :| 0 <= j < |parts| && Stale(parts[j], cutoff) && StartsWith(k, prefix + parts[j] + "/");
      assert '/' !in parts[j];
    }
  }

  lemma Completes(before: map<string, Bytes>, after: map<string, Bytes>, layout: Layout, cutoff: Instant, parts: seq<string>)
    requires forall k, t :: k in before && StartsWith(k, layout.prefix) && Token(k, layout) == Some(t) && Stale(t, cutoff) ==>
               t in parts
    requires forall k, j :: k in after && 0 <= j < |parts| && Stale(parts[j], cutoff) ==>
               !StartsWith(k, layout.prefix + parts[j] + "/")
    ensures forall k, t ::
              (k in before && StartsWith(k, layout.prefix) && Token(k, layout) == Some(t) &&
               Stale(t, cutoff) && StartsWith(k, layout.prefix + t + "/"))
              ==> k !in after
  {
    forall k, t | k in before && StartsWith(k, layout.prefix) && Token(k, layout) == Some(t) &&
                  Stale(t, cutoff) && StartsWith(k, layout.prefix + t + "/")
      ensures k !in after
    {
      var j :| 0 <= j < |parts| && parts[j] == t;
    }
  }

  /** Every stale token of a key under the prefix is among the collected partitions. */
  lemma ListedKeys(keys: set<string>, pages: seq<seq<string>>, layout: Layout, cutoff: Instant, parts: seq<string>)
    requires IsListing(keys, layout.prefix, pages)
    requires parts == Collect(Flatten(pages), layout, [])
    ensures forall k, t :: k in keys && StartsWith(k, layout.prefix) && Token(k, layout) == Some(t) && Stale(t, cutoff) ==>
              t in parts
  {
    forall k, t | k in keys && StartsWith(k, layout.prefix) && Token(k, layout) == Some(t) && Stale(t, cutoff)
      ensures t in parts
    {
      var flat := Flatten(pages);
      assert k in flat;
      var i :| 0 <= i < |flat| && flat[i] == k;
      assert Listed(flat, layout, t);
    }
  }

  // ---------------------------------------------------------------------------
  // Layouts whose prefix is a '/'-joined list of plain segments.
  // ---------------------------------------------------------------------------

  /** The prefix is `s0/.../sn/`, the token is the segment right after it,
      and a key with a segment after the token is long enough to be read. */
  predicate SegmentLayout(layout: Layout, segs: seq<string>) {
    && |segs| >= 1
    && (forall i :: 0 <= i < |segs| ==> '/' !in segs[i])
    && layout.prefix == Join(segs, "/") + "/"
    && layout.index == |segs|
    && layout.least <= |segs| + 2
  }

  /** A key inside partition `t` has `t` as its own token. */
  lemma TokenOfPartition(layout: Layout, segs: seq<string>, k: string, t: string)
    requires SegmentLayout(layout, segs) && '/' !in t
    requires StartsWith(k, layout.prefix + t + "/")
    ensures StartsWith(k, layout.prefix) && Token(k, layout) == Some(t) && Nested(k, layout)
  {
    var P := layout.prefix;
    var rest := k[|P| + |t| + 1..];
    assert k == Join(segs, "/") + "/" + (t + "/" + rest);
    SegmentsSplit(segs, t + "/" + rest);
    SplitCons(t, '/', rest);
    assert SplitOn(k, "/") == segs + [t] + SplitOn(rest, "/");
    assert SplitOn(k, "/")[|segs|] == t;
  }

  /** A key under the prefix whose token is `t`, with a segment after the
      token, lies inside partition `t`. */
  lemma PartitionOfToken(layout: Layout, segs: seq<string>, k: string, t: string)
    requires SegmentLayout(layout, segs)
    requires StartsWith(k, layout.prefix) && Token(k, layout) == Some(t) && Nested(k, layout)
    ensures StartsWith(k, layout.prefix + t + "/")
  {
    var P := layout.prefix;
    var rest := k[|P|..];
    assert k == Join(segs, "/") + "/" + rest;
    SegmentsSplit(segs, rest);
    assert SplitOn(rest, "/")[0] == t;
    SplitHead(rest, '/');
    StartsWithConcat(P, rest, t + "/");
    assert P + (t + "/") == P + t + "/";
  }

  /** Under such a layout, lying in partition `t` is the same as lying under
      the prefix with `t` as the key's own token and a segment after it. A
      key that ends at its token has the token without lying in the partition. */
  lemma UnderToken(layout: Layout, segs: seq<string>, k: string, t: string)
    requires SegmentLayout(layout, segs) && '/' !in t
    ensures StartsWith(k, layout.prefix + t + "/") <==>
              StartsWith(k, layout.prefix) && Token(k, layout) == Some(t) && Nested(k, layout)
  {
    if StartsWith(k, layout.prefix + t + "/") {
      TokenOfPartition(layout, segs, k, t);
    }
    if StartsWith(k, layout.prefix) && Token(k, layout) == Some(t) && Nested(k, layout) {
      PartitionOfToken(layout, segs, k, t);
    }
  }

  /** Whatever the store answers, the pass deletes a key only if it lies under
      the prefix, has a segment after its token, and its own date token parses
      to a date whose midnight is before the cutoff; tokens that do not parse
      are never deleted, and every object that stays keeps its content. */
  lemma PruneSafe(r: Remote, o: Oracle, lister: Lister, v: Variant, layout: Layout, segs: seq<string>, now: Instant, days: nat)
    requires ValidLister(lister) && SegmentLayout(layout, segs)
    ensures var p := Prune(r, o, lister, v, layout, now, days);
            forall k :: k in r.objects && k !in p.remote.objects ==>
              && MinusDays(now, days).Some?
              && StartsWith(k, layout.prefix)
              && Token(k, layout).Some?
              && Nested(k, layout)
              && Stale(Token(k, layout).value, MinusDays(now, days).value)
    ensures var p := Prune(r, o, lister, v, layout, now, days);
            forall k :: k in p.remote.objects ==> k in r.objects && p.remote.objects[k] == r.objects[k]
  {
    var p := Prune(r, o, lister, v, layout, now, days);
    forall k | k in r.objects && k !in p.remote.objects
      ensures MinusDays(now, days).Some? && StartsWith(k, layout.prefix) && Token(k, layout).Some?
      ensures Nested(k, layout)
      ensures Stale(Token(k, layout).value, MinusDays(now, days).value)
    {
      assert k in LoggedKeys(p.log);
      var cutoff := MinusDays(now, days).value;
      var t :| '/' !in t && Stale(t, cutoff) && StartsWith(k, layout.prefix + t + "/");
      UnderToken(layout, segs, k, t);
    }
  }

  /** When every request succeeds, a paginated pass deletes exactly the keys
      under the prefix, with a segment after their token, whose date token is
      older than the cutoff. */
  lemma PruneExact(r: Remote, o: Oracle, lister: Lister, layout: Layout, segs: seq<string>, now: Instant, days: nat)
    requires ValidLister(lister) && SegmentLayout(layout, segs)
    requires MinusDays(now, days).Some?
    requires AllOk(o, r.calls, Prune(r, o, lister, Paginated, layout, now, days).remote.calls)
    ensures var p := Prune(r, o, lister, Paginated, layout, now, days);
            forall k :: k in r.objects ==>
              (k !in p.remote.objects <==>
                 StartsWith(k, layout.prefix) && Token(k, layout).Some? && Nested(k, layout) &&
                 Stale(Token(k, layout).value, MinusDays(now, days).value))
  {
    var cutoff := MinusDays(now, days).value;
    assert Prune(r, o, lister, Paginated, layout, now, days) == PrunePaginated(r, o, lister, layout, cutoff);
    PruneSafe(r, o, lister, Paginated, layout, segs, now, days);
    PaginatedExact(r, o, lister, layout, segs, cutoff);
  }

  /** The completeness half, on a paginated pass with a known cutoff. */
  lemma PaginatedExact(r: Remote, o: Oracle, lister: Lister, layout: Layout, segs: seq<string>, cutoff: Instant)
    requires ValidLister(lister) && SegmentLayout(layout, segs)
    requires AllOk(o, r.calls, PrunePaginated(r, o, lister, layout, cutoff).remote.calls)
    ensures var p := PrunePaginated(r, o, lister, layout, cutoff);
            forall k :: (k in r.objects && StartsWith(k, layout.prefix) && Token(k, layout).Some? &&
                         Nested(k, layout) && Stale(Token(k, layout).value, cutoff)) ==> k !in p.remote.objects
  {
    var p := PrunePaginated(r, o, lister, layout, cutoff);
    forall k | k in r.objects && StartsWith(k, layout.prefix) && Token(k, layout).Some? &&
               Nested(k, layout) && Stale(Token(k, layout).value, cutoff)
      ensures k !in p.remote.objects
    {
      var t := Token(k, layout).value;
      SplitPartsFree(k, '/');
      assert '/' !in t;
      UnderToken(layout, segs, k, t);
    }
  }

  /** The partition of the current day is never stale under a retention of a
      day or more. */
  lemma TodayNotStale(now: Instant, days: nat)
    requires days >= 1 && MinusDays(now, days).Some?
    ensures !Stale(Format(DateOf(now)), MinusDays(now, days).value)
  {
    var today := DateOf(now);
    ParseFormat(today);
    assert Ordinal(today) == now.day;
    assert Midnight(today).day == now.day;
  }

  // ---------------------------------------------------------------------------
  // The configured pruners.
  // ---------------------------------------------------------------------------

  /** `RETENTION_DAYS` of the stand-alone pruners. */
  const CleanupRetentionDays: nat := 15

  /** `RETENTION_DAYS` of the archiver that prunes after each upload. */
  const ArchiverRetentionDays: nat := 20

  /** `wal_backups/<date>/...`: token at index 1, read from keys of three or
      more parts. */
  function FlatLayout(): Layout {
    Layout(BaseFolder + "/", 1, 3)
  }

  /** `<cluster>/wal_backups/<node>/<date>/...`: token at index 3, read from
      keys of four or more parts, so `<cluster>/wal_backups/<node>/<date>`
      itself names a partition too. */
  function NodeLayout(cluster: string, node: string): Layout {
    Layout(cluster + "/" + BaseFolder + "/" + node + "/", 3, 4)
  }

  /** `delete_old_wal_folders()` of the paginated stand-alone pruner. */
  function WalCleanup(r: Remote, o: Oracle, lister: Lister, now: Instant): Pass
    requires ValidLister(lister)
  {
    Prune(r, o, lister, Paginated, FlatLayout(), now, CleanupRetentionDays)
  }

  /** `delete_old_wal_folders(cluster_name, psqld_node)`. */
  function NodeWalCleanup(r: Remote, o: Oracle, lister: Lister, now: Instant, cluster: string, node: string): Pass
    requires ValidLister(lister)
  {
    Prune(r, o, lister, Paginated, NodeLayout(cluster, node), now, CleanupRetentionDays)
  }

  /** `delete_old_folders_from_ozone()` of the one-shot archiver. */
  function ArchiverPrune(r: Remote, o: Oracle, lister: Lister, now: Instant): Pass
    requires ValidLister(lister)
  {
    Prune(r, o, lister, FirstPage, FlatLayout(), now, ArchiverRetentionDays)
  }

  lemma FlatLayoutSegments()
    ensures SegmentLayout(FlatLayout(), [BaseFolder])
  {
  }

  lemma NodeLayoutSegments(cluster: string, node: string)
    requires '/' !in cluster && '/' !in node
    ensures SegmentLayout(NodeLayout(cluster, node), [cluster, BaseFolder, node])
  {
    var segs := [cluster, BaseFolder, node];
    assert Join(segs, "/") == cluster + "/" + Join(segs[1..], "/");
    assert segs[1..][1..] == [node];
  }

  /** The stand-alone pruner deletes a key under `wal_backups/` only when
      segment 1 of the key is a date more than 15 days old, and with every
      request succeeding it deletes all such keys and nothing else. */
  lemma WalCleanupRetains(r: Remote, o: Oracle, lister: Lister, now: Instant)
    requires ValidLister(lister)
    ensures var p := WalCleanup(r, o, lister, now);
            forall k :: k in r.objects && k !in p.remote.objects ==>
              MinusDays(now, 15).Some? && StartsWith(k, "wal_backups/") &&
              Token(k, FlatLayout()).Some? && Stale(Token(k, FlatLayout()).value, MinusDays(now, 15).value)
    ensures var p := WalCleanup(r, o, lister, now);
            p.ok ==> forall k :: k in r.objects ==>
              (k !in p.remote.objects <==>
                 StartsWith(k, "wal_backups/") && Token(k, FlatLayout()).Some? &&
                 Stale(Token(k, FlatLayout()).value, MinusDays(now, 15).value))
  {
    FlatLayoutSegments();
    PruneSafe(r, o, lister, Paginated, FlatLayout(), [BaseFolder], now, CleanupRetentionDays);
    if WalCleanup(r, o, lister, now).ok {
      PruneExact(r, o, lister, FlatLayout(), [BaseFolder], now, CleanupRetentionDays);
    }
  }

  /** The same for the per-node pruner, with the token at segment 3: a key is
      deleted only when it has a fifth segment, and with every request
      succeeding every such key of a stale partition is deleted. */
  lemma NodeWalCleanupRetains(r: Remote, o: Oracle, lister: Lister, now: Instant, cluster: string, node: string)
    requires ValidLister(lister) && '/' !in cluster && '/' !in node
    ensures var p := NodeWalCleanup(r, o, lister, now, cluster, node);
            forall k :: k in r.objects && k !in p.remote.objects ==>
              MinusDays(now, 15).Some? && StartsWith(k, cluster + "/wal_backups/" + node + "/") &&
              |SplitOn(k, "/")| >= 5 && Stale(SplitOn(k, "/")[3], MinusDays(now, 15).value)
    ensures var p := NodeWalCleanup(r, o, lister, now, cluster, node);
            p.ok ==> forall k :: k in r.objects ==>
              (k !in p.remote.objects <==>
                 StartsWith(k, cluster + "/wal_backups/" + node + "/") && |SplitOn(k, "/")| >= 5 &&
                 Stale(SplitOn(k, "/")[3], MinusDays(now, 15).value))
  {
    var layout := NodeLayout(cluster, node);
    assert layout.prefix == cluster + "/wal_backups/" + node + "/";
    assert forall k :: |SplitOn(k, "/")| >= 5 ==> Nested(k, layout) && Token(k, layout) == Some(SplitOn(k, "/")[3]);
    NodeLayoutSegments(cluster, node);
    PruneSafe(r, o, lister, Paginated, layout, [cluster, BaseFolder, node], now, CleanupRetentionDays);
    if NodeWalCleanup(r, o, lister, now, cluster, node).ok {
      PruneExact(r, o, lister, layout, [cluster, BaseFolder, node], now, CleanupRetentionDays);
    }
  }

  /** An object named `<cluster>/wal_backups/<node>/<date>` has a token, so its
      date is collected as a partition and listed, but it lies in no partition
      and the per-node pruner never deletes it. */
  lemma NodeShallowKeyKept(r: Remote, o: Oracle, lister: Lister, now: Instant, cluster: string, node: string, t: string)
    requires ValidLister(lister) && '/' !in cluster && '/' !in node && '/' !in t
    requires cluster + "/wal_backups/" + node + "/" + t in r.objects
    ensures Token(cluster + "/wal_backups/" + node + "/" + t, NodeLayout(cluster, node)) == Some(t)
    ensures cluster + "/wal_backups/" + node + "/" + t in NodeWalCleanup(r, o, lister, now, cluster, node).remote.objects
  {
    var segs := [cluster, BaseFolder, node];
    var layout := NodeLayout(cluster, node);
    var k := cluster + "/wal_backups/" + node + "/" + t;
    NodeLayoutSegments(cluster, node);
    assert k == Join(segs, "/") + "/" + t;
    SegmentsSplit(segs, t);
    SplitNoSep(t, '/');
    assert SplitOn(k, "/") == segs + [t];
    assert !Nested(k, layout);
    PruneSafe(r, o, lister, Paginated, layout, segs, now, CleanupRetentionDays);
  }
}
