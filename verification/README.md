# WAL archiving to an Ozone store, and the Ranger and HiveServer2 tools beside it

This project is a Dafny model of a set of PostgreSQL operations scripts. At
their centre is the archiver that ships PostgreSQL write-ahead-log (WAL)
segments to an S3-compatible Ozone bucket under keys
`wal_backups/<YYYY-MM-DD>/<segment>`. It keeps a local fallback queue for
segments that could not be shipped, and it deletes date partitions once they
are past retention. The archiver comes in five variants, and each is modelled
as it is written:

- **One-shot archivers.** `new_wal.py` prunes after each upload and
  `archive_command.py` does not. PostgreSQL invokes either one as its
  `archive_command`. The script uploads the segment with up to three attempts
  and falls back to a local copy. On success it drains the queue. Its exit
  status tells PostgreSQL whether the segment may be recycled. These are the
  modules `Uploader`, `Fallback` and `OneShot`.
- **The polling daemon** `push_pg_wal_to_ozone.py`, one iteration of its
  loop. It drains the backup directory, uploads the eligible segments and
  moves the failed ones into the backup directory. It then prunes old
  partitions and deletes old backup files. This is the module `Daemon`.
- **Stand-alone pruners.** `wal_cleanup.py` and `updated_wal_cleanup.py`
  walk every listing page and delete in batches of at most 1000 keys. The
  pruning step of `new_wal.py` reads only the first listing page and deletes
  it in one request. This is the module `Pruner`.
- **The same-day WAL listing** of `wal.py`. This is the module `WalScan`.

Beside the archiver the model covers these pure data transformations:

- the HiveServer2 compile-time log analyser (`Hs2`);
- the Ranger policy rewrites (`Ranger`): roles folded into groups, a group
  granted `rwx` permissions on a policy, and Hive URL policies moved from
  schema directories to data-file directories;
- batching and tallying of the policy export (`Chunking`, `PolicyExport`);
- the role import (`RoleImport`).

Shared modules model the Python behaviour the scripts rely on:

- `Text`: string order, `split`, `join`, `replace`, `rstrip` and `str(n)`.
- `Calendar`: the proleptic Gregorian calendar of `datetime`,
  `strftime('%Y-%m-%d')`, and `strptime` for that format.
- `SortedStrings`: `sorted(set(...))`.
- `Json`: JSON values with objects as ordered member lists.
- `ObjectStore`: the bucket as a map from key to content, plus a request
  counter.
- `Wrappers`: `Option` and `Result`.

The environment is a parameter everywhere:

- The store's answer to the n-th request comes from an oracle `Oracle`. It
  answers `Ok`, `ConnErr` (`NoCredentialsError` or `EndpointConnectionError`)
  or `OtherErr`.
- The wall clock is an `Instant`: a day number and the microseconds since
  midnight.
- Store listings come from a `Lister` that depends only on the keys held.
- `os.listdir` order is a sequence that enumerates the directory.
- Whether a rename, a copy or the creation of the queue directory succeeds is
  a boolean. Whether `os.remove` succeeds is a predicate on the file name.

The daemon's four defects (see "Findings") can each be switched off by one
field of `Daemon.Fixes`. `Daemon.AsWritten` is the script as written, and
`Daemon.Repaired` has every defect corrected.

## Model

| member | source | states |
|---|---|---|
| Uploader.Retry | new_wal.py:57-70 | At most three put attempts, and every attempt but the last met a connectivity error. The result is success exactly when the last attempt succeeded, and the object is written only then. Any other error ends the loop at once. A sleep comes before each further attempt, and when `time` is missing the sleep turns the first connectivity error into a crash. |
| Uploader.RetryMatchesTable | archive_command.py:58-71 | The verdict is the one read directly off the first three outcomes, and the loop stops at the first outcome that is not a connectivity error. |
| Uploader.UploadKey | new_wal.py:54-55 | A successful upload stores the segment's content under `wal_backups/<today>/<name>`, and that key's middle segment parses back to the date of the clock reading. |
| ObjectStore.ObjectKeySplit | archive_command.py:55-56 | An archive key splits on '/' into base folder, date token and file name, and the date token parses back to the date. |
| ObjectStore.ObjectKeyInjective | new_wal.py:90-91 | Two (date, name) pairs share a key exactly when they are equal. |
| ObjectStore.SegmentsSplit | updated_wal_cleanup.py:46-59 | A key built from a '/'-free prefix of segments splits into those segments followed by the parts of the rest, so the token index counts the prefix segments. |
| Fallback.SaveCopy | new_wal.py:72-80 | The copy succeeds exactly when the queue directory exists and the file system accepts it. On success the queue holds the file with its content and modification time, and the other queued files are unchanged. On failure nothing changes. |
| Fallback.DrainFrom | new_wal.py:88-99 | Files are put in listing order, and each is removed after its put. The removed files form a prefix whose requests all succeeded and whose removals all succeeded. The first failed put, or the first failed removal, stops the drain. When only the removal failed, that file is stored too. One request is sent per removed file, plus one for the file the drain stopped at. |
| Fallback.Drain | new_wal.py:82-99 | Without a queue directory nothing happens. Otherwise exactly the removed prefix leaves the queue. The store gains exactly the puts of the files that were uploaded: the removed ones, plus the one whose removal failed, if any. |
| Fallback.DrainFromCount | archive_command.py:91-102 | A drain started at position i stops removing at whichever comes first: i plus the number of leading successful answers, or the position of the first file whose removal fails. It stores one file more exactly when the failed removal comes strictly first, and that file is then the stuck one. |
| Fallback.DrainCount | archive_command.py:84-102 | The drain removes exactly the files before the first one whose put or removal fails. It uploads one file more than it removed when only a removal failed. It sends one request per removed file, and one more unless the whole queue went. |
| Fallback.PushesKeep | new_wal.py:93-96 | Puts under other keys leave an object present or absent, and leave its content unchanged. |
| Fallback.QueueKeysDistinct | new_wal.py:90-91 | Distinct queued files are stored under distinct keys. |
| Fallback.QueueKeysAvoid | new_wal.py:90-91 | No queued file is put under the key of a segment that is not queued. |
| Fallback.PushesStore | new_wal.py:93-96 | After distinct files have been put, each one's key holds that file's content. |
| Fallback.DrainSafe | new_wal.py:88-99 | No segment is lost. A file that left the queue is in the store under its modification-date key with its content. The file whose put or removal failed, and every file listed after it, are still queued and unchanged. |
| Pruner.Collect | wal_cleanup.py:49-62 | The partitions collected are exactly the listed tokens that parse as dates, plus those already seen. Each appears once, and those already seen come first in their order. A token that does not parse is never collected. |
| Pruner.BatchesCover | wal_cleanup.py:79-85 | A page's delete batches hold its keys exactly once, in order, and none holds more than 1000. For a page within the listing limit, the single unbatched request of new_wal.py is the same as the batched one. |
| Pruner.DeleteAll | wal_cleanup.py:79-85 | The batches are sent in order until one fails. The deleted keys are exactly those of the batches sent, and the pass completes exactly when every request succeeded. |
| Pruner.PurgePages | wal_cleanup.py:70-85 | Walking the listing pages of a partition deletes only listed keys. When every request succeeds, it deletes every key listed on the pages. |
| Pruner.PurgeFolder | wal_cleanup.py:68-85 | Purging a partition deletes only stored keys under the partition prefix. When the paginated pass completes, no key under that prefix remains. |
| Pruner.PurgeAll | wal_cleanup.py:65-85 | Only partitions whose date is before the cutoff are purged. When every request succeeds, no key of such a partition remains. |
| Pruner.ListPages | wal_cleanup.py:43-53 | The collection pass sends one list request per page, stops at the first failure, and changes no object. |
| Pruner.PrunePaginated | wal_cleanup.py:39-85 | With the cutoff fixed, every deleted key lies in a stale partition named by a '/'-free date token. When every request succeeds, no key of a stale partition remains. |
| Pruner.PruneFirstPage | new_wal.py:105-132 | Reading only the first listing page, the pass deletes only keys of stale partitions, in batches within the limit. |
| Pruner.Prune | new_wal.py:101-135 | A pruning pass of either discipline: deleted objects are exactly the logged keys, each one in a stale partition. A cutoff out of the calendar's range, or any failed request, ends the pass without completing it. |
| Pruner.PruneSafe | wal_cleanup.py:56-73 | Whatever the store answers, a key is deleted only if it lies under the prefix, has a segment after its token, and its own date token parses to a date whose midnight is before `now - days`. Every object that stays keeps its content. |
| Pruner.PruneExact | wal_cleanup.py:41-85 | When every request succeeds, a paginated pass deletes exactly the keys under the prefix that have a segment after their token and whose date token is older than the cutoff. Nothing else is deleted. |
| Pruner.PaginatedExact | wal_cleanup.py:49-85 | The completeness half of that statement, for a known cutoff: no key with a segment after a stale token survives a pass in which every request succeeded. |
| Pruner.TokenOfPartition | wal_cleanup.py:68 | A key inside the partition prefix `<prefix><t>/` has `t` as its own token at the layout's index, and has a segment after it. |
| Pruner.PartitionOfToken | wal_cleanup.py:55-57 | A key under the prefix whose token is `t`, with a segment after it, lies inside the partition prefix `<prefix><t>/`. |
| Pruner.UnderToken | updated_wal_cleanup.py:56-70 | Lying in partition `t` is the same as lying under the prefix with `t` as the key's own token and a segment after it, in both directions. For the per-node layout, which reads the token from keys of four parts, a key that ends at its token has the token but lies in no partition. |
| Pruner.TodayNotStale | new_wal.py:119-121 | With a retention of at least one day, today's partition is never stale. |
| Pruner.WalCleanupRetains | wal_cleanup.py:39-85 | The flat pruner deletes a key only when the key lies under `wal_backups/` and its segment 1 is a date whose midnight is before the time 15 days back. When every request succeeds, it deletes exactly those keys. |
| Pruner.NodeWalCleanupRetains | updated_wal_cleanup.py:42-78 | The per-node pruner collects partition tokens from keys of four or more parts, as line 58 does. It deletes a key only when the key lies under `<cluster>/wal_backups/<node>/`, has five or more parts, and its segment 3 is a date whose midnight is before the time 15 days back. When every request succeeds, it deletes exactly those keys. |
| Pruner.NodeShallowKeyKept | updated_wal_cleanup.py:56-70 | An object named `<cluster>/wal_backups/<node>/<date>` has a token, so its date is collected and its partition listed, but the per-node pruner never deletes the object itself. |
| Calendar.OrdinalOrder | wal_cleanup.py:66 | Day numbers order dates as `datetime` comparison does, and two dates have equal day numbers exactly when they are equal. |
| Calendar.FromOrdinal | wal_cleanup.py:41 | Every representable day number belongs to a valid date whose day number it is. |
| Calendar.FromOrdinalOfOrdinal | wal_cleanup.py:41 | A valid date's day number is representable and converts back to the same date. |
| Calendar.MinusDays | wal_cleanup.py:41 | Subtracting days is defined exactly when the result stays in the representable range. The result is that many days earlier at the same time of day. |
| Calendar.ParseDate | wal_cleanup.py:59 | A parsed token always yields a valid calendar date. |
| Calendar.ParseFormat | new_wal.py:54 | Parsing a formatted date gives the date back. |
| Calendar.FormatParse | push_pg_wal_to_ozone.py:107-109 | Reformatting a parsed `YYYY-MM-DD` token gives the token back. |
| Calendar.FormatOrder | push_pg_wal_to_ozone.py:109 | Formatted dates compare as strings exactly as they compare in time. |
| Text.JoinSplit | schemas.py:23 | Splitting on a separator and joining with it again gives the string back. |
| Text.ReplaceIsSplitJoin | schemas.py:23 | Replacing every non-overlapping occurrence from left to right equals splitting on the pattern and joining with the replacement. |
| Text.DecimalValue | wal.py:34 | `str(n)` reads back as `n`. |
| Chunking.Chunks | policy_export.py:30-33 | No batch is empty, none holds more than `n` items, and every batch but the last holds exactly `n`. |
| Chunking.ChunksFlatten | policy_export.py:32-33 | Concatenating the batches in order gives back the input. |
| Chunking.ChunksCount | policy_export.py:32 | There are ceil(len / n) batches. |
| SortedStrings.SortedSet | rolestogroups.py:13-20 | The result is strictly increasing in Python's string order and has exactly the input's elements. |
| SortedStrings.SortedUnique | rolestogroups.py:20 | Two strictly sorted lists with the same elements are equal. |
| SortedStrings.SortedSetFixed | rolestogroups.py:13-20 | Sorting the set of an already strictly sorted list changes nothing. |
| PolicyExport.SuccessesSplit | policy_export.py:57-60 | The success count of the posts so far is the count before the batch plus the count of the batch. |
| PolicyExport.UploadBatch | policy_export.py:36-48 | A batch fails exactly when some policy in it is not an object (`policy.get` raises `AttributeError`) or some post raises (the request exception propagates). The error is the one of the first such policy. Otherwise successes plus failures equals the batch size, and successes are the posts answered 200 or 201. |
| PolicyExport.Upload | policy_export.py:51-64 | The upload fails, printing nothing, exactly when some policy is not an object or some post raises. `future.result()` re-raises the error of the first such policy, because batches are read in order. Otherwise the totals are the sums of the posts answered 200 or 201 and of the rest, and together they equal the number of policies. The failure line is printed exactly when some post failed. |
| RoleImport.RolesOf | thread.py:27-36 | The `vList` member is preferred, then `roles`, and a bare list is taken as it is. An object with neither member raises `ValueError`. A list containing either name, and a scalar, raise `TypeError` from the membership test or the indexing. |
| RoleImport.PrepareRole | thread.py:38-42 | Only an object can be prepared, and the result is an object. A list role raises `TypeError` at the keyed `pop`; any other non-object raises `AttributeError`, having no `copy`. |
| RoleImport.PrepareRoleKeeps | thread.py:40-41 | The copy lacks `id` and agrees with the role on every other key. |
| RoleImport.ImportSingle | thread.py:44-79 | `success` holds exactly on status 200, and `message` is absent exactly on success. A request error leaves `status` empty. A progress line is printed exactly when the index is a multiple of 100 or the last one. |
| RoleImport.PostRoles | thread.py:103-126 | The i-th posted body is the i-th role without its `id`, and the i-th result is that post's classification. A role that is not an object stops the loop, and the run records the error preparing it raised. Successes are the posts answered 200, and successes plus failures equals the number of posts. |
| RoleImport.ImportRoles | new.py:26-75 | If the roles cannot be found, or the list is empty, nothing is posted. Otherwise the posting loop behaves as stated for `PostRoles`, over the roles found. |
| Json.GetRemove | thread.py:40-41 | Removing a key from an object with unique keys keeps the keys unique, makes the key absent, and leaves every other key's value unchanged. |
| Json.GetSet | rolestogroups.py:20-21 | After assigning a key, reading it gives the new value and every other key reads as before. |
| Json.In | ranger_policyupdate.py:32 | `in` tests list elements and object keys. On a value that cannot be iterated it raises. |
| Json.Elements | thread.py:90 | A loop visits the items of a list. A value visits nothing exactly when it is falsy, and a scalar cannot be iterated. |
| Hs2.ParseStamp | hs2_anlyzer.py:82-87 | A matched stamp parses exactly when its date part and its clock part are both valid. The instant then has that date and that time of day. |
| Hs2.ParseTimestamp | hs2_anlyzer.py:78-87 | A line parses only if its first 23 characters have the timestamp shape. The instant's date is the one written there, on a whole millisecond. |
| Hs2.ParseRender | hs2_anlyzer.py:78-87 | Every whole-millisecond instant written in the log's layout at the start of any line is read back exactly. |
| Hs2.RenderParse | hs2_anlyzer.py:78-87 | A parsed timestamp, written back, gives the characters it was read from, and its hour key is the first 13 of them. |
| Hs2.StampClockRender | hs2_anlyzer.py:85 | The clock part of a rendered whole-millisecond instant parses back to its time of day. |
| Hs2.Render | hs2_anlyzer.py:211 | The rendering has 23 characters and begins with the `%Y-%m-%d %H` hour key. |
| Hs2.Truncate | hs2_anlyzer.py:140-141 | A query within the limit is kept. A longer one ends with the truncation mark after a prefix of the query. For a non-negative limit its length is the limit plus the mark's length. |
| Hs2.MakeRecord | hs2_anlyzer.py:166-181 | `slow` holds exactly when the compile time exceeds the threshold, and `excessive` holds exactly when the union count exceeds its threshold; both comparisons are strict. The other fields are copied from the start and the end. |
| Hs2.Emit | hs2_anlyzer.py:192-214 | The record is appended, and only its user's counters and its hour's counters change. A record with neither timestamp leaves the hourly table alone. |
| Hs2.Step | hs2_anlyzer.py:129-187 | A start line opens or overwrites its query and is never read as an end. An end line with an open query closes it and emits its record. Any other line changes nothing. |
| Hs2.PairingBound | hs2_anlyzer.py:160-164 | The records emitted plus the queries still open never exceed the number of start lines, so each start yields at most one record. |
| Hs2.PendingIff | hs2_anlyzer.py:143-164 | A query is open at the end exactly when one of its start lines has no end line of it after it. |
| Hs2.MaxMs | hs2_anlyzer.py:200-201 | The running maximum is at least every row's compile time, is reached by some row, and is 0 for no rows. |
| Hs2.UserReference | hs2_anlyzer.py:197-205 | A user's slow and excessive counts never exceed the user's total, and the maximum never exceeds the sum. |
| Hs2.UserReferenceSnoc | hs2_anlyzer.py:197-205 | One more row changes only its own user's reference counters, by exactly that row. |
| Hs2.HourReferenceSnoc | hs2_anlyzer.py:208-214 | One more row changes only the reference counters of its own hour, which comes from the start stamp or else the end stamp. |
| Hs2.EmitUsers | hs2_anlyzer.py:197-205 | If the per-user table matched the rows emitted so far, it still matches after one more emission. |
| Hs2.EmitHours | hs2_anlyzer.py:207-214 | The same for the per-hour table. |
| Hs2.StepSummarised | hs2_anlyzer.py:154-187 | One log line keeps both tables in agreement with the rows. |
| Hs2.ProcessSummarised | hs2_anlyzer.py:123-187 | After any sequence of lines, a user or hour has counters exactly when it has rows, and its counters are the totals, counts, sum and maximum over those rows. |
| Ranger.MoveRoles | rolestogroups.py:12-21 | A missing `roles` or `groups` member counts as empty. The fold succeeds exactly when the entry is an object whose `roles` and `groups` iterate to strings only: a list of strings, a string, or an object. `groups` then becomes the strictly sorted union of groups and roles, `roles` becomes empty, and every other member is unchanged. |
| Ranger.MoveRolesIdempotent | rolestogroups.py:12-21 | Folding an entry's roles twice gives the same entry as folding them once. |
| Ranger.RolesToGroups | rolestogroups.py:7-21 | A top level that is not a list raises `ValueError`. Otherwise each entry is folded in place, in order, and the result succeeds when every entry can be folded. |
| Ranger.RolesToGroupsIdempotent | rolestogroups.py:10-21 | Applying the script to its own output changes nothing. |
| Ranger.MovePolicyRoles | new_roles.py:10-19 | A policy that is not an object raises `AttributeError`. All policy members other than `policyItems` are unchanged. When the policy changes, its `policyItems` was a list, and every item of it has its roles folded into its groups. |
| Ranger.PolicyItemsRolesToGroups | new_roles.py:7-19 | A top level that is not a list raises `ValueError`. Otherwise each policy is rewritten in place, in order. |
| Ranger.MovePolicyRolesIdempotent | new_roles.py:12-19 | Folding a policy's item roles twice gives the same policy as folding them once. |
| Ranger.ParseRwx | ranger_policyupdate.py:17-18 | Only `read`, `write` and `execute` come out, never more than the letters given. The result is empty exactly when no letter is known. |
| Ranger.ParseRwxAppend | ranger_policyupdate.py:17-18 | Parsing works letter by letter, keeping order and repeats. |
| Ranger.FirstWithGroup | ranger_policyupdate.py:31-39 | The position found is the first item naming the group. Every earlier item does not name it. |
| Ranger.Missing | ranger_policyupdate.py:35-37 | The permissions still to grant are exactly the requested ones that the item lacks, each once. |
| Ranger.UpdatePolicy | ranger_policyupdate.py:26-48 | The update succeeds only on an object whose `policyItems` is a list it can examine. A policy without `policyItems` raises `KeyError` at the append. |
| Ranger.UpdatePolicyShape | ranger_policyupdate.py:31-48 | The policy sent back is the fetched one with only its `policyItems` changed. |
| Ranger.GrantGrants | ranger_policyupdate.py:34-37 | The intended grant makes the item grant exactly what it granted before plus the permissions asked for. Nothing but `accesses` changes. |
| Ranger.GrantKeepsUnique | ranger_policyupdate.py:34-37 | The intended grant never repeats an access type. |
| Ranger.NewItemGrants | ranger_policyupdate.py:41-48 | The appended item names the group and grants every permission asked for. |
| Ranger.UpdateItemsGrants | ranger_policyupdate.py:31-48 | With the intended grant, the first item naming the group grants every permission asked for afterwards, and every other item is unchanged. If no item names the group, the new item is appended at the end. |
| Ranger.UpdateItemsIdempotent | ranger_policyupdate.py:31-48 | With the intended grant, applying the same row twice to the item list gives the same list as applying it once. |
| Ranger.UpdatePolicyIdempotent | ranger_policyupdate.py:26-48 | With the intended grant, sending the same row twice leaves the policy as sending it once does. |
| Ranger.ExistingTypesMisread | ranger_policyupdate.py:34 | As written, granting `etl` write access on a policy whose `etl` item already grants read raises `KeyError`. |
| Ranger.AsWrittenGrantFails | ranger_policyupdate.py:34 | As written, for every item with an access list, the grant raises `KeyError` exactly when the list is non-empty. On an empty list it succeeds. |
| Ranger.ExistingTypesRead | ranger_policyupdate.py:34-38 | Read as intended, the same update gives that item read and write access. |
| Ranger.RepeatedPermAppendedTwice | ranger_policyupdate.py:35-37 | As written, the column `rr` appends two identical `read` accesses to an item with no accesses. |
| Ranger.RepeatedPermAppendedOnce | ranger_policyupdate.py:35-37 | The intended grant appends `read` once for the same input. |
| Ranger.StripDb | schemas.py:24 | A trailing `.db` is removed once. Because `$` also matches before a final newline, `.db` followed by a newline loses the `.db` and keeps the newline. Any other value is unchanged. |
| Ranger.StripDbUndoes | schemas.py:24 | Removing the suffix undoes appending it once, so `x.db.db` keeps one `.db`. |
| Ranger.RewriteOnlyStrips | schemas.py:23-24 | A value that never names a schema directory only loses its `.db`. |
| Ranger.RewriteSplits | schemas.py:23 | The rewrite replaces every `/schemas/` with `/datafiles/`, as splitting and joining does, and then strips `.db`. |
| Ranger.RewriteAll | schemas.py:20-25 | The list of values keeps its length and order, and each value is rewritten. |
| Ranger.RewriteUrls | schemas.py:9-28 | A policy that is not an object raises `AttributeError`. A policy that is not for `cm_hive`, or has no `url` resource, is unchanged. A Hive URL policy is rewritten exactly when its `url` resource is an object whose values are strings. |
| Ranger.RewriteUrlsValues | schemas.py:13-28 | The rewritten policy differs from the original only in its URL values, which are the rewritten list. Other resources, other members of the URL resource, and other members of the policy are unchanged. |
| Ranger.RewriteAllUrls | schemas.py:9-28 | Every policy of the export is rewritten in place, in order, and the whole succeeds when each policy does. |
| Daemon.WalFiles | push_pg_wal_to_ozone.py:32-34 | A name is eligible exactly when it is listed, starts with `0000` and ends with `.partial`. A listing without repeats gives eligible names without repeats. |
| Daemon.RetryBackup | push_pg_wal_to_ozone.py:70-89 | The drain only removes backup files it visits, and only when its client is bound. A failed `os.remove` is caught by the generic handler and keeps the file. Files that stay keep their content, the WAL directory and `ozone_down` are untouched, and the store only gains keys. The daemon can die only because of the WAL-directory lookup. |
| Daemon.ScanOne | push_pg_wal_to_ozone.py:142-148 | One file: a bound client sends one request, and a success stores the content under the file's key. `ozone_down` becomes true exactly when the upload failed. A failed upload whose rename succeeds moves the file into the backup directory, and otherwise both directories are unchanged. |
| Daemon.ScanUpload | push_pg_wal_to_ozone.py:141-148 | The pass sends one request per eligible file when the client is bound, and none otherwise. Files leave the WAL directory but never change there, and the store only gains keys. |
| Daemon.ScanMoves | push_pg_wal_to_ozone.py:60-68 | A file leaves the WAL directory only into the backup directory, and queued files the pass does not name stay queued. |
| Daemon.ScanFlag | push_pg_wal_to_ozone.py:142-148 | After the pass, `ozone_down` says whether the last file's upload failed. |
| Daemon.ScanOrigin | push_pg_wal_to_ozone.py:142-145 | Nothing enters the backup directory during the pass except files the pass names, with their content unchanged. |
| Daemon.ScanFate | push_pg_wal_to_ozone.py:142-148 | Every file the pass visits is stored under its key, or stayed put because the rename failed, or moved to the backup directory. |
| Daemon.CleanLocal | push_pg_wal_to_ozone.py:119-130 | The daemon dies exactly when the cutoff falls outside the calendar. Otherwise a backup file is deleted exactly when its modification time is before the cutoff seven days back and its `os.remove` succeeds. With the repair, it must also be in the store under its key. Nothing else changes. |
| Daemon.FolderSweep | push_pg_wal_to_ozone.py:104-114 | Every deleted key was stored and lies in a partition whose date sorts before the cutoff. Without the trailing '/', a deleted key only has to start with the partition's name. |
| Daemon.FolderStep | push_pg_wal_to_ozone.py:105-114 | One common prefix sends at most one delete, and that delete covers only keys of an old partition. |
| Daemon.DeleteOldFolders | push_pg_wal_to_ozone.py:91-117 | An unbound client deletes nothing, because the handler swallows the `NameError`. Anything deleted lies in a partition older than seven days, and the cutoff was in range. |
| Daemon.OldTokenMeaning | push_pg_wal_to_ozone.py:100-109 | The string comparison of dates is the date order: a partition is old exactly when its token parses to a date before the cutoff's date. |
| Daemon.SiblingDeleted | push_pg_wal_to_ozone.py:105-114 | As written, an object beside an old partition whose name begins with the partition's date is deleted together with the partition. |
| Daemon.SiblingKept | push_pg_wal_to_ozone.py:111 | With the '/' restored, objects directly under the base folder survive any pruning pass. |
| Daemon.RetryKeeps | push_pg_wal_to_ozone.py:82 | The drain writes only the keys of the files it visits. |
| Daemon.RetryPuts | push_pg_wal_to_ozone.py:76-84 | When keys are kept apart, a file that leaves the backup directory has its content in the store under its key. |
| Daemon.RetryArchives | push_pg_wal_to_ozone.py:75-89 | In the repaired drain, a backup file leaves the directory only once its content is stored under its own modification-date key. |
| Daemon.Transfer | push_pg_wal_to_ozone.py:137-148 | The uploading half of an iteration never changes a file in the WAL directory, and an unbound client leaves the store untouched. Only the WAL-directory lookup can kill the daemon here. |
| Daemon.Housekeep | push_pg_wal_to_ozone.py:150-155 | The daemon dies exactly when the cleanup runs and its cutoff is out of range. A set `ozone_down` spares the backup directory. With the repair, a backup file disappears only once it is stored. |
| Daemon.Iterate | push_pg_wal_to_ozone.py:136-158 | An iteration never changes a file in the WAL directory, and with an unbound client it never changes the store. It dies only because of the lookup or an out-of-range cutoff. |
| Daemon.PruneKeeps | push_pg_wal_to_ozone.py:104-114 | The repaired pruning keeps a stored segment unless the segment's date is past retention. |
| Daemon.TransferKeepsBackup | push_pg_wal_to_ozone.py:70-89 | When repaired, and when no name is in both the WAL and the backup directory, the uploading half completes, and each backup file is still queued or is in the store under its key with its content. A name in both directories is excluded because the rename at lines 60-68 would replace the queued file. |
| Daemon.TransferKeepsWal | push_pg_wal_to_ozone.py:141-148 | When repaired, each WAL file is still in one of the two directories after the uploading half, or is in the store under its key with its content. |
| Daemon.TransferNoLoss | push_pg_wal_to_ozone.py:137-148 | When repaired, and when no name is in both directories, the uploading half loses no file of either directory. |
| Daemon.HousekeepKeeps | push_pg_wal_to_ozone.py:150-155 | Repaired housekeeping keeps a file that was in a directory or in the store, unless its date is past retention. |
| Daemon.IterateNoLoss | push_pg_wal_to_ozone.py:136-158 | When repaired, and when no name is in both directories, a whole iteration loses no segment that is not past retention. Every file is still in a directory or in the store. |
| Daemon.UnboundTransfer | push_pg_wal_to_ozone.py:50 | As written, with an empty backup directory and renames that succeed, the uploading half moves every eligible segment into the backup directory and leaves `ozone_down` set. |
| Daemon.UnboundClientArchivesNothing | push_pg_wal_to_ozone.py:42-58 | As written, with an empty backup directory and renames that succeed, an iteration never changes the store, whatever it would answer. Every eligible segment ends up in the backup directory. |
| Daemon.ScanPuts | push_pg_wal_to_ozone.py:47-52 | With a bound client, every request answered Ok and keys kept apart, every file the scan visits ends up in the store under its key with its content. |
| Daemon.ScanStores | push_pg_wal_to_ozone.py:141-148 | With a bound client and every request answered Ok, the scan stores every segment it visits and leaves both directories unchanged. |
| Daemon.BoundClientStores | push_pg_wal_to_ozone.py:42-58 | When repaired and every request is answered Ok, the uploading half stores every eligible segment and leaves it in the WAL directory. |
| Daemon.BackupOnlyFileKills | push_pg_wal_to_ozone.py:75-77 | With the lookup as written, a first-listed backup file whose name is not in the WAL directory ends the daemon. |
| Daemon.StaleFlagStages | push_pg_wal_to_ozone.py:134-155 | With the store unreachable, one backup file and an empty WAL directory reach the cleanup untouched, with `ozone_down` still false. |
| Daemon.StaleFlagLosesSegment | push_pg_wal_to_ozone.py:142-155 | With the client bound, the lookup repaired and the cleanup as written, that backup file is deleted although it never reached the store, once it is older than seven days and its removal succeeds. |
| Daemon.StaleFlagRepaired | push_pg_wal_to_ozone.py:119-130 | When repaired, the same file stays queued with its content whenever the daemon survives the iteration. |
| OneShot.RunScript | new_wal.py:137-159 | A wrong argument count or a missing file exits 1 with nothing changed. A missing queue directory that `os.makedirs` cannot create kills the script before any upload, with nothing changed. The only outcomes are exit 0, exit 1, or a crash. A crash or exit 1 leaves the store's objects unchanged. Once the queue directory exists, a crash happens only without the `time` import. A script that does not prune never removes a key. |
| OneShot.AfterUpload | archive_command.py:119-122 | After a successful upload the queue still exists. Without pruning, draining never removes a key of the store. |
| OneShot.DrainKeepsKey | new_wal.py:151-152 | The drain never overwrites the object just uploaded for a segment that is not queued. |
| OneShot.PruneKeepsToday | new_wal.py:119-125 | The archiver's pruning never deletes an object of today's partition. |
| OneShot.ExitZeroArchived | new_wal.py:151-159 | When the segment's name is a plain file name and no queued file has that name, exit status 0 means the segment was archived: it is in the store under today's key with its content, or it is in the queue with its content and modification time. This is what PostgreSQL assumes before it recycles the segment. |
| OneShot.QueuedTwinReplacesSegment | new_wal.py:88-96 | The excluded case: a queued file with the segment's name, dated today and with other content, is put under the segment's key after the upload and removed. With every request answered the script exits 0, but the segment's content is neither in the store nor in the queue. |
| OneShot.MissingImportLosesFallback | archive_command.py:63-67 | As written, the first connectivity error kills the script with status 1, and no fallback copy is made. |
| OneShot.FixedImportFallsBack | archive_command.py:58-71 | With `time` imported, three connectivity errors end in a fallback copy of the segment and exit 0. |
| WalScan.TodaysWalFiles | wal.py:7-26 | The names returned are exactly the listed entries with a 24-character name starting `0000` and today's modification date, each once, in listing order. |
| WalScan.Report | wal.py:28-39 | No names print only the "No WAL files" line. Otherwise the count line comes first, then the list header, then every name in order. |
| WalScan.ReportCount | wal.py:34 | The number in the count line reads back as the number of names. |

## Left out

- The boto3 client and its protocol are not modelled. `upload_file`, `list_objects_v2`, `delete_objects` and the paginator are operations on the abstract store. A store answer is `Ok`, a connectivity error or another error.
- A listing is a snapshot of the keys present when it starts. Continuation tokens make later pages independent of deletes made in between.
- Per-key errors inside a successful `delete_objects` answer are not modelled. That call is all or nothing.
- `time.sleep` is modelled only as whether it can be called. The daemon's endless loop and its ten-minute wait are outside the model, which covers one iteration with `ozone_down` as part of the state.
- Logging, `chmod`/`chown` of the queue directory, and `sys.argv` beyond the argument count are not modelled. `sys.exit` is modelled only through its status.
- The wall clock, `os.path.getmtime` and `os.listdir` order are inputs. Times are local naive `datetime`s; time zones and the float timestamp conversion are not modelled.
- `os.rename`, `shutil.copy2`, `os.remove` and `os.makedirs` are modelled as succeeding or failing as an input says. A failed rename, and a failed removal in the daemon, is only logged, as in the source. A failed removal in the one-shot drain stops the drain. A failed `os.makedirs` of the missing queue directory kills the one-shot script. The `os.chown` after it is taken to succeed.
- The daemon's start-up, `ensure_local_backup_dir`, is outside the modelled iteration: the backup directory is taken to exist.
- `strptime` accepts only ASCII digits here. Python also accepts other Unicode decimal digits; that is not modelled.
- hs2_anlyzer.py: the two regular expressions are an abstract classifier of each line, and the `UNION ALL` count is a function of the query. The CSV, JSON and gzip I/O, `parse_errors`, `build_summary` and its float averages, and `isoformat`/`fromisoformat` are not modelled. A record keeps its instants directly, and the hour key is taken from them.
- Hs2.Truncate: `max_query_len` is taken as given, and a negative limit follows Python's slicing from the end.
- Ranger.MoveRoles: only string names are folded. Python also folds names of other hashable types that compare with each other, such as `groups: [1, 2]` or a lone `null`, and writes them back sorted. The model raises `TypeError` for any name that is not a string. Ranger exports name roles and groups by strings.
- Ranger.AsWrittenGrantFails: a non-empty access list always raises `KeyError` in the model. In Python an access that is not an object raises `TypeError` instead, and an access that carries its own `accesses` list would be read through it. Ranger accesses are objects with `type` and `isAllowed` members only.
- RoleImport.PrepareRole: the exception kind follows thread.py. In new.py a list role without an `"id"` element passes the membership test and raises `AttributeError` at `role_data.get`, where the model says `TypeError`, as new.py does for a list that contains `"id"` (at the `del`); both scripts print only the message, so the kind is not observable beyond the log.
- JSON numbers are integers. Floats, and the identity of Python objects mutated in place, are not modelled. Each rewrite returns the new value.
- policy_export.py and thread.py send their posts from a thread pool. Only the sequential tally is modelled, because it does not depend on completion order.
- Each post's outcome is an input to the model: either a status code (with the response text, for the role import) or a request exception. The HTTP session's connect and status retries (policy_export.py:16-23) and the authentication are seen only through that outcome. So a status the retries answered last, or the exception they gave up with, is what the model receives.
- Calendar.Format: follows the `%Y` of Python's documentation, a year zero-padded to four digits (0001-9999). CPython on glibc writes years below 1000 without padding (`1-01-01`), and that platform behaviour is not modelled. For dates before the year 1000, `Calendar.ParseFormat`, `Calendar.FormatParse`, `Calendar.FormatOrder`, `Daemon.OldTokenMeaning` and `Hs2.RenderParse` therefore describe the documented rendering and not glibc's. WAL timestamps and partition tokens are never that early.
- ranger_policyupdate.py: fetching the policy, the PUT and the CSV reading are not modelled. The model covers the update of the fetched policy only.
- The Impala reports, Spark and Hive jobs, download helpers, keystore and REST glue scripts, `fixed_policies.py` and `newsql.py` are not part of this model. They are outside the archiving and rewriting logic.

## Findings

| source | as written | input that shows it | evidently intended | confidence | as-written member | corrected member |
|---|---|---|---|---|---|---|
| archive_command.py:63-67 | `time.sleep` is called after a connectivity error, but `time` is never imported | Any invocation whose first put meets a connectivity error dies with a `NameError` before any fallback copy is made | Retry up to three times, then copy the segment into the queue and exit 0 | not executed | OneShot.MissingImportLosesFallback | OneShot.FixedImportFallsBack |
| push_pg_wal_to_ozone.py:50 | `s3_client` is used but never assigned, so every upload fails with a `NameError` that the generic handler treats as a failure | Any WAL directory with an eligible segment, whatever the store answers: the segment is moved to the backup directory and never stored | Bind a client so that reachable uploads succeed | not executed | Daemon.UnboundClientArchivesNothing | Daemon.BoundClientStores |
| push_pg_wal_to_ozone.py:77 | The drain looks up a backup file's modification time in the WAL directory, outside the `try` | A backup file whose name is no longer in the WAL directory raises `FileNotFoundError`, and the daemon dies | Read the modification time of the backup file itself | not executed | Daemon.BackupOnlyFileKills | Daemon.RetryArchives |
| push_pg_wal_to_ozone.py:154-155 | `ozone_down` is only updated while uploading new segments, and the cleanup deletes old backup files whether or not they were uploaded | With a bound client and the lookup repaired: store unreachable, no new segment, and one backup file older than seven days that is not stored. The file is deleted | Never delete a backup file that has not reached the store | not executed | Daemon.StaleFlagLosesSegment | Daemon.StaleFlagRepaired |
| push_pg_wal_to_ozone.py:111 | The partition prefix is listed without its trailing '/' | An old partition `wal_backups/2020-01-01/` and an object `wal_backups/2020-01-01.json`: both are deleted | Delete only the objects inside the partition | not executed | Daemon.SiblingDeleted | Daemon.SiblingKept |
| ranger_policyupdate.py:34 | The generator rebinds `item` to an access and then indexes it with `["accesses"]` | A policy whose `etl` item has the access `read`, updated with `w` for `etl`: `KeyError` | Collect the types of the item's accesses | not executed | Ranger.ExistingTypesMisread | Ranger.ExistingTypesRead |
| ranger_policyupdate.py:35-37 | The set of existing types is not updated while appending | The column `rr` for an item with no accesses: `read` is appended twice | Append each missing permission once | not executed | Ranger.RepeatedPermAppendedTwice | Ranger.RepeatedPermAppendedOnce |
