# Listing fetcher of an S3 bucket browser, in Dafny

This project models the core of a single-page viewer for S3 buckets: the **listing fetcher**.
The fetcher pages through a bucket's `ListObjectsV2` listing one directory level at a time and
keeps the raw pages in a per-directory cache in the browser's local storage. It expires the cache
after a TTL. It answers `get(start, end)` row ranges out of fixed-size pages, and it folds the
size, child count and latest modification time of a whole directory tree out of the caches of
its subdirectories. Two revisions are modelled:

- **`Fetcher`** (`src/s3/fetcher.tsx`), the live revision. Its `LastModified` has three states,
  `undefined` < `null` < a time, and a string TTL goes through `parseDuration`.
- **`S3Fetcher`** (`src/s3fetcher.tsx`), the earlier revision. Its `LastModified` has two states.
  It parses the TTL inline, overwrites metadata unconditionally and adds `fileMetadata`.

Alongside the fetcher sit the smaller pure pieces the viewer relies on:

- the query-parameter codecs (`src/search-params.tsx`);
- the path helpers `basename` and `stripPrefix` (`src/utils.tsx`);
- the bucket, key, ancestor, endpoint and key-URL derivations of `useS3Location`
  (`src/s3/location.tsx`);
- the page-number text `toPageIdxStr` (`src/pagination.tsx`).

Modules, one file each:

| file | module | what it holds |
|---|---|---|
| `wrappers.dfy` | `Wrappers` | `Option`, `Result` |
| `text.dfy` | `Text` | the JavaScript string operations used: `split`/`join` on one character, `lastIndexOf`, the one-slash `replace`s, integer `toString`, `parseInt` |
| `utils.dfy` | `Utils` | `basename`, `stripPrefix` |
| `pagination.dfy` | `Pagination` | `toPageIdxStr` |
| `search_params.dfy` | `SearchParams` | `returnDefaultOrError` and the five codecs |
| `location.dfy` | `Location` | the derivations of `useS3Location` |
| `listing.dfy` | `Listing` | what both fetcher revisions share: raw pages, `Page`/`Dir`/`File`, `get`'s arithmetic, the chain of page requests and its guard, the cache record, the page merge of `nextPage`, the TTL check, the store, `dirs()` and `clearCache()` as functions |
| `fetcher.dfy` | `Fetcher` | the live revision: metadata and `combineMetadata`, `parseDuration`, the `Fetcher` class |
| `s3fetcher.dfy` | `S3Fetcher` | the earlier revision: its metadata, TTL text, `checkCacheTtl` as written, `fileMetadata`, the `S3Fetcher` class |

The folds and walks over metadata (`FoldFiles`, `FoldDirs`, `PageValue`, `PagesF`, `DirsF`,
`FoldsAgree`, `PagesFoldLeft` and the rest) appear in both `fetcher.dfy` and `s3fetcher.dfy`.
This is deliberate: they are built on each revision's own `Metadata` and `combineMetadata`,
whose `LastModified` types differ. Everything that does not depend on metadata is in `Listing`
and shared.

How the stateful parts are modelled:

- A fetcher is a class. Its fields `cache` and `pagePromises` change in place.
- The local storage is a `Store` object shared by a fetcher and every child fetcher it creates.
  The store holds a map from a `Scope` (bucket and key) to a cache.
- The listing service is a function from bucket, prefix, page size and page index to a raw page,
  or to the error the request was rejected with.
- A page request is its settled outcome. `Valid()` says the requests made so far are the first
  entries of `Chain`, the sequence of outcomes that requesting page after page produces.
- Every method that reads the clock takes the current time `now` as a parameter.
- Each method that walks the directory tree is proved equal to a function that computes the same
  walk: `CheckF`, `ReduceF`, `PagesF`, `DirsF`, `ChildF` and `ClearF`. The properties are then
  proved about those functions.

## Model

| member | source | states |
|---|---|---|
| Listing.NormDir | src/s3/fetcher.tsx:55-60 | `Dir` throws exactly when `Prefix` is missing; otherwise the prefix loses exactly one trailing `/`, or is kept when it has none |
| Listing.NormFile | src/s3/fetcher.tsx:48-53 | `File` throws exactly when `Key`, `LastModified` or `Size` is missing, and otherwise keeps the three fields |
| Listing.NormDirs | src/s3/fetcher.tsx:33 | mapping `Dir` fails exactly when `Dir` fails on some prefix (one without `Prefix`); otherwise it keeps length and order, entry by entry |
| Listing.NormFiles | src/s3/fetcher.tsx:34 | mapping `File` fails exactly when some object does; otherwise it keeps length and order, entry by entry |
| Listing.NormPage | src/s3/fetcher.tsx:32-36 | an absent page or absent arrays read as empty; the page normalises exactly when its prefixes and objects do, with the directories and files in listing order |
| Listing.Rows | src/s3/fetcher.tsx:206-207 | a page's rows are its directories, then its files, each in order |
| Listing.RowsCount | src/s3/fetcher.tsx:465-467 | a normalising page has as many rows as the entries `nextPage` counts |
| Listing.FloorDiv | src/s3/fetcher.tsx:194 | `floor(start / pageSize)` is the page holding row `start` |
| Listing.CeilDiv | src/s3/fetcher.tsx:195 | `ceil(end / pageSize)` is the first page starting at or after `end` |
| Listing.JsSlice | src/s3/fetcher.tsx:208 | `slice` with non-negative bounds takes the clamped contiguous part, never longer than `b - a` |
| Listing.Window | src/s3/fetcher.tsx:203-208 | a page's slice holds, in order, rows of the page from `max(start - pageStart, 0)` on, all at or after `start`; when the page starts no later than `end`, exactly the rows before `end` and before `pageSize` |
| Listing.Settled | src/s3/fetcher.tsx:198-212 | every page request that is a promise settles to its page or its error, in request order |
| Listing.Assemble | src/s3/fetcher.tsx:196-212 | `.then` on an `undefined` request (a negative page index) throws a `TypeError` |
| Listing.AssembleFromLength | src/s3/fetcher.tsx:203-208 | slices of consecutive pages that start before `end` hold at most the rows of `[max(start, first page start), end)` |
| Listing.GetLength | src/s3/fetcher.tsx:192-213 | `get(start, end)` returns at most `end - start` rows |
| Listing.WindowSlice | src/s3/fetcher.tsx:203-208 | a page's slice `[max(start - pageStart, 0), min(end - pageStart, pageSize))` is the contiguous part of its rows inside `[start, end)` |
| Listing.AssembleFromWindow | src/s3/fetcher.tsx:196-212 | when every page settled, normalises and is full except the last, the concatenated slices are exactly rows `[start, end)` of the concatenated pages |
| Listing.AssembleFromWindowStep | src/s3/fetcher.tsx:212 | a full first page's slice followed by the window of the later pages is the window of all of them |
| Listing.AssembleWindow | src/s3/fetcher.tsx:192-213 | when every page of `[floor(start/ps), ceil(end/ps))` came back full, the assembled rows are exactly the window `[start, end)` of the listing |
| Listing.GuardAsWrittenNeverContinues | src/s3/fetcher.tsx:433-444 | for every page S3 can send, the as-written guard refuses to continue; the corrected guard continues exactly after truncated pages |
| Listing.GuardAsWrittenRefusesSecondPage | src/s3/fetcher.tsx:437-441 | a truncated first page with token `"t"`: as written the second page is refused, while the corrected guard requests it |
| Listing.Chain | src/s3/fetcher.tsx:430-462 | a request that succeeds yields the service's page for that index, and a request the service rejects fails |
| Listing.ChainOkIff | src/s3/fetcher.tsx:433-462 | page `i` is obtained exactly when its own request and every earlier request succeeded and every earlier page was truncated with a token |
| Listing.ChainErrCause | src/s3/fetcher.tsx:430-462 | a failed request fails with the first thing that went wrong: the service's error for the first rejected request, or the refusal to continue after the first page that cannot be continued from |
| Listing.ChainErrPersists | src/s3/fetcher.tsx:434-436 | once a request failed, every later request fails with the same error |
| Listing.ListPrefix | src/s3/fetcher.tsx:426 | the listing `Prefix` is empty for an empty key; otherwise it begins with the key, ends in `/` and is at most one character longer |
| Listing.ScopeOf | src/s3/fetcher.tsx:148-150 | the cache scope is the bucket and the key without one trailing `/`, with no key read as the bucket's root |
| Listing.Store.constructor | src/s3/fetcher.tsx:172 | the store starts with the given entries |
| Listing.Saved | src/s3/fetcher.tsx:215-220 | `saveCache` removes the scope's entry without a cache and writes it otherwise; other scopes are untouched |
| Listing.Checked | src/s3/fetcher.tsx:295-307 | the TTL check drops the cache exactly when `timestamp + ttl < now` (strict), and otherwise leaves it unchanged |
| Listing.CheckedIdempotent | src/s3/fetcher.tsx:300 | checking twice at one instant is checking once; a cache that survives a check survives every earlier one |
| Listing.Open | src/s3/fetcher.tsx:170-189 | a new fetcher holds the stored cache unless it has expired, in which case the entry is also removed from the store |
| Listing.Slot | src/s3/fetcher.tsx:313-318 | the cache holds a page at `i` exactly when `i in pages`, and then it is that page |
| Listing.OpenSlot | src/s3/fetcher.tsx:232-234 | a fetcher for a directory opens only that directory's stored cache, removes at most expired entries, and a hole opens nothing |
| Listing.SetSlot | src/s3/fetcher.tsx:473-479 | `pages[idx] = page` grows the array with holes up to `idx` and keeps every other slot |
| Listing.MergePage | src/s3/fetcher.tsx:471-490 | `nextPage`: the page lands at its index; the timestamp becomes the older one and never exceeds `now`; `numChildren` becomes `idx * pageSize + entries` exactly when the page is not truncated; the size and time are untouched |
| Listing.MergeKeepsOthers | src/s3/fetcher.tsx:479-484 | merging never makes a cache younger and leaves every other page in place |
| Listing.DigitRunStart | src/s3/fetcher.tsx:96 | the first digit of the text is found, with no digit before it |
| Listing.LineRest | src/s3/fetcher.tsx:96 | `.*` takes the longest prefix without a line terminator |
| Listing.MatchTtl | src/s3/fetcher.tsx:96-100 | the TTL match fails exactly when the text has no digit |
| Listing.MatchTtlOf | src/s3/fetcher.tsx:96-101 | for text without digits, then an amount, then a unit on one line that does not start with a digit, the match is that amount and that unit |
| Listing.PageSizeOf | src/s3/fetcher.tsx:151 | `pageSize \|\| 1000`: a positive page size is kept; a missing or zero one becomes 1000 |
| Listing.FromChain | src/s3/fetcher.tsx:315-324 | a request made through the chain is never `undefined`: it resolves to the page exactly when fetching succeeded, and otherwise rejects with the error |
| Listing.SliceIndex | src/s3/fetcher.tsx:208 | a `slice` bound lands in `[0, n]`, and a non-negative one is clamped to `n` |
| Listing.AssembleFromWindowLast | src/s3/fetcher.tsx:203-208 | the slice of a single last page is the window `[start, end)` of its rows |
| Listing.ClearChildrenShrinks | src/s3/fetcher.tsx:289 | clearing the children only removes store entries |
| Listing.PagesError | src/s3/fetcher.tsx:232 | `pages.map(Page)` fails exactly when some present page does not normalise |
| Listing.DirSlotsHoles | src/s3/fetcher.tsx:231-237 | `dirs()` has an `undefined` entry exactly when the cached pages have a hole |
| Listing.OpenAll | src/s3/fetcher.tsx:231-237 | the fetchers of `dirs()` open one cache per entry, and opening only removes expired entries from the store |
| Listing.ClearF | src/s3/fetcher.tsx:287-293 | `clearCache` does nothing without a cache; when it does not throw, it drops the cache and its store entry; when it throws, the cache is kept |
| Listing.ClearShrinks | src/s3/fetcher.tsx:287-293 | clearing only removes store entries and never writes one |
| Fetcher.CombineMtime | src/s3/fetcher.tsx:82-91 | the merged `LastModified` is one of its two sides and an upper bound of both in the order `undefined` < `null` < time |
| Fetcher.CombineMtimeLeast | src/s3/fetcher.tsx:82-91 | the merged `LastModified` is the least upper bound |
| Fetcher.Combine | src/s3/fetcher.tsx:68-93 | `combineMetadata` adds counts and sizes and takes the maximum `LastModified` |
| Fetcher.CombineCommutes | src/s3/fetcher.tsx:68-93 | `combineMetadata` is commutative |
| Fetcher.CombineAssociates | src/s3/fetcher.tsx:68-93 | `combineMetadata` is associative |
| Fetcher.CombineIdentity | src/s3/fetcher.tsx:68-93 | `{0, 0, undefined}` is its identity on both sides |
| Fetcher.CombineNulls | src/s3/fetcher.tsx:68-93 | two `null`s, or `null` with `undefined`, give `null`; the fold start `{0, 0, null}` is neutral for every value whose time is not `undefined` |
| Fetcher.ParseDuration | src/s3/fetcher.tsx:95-107 | text without a digit gives `undefined`, and any duration it returns is non-negative |
| Fetcher.ParseDurationOf | src/s3/fetcher.tsx:95-107 | for text without digits, then `n`, then a unit: `undefined` exactly when `n > 0` and the unit comes to no time, otherwise `n` units; so `"0…"` is a zero duration |
| Fetcher.ResolveTtl | src/s3/fetcher.tsx:178-188 | no TTL or empty text gives one day; a `Duration` is kept; other text goes through `parseDuration` and throws when that fails, the message already reading `undefined` |
| Fetcher.FoldFiles | src/s3/fetcher.tsx:382 | folding the files adds one child per file and never lowers the time (sizes and times: `Fetcher.FoldFilesTotals`) |
| Fetcher.FoldFilesTotals | src/s3/fetcher.tsx:339 | the fold of the files adds their sizes to the accumulator's; its time is at least every file's time, and is the accumulator's time or some file's |
| Fetcher.FoldDirs | src/s3/fetcher.tsx:338 | folding the metadata the directories reported counts one child per directory and never lowers the time |
| Fetcher.FoldDirsSnoc | src/s3/fetcher.tsx:338 | folding one more directory merges its value onto the fold so far |
| Fetcher.PageValueOfFiles | src/s3/fetcher.tsx:338-347 | `fn(dirs, files)` for a page counts its directories and files, its size is the directories' reported sizes plus the files' sizes, its time is defined and no earlier than any file's, and without directories it is exactly the files' fold |
| Fetcher.PageValueOfWalk | src/s3/fetcher.tsx:338-347 | `fn(dirs, files)` for any metadata the directories report, one each, is a value of the page |
| Fetcher.PageValueTotals | src/s3/fetcher.tsx:338-347 | conversely, every value of a page is `fn(dirs, files)` for some metadata its directories could report, one each |
| Fetcher.DirsFoldDirs | src/s3/fetcher.tsx:373-380 | a successful walk over a page's directories is the fold of the metadata they reported, one each |
| Fetcher.Known | src/s3/fetcher.tsx:260-264 | the cached metadata is used exactly when all three fields are defined |
| Fetcher.MaybeSaveF | src/s3/fetcher.tsx:242-256 | without a cache nothing changes; otherwise the cache takes the three values and keeps its pages and timestamp; the store changes only when some field changed, and then it holds the new cache |
| Fetcher.MaybeSaveTwice | src/s3/fetcher.tsx:248-252 | saving the same metadata again is the redundant case and changes nothing |
| Fetcher.ReduceF | src/s3/fetcher.tsx:367-369 | `reduceSync` gives `undefined` without a cache or before the number of children is known (the all-or-nothing walk after that is `Fetcher.ReduceUndefinedFromChild`) |
| Fetcher.DirsUndefinedFromChild | src/s3/fetcher.tsx:374-380 | the walk over a page's directories is `undefined` as soon as the next directory's metadata is, and only because some directory's metadata was |
| Fetcher.PagesUndefinedFromChild | src/s3/fetcher.tsx:371-386 | the walk over the pages is `undefined` as soon as the walk over the next page's directories is, and only because some directory on some page had no metadata |
| Fetcher.ReduceUndefinedFromChild | src/s3/fetcher.tsx:367-387 | `reduceSync` is all or nothing: a directory without metadata on the first page makes it `undefined`, and it is `undefined` only without a cache, before the count is known, or because some directory of some cached page had no metadata |
| Fetcher.PagesF | src/s3/fetcher.tsx:370-386 | a successful fold over the pages counts every directory and file of every page once, and never lowers the accumulator's time |
| Fetcher.DirsF | src/s3/fetcher.tsx:373-380 | a successful fold over a page's directories counts each directory once, and never lowers the time |
| Fetcher.ChildF | src/s3/fetcher.tsx:267-274 | a child fetcher beyond the depth bound yields the depth error and leaves the store alone |
| Fetcher.CheckF | src/s3/fetcher.tsx:258-265 | `checkMetadata` returns fully known cached metadata without touching anything |
| Fetcher.CheckMetadataCounts | src/s3/fetcher.tsx:258-285 | a computed result needs a cache whose count is known; its child count is the number of direct directories and files; its time is never `undefined`; the cache afterwards knows exactly that result |
| Fetcher.FoldsAgree | src/s3/fetcher.tsx:327-387 | when no page value has an `undefined` time, folding from the left onto `acc` equals merging `acc` with `reduce`'s fold from the right |
| Fetcher.ReduceMatchesReduceSync | src/s3/fetcher.tsx:327-387 | on page values with a time that is not `undefined`, `reduceSync`'s left fold from `{0, 0, null}` equals `reduce`'s right fold (tied to the actual walks by `Fetcher.ReduceSyncFoldsRight` and `Fetcher.Fetcher.Reduce`) |
| Fetcher.PagesFoldLeft | src/s3/fetcher.tsx:370-386 | when `reduceSync`'s walk from page `i` succeeds, its result is the left fold from `acc` of one value per page from `i` on, each counting the page's directories and files |
| Fetcher.PagesStep | src/s3/fetcher.tsx:371-385 | when the walk from page `i` succeeds, it is the walk from page `i + 1` with a value of page `i` folded in |
| Fetcher.ReduceSyncFoldsRight | src/s3/fetcher.tsx:327-387 | when `reduceSync` over a cache with pages succeeds, its result is the right fold, as `reduce` combines them, of one value per cached page |
| Fetcher.Fetcher.constructor | src/s3/fetcher.tsx:147-190 | the key loses one trailing `/`; the page size is `pageSize \|\| 1000`; the cache is the stored one after the TTL check; no page has been requested |
| Fetcher.Fetcher.SaveCache | src/s3/fetcher.tsx:215-223 | the store holds the cache under the scope, or no entry without a cache |
| Fetcher.Fetcher.CheckCacheTtl | src/s3/fetcher.tsx:295-307 | an expired cache is dropped and removed from the store; otherwise nothing changes; the cache is returned |
| Fetcher.Fetcher.NextPage | src/s3/fetcher.tsx:424-499 | appends exactly one request, for the next index; a fetched page is merged into the cache at that index and saved; a refused request changes neither cache nor store |
| Fetcher.Fetcher.GetPage | src/s3/fetcher.tsx:309-325 | a cached page is returned with nothing changed; otherwise the result is what the chain yields for that index; a negative index yields `undefined` and requests nothing |
| Fetcher.Fetcher.Get | src/s3/fetcher.tsx:192-213 | requests the pages `floor(start/ps)` to `ceil(end/ps) - 1` in order (fewer than none is a `RangeError`); each entry is `undefined` exactly for a negative index and otherwise the request for its own index or the page the cache held there (only the request without a cache); the result is the assembly of their slices, at most `end - start` rows, and over full pages exactly the rows `[start, end)` |
| Fetcher.Fetcher.GetPages | src/s3/fetcher.tsx:196-197 | `getPage` is called for each index `startPage + k` in order, and entry `k` is what `getPage` may return for that index |
| Fetcher.Fetcher.GetFacts | src/s3/fetcher.tsx:192-213 | for pages so sourced, `undefined` exactly at negative indices, only requests without a cache, at most `end - start` rows, and over full resolved pages the window `[start, end)` |
| Fetcher.Fetcher.MaybeSaveMetadata | src/s3/fetcher.tsx:242-256 | the cache and store end as `MaybeSaveF` says |
| Fetcher.Fetcher.CheckMetadata | src/s3/fetcher.tsx:258-285 | result, cache and store are those of `CheckF`; no page is requested |
| Fetcher.Fetcher.ReduceSync | src/s3/fetcher.tsx:361-387 | the two nested loops compute `ReduceF`, store included |
| Fetcher.Fetcher.DirMetadata | src/s3/fetcher.tsx:267-274 | the child fetcher's `checkMetadata` is `ChildF` |
| Fetcher.Fetcher.Dirs | src/s3/fetcher.tsx:225-240 | `undefined` without a cache or a known count; a page that does not normalise throws first; otherwise one new fetcher per directory in page order, an `undefined` entry per hole, each holding the cache it opened |
| Fetcher.Fetcher.SpawnAll | src/s3/fetcher.tsx:231-237 | the entries of `dirs()` are made in order, distinct and fresh, and the store ends as `OpenAll` says |
| Fetcher.Fetcher.Spawn | src/s3/fetcher.tsx:233-235 | one entry of `dirs()`: a fresh child fetcher for the directory's scope, or `undefined` for a hole |
| Fetcher.Fetcher.ClearCache | src/s3/fetcher.tsx:287-293 | result, cache and store are those of `ClearF` |
| Fetcher.Fetcher.ClearAll | src/s3/fetcher.tsx:289 | the `forEach` over `dirs()` ends as `ClearChildren` says; an `undefined` entry throws a `TypeError` |
| Fetcher.Fetcher.ComputeMetadata | src/s3/fetcher.tsx:389-411 | known size and time are returned as cached, with no child count and nothing changed; otherwise a result is the right fold of values of the pages `reduce` walked from page 0 (each sourced from the cache or its request, every one but the last truncated, each the page's `fn(dirs, files)`: its directories' reported sizes plus its files' sizes, and the latest time), with a defined time, and the cache, when there is one, knows it |
| Fetcher.Fetcher.Reduce | src/s3/fetcher.tsx:327-359 | a result is the right fold of values of the pages walked from `pageIdx` up to the first that is not truncated, each sourced from the cache or its request and each the page's `fn(dirs, files)`: its directories' reported sizes plus its files' sizes, and the latest time; its time is defined, the cache keeps only pages so sourced, and the `maybeSaveMetadata` callback has left the cache knowing exactly the result |
| Fetcher.Fetcher.ReducePage | src/s3/fetcher.tsx:335-358 | once page `pageIdx` is in: a page that does not normalise or a failed directory rejects; otherwise the result folds the walk that starts with this page, whose value is `fn(dirs, files)` for exactly the metadata its directories reported, and the cache knows it |
| Fetcher.Fetcher.ReduceRest | src/s3/fetcher.tsx:340-348 | `rest === undefined ? cur : fn(cur, rest)`: the page's value alone when it is not truncated, otherwise merged with the walk from the next page; the walk starts with this page and its value |
| Fetcher.Fetcher.DirResults | src/s3/fetcher.tsx:338 | the result is the fold of the size and time each directory's fetcher reported, one child per directory, with a defined time |
| Fetcher.Create | src/s3/fetcher.tsx:178-189 | an unparsable TTL throws and leaves the store alone; otherwise the fetcher has the resolved TTL and the cache left after the TTL check |
| S3Fetcher.CombineMtime | src/s3fetcher.tsx:81 | the merged `LastModified` is one of its sides and an upper bound of both, with `undefined` below every time |
| S3Fetcher.CombineMtimeLeast | src/s3fetcher.tsx:81 | the merged `LastModified` is the least upper bound |
| S3Fetcher.Combine | src/s3fetcher.tsx:67-83 | `combineMetadata` adds counts and sizes and takes the later time |
| S3Fetcher.CombineCommutes | src/s3fetcher.tsx:67-83 | commutative |
| S3Fetcher.CombineAssociates | src/s3fetcher.tsx:67-83 | associative |
| S3Fetcher.CombineIdentity | src/s3fetcher.tsx:67-83 | the fold start `{0, 0}` is the identity |
| S3Fetcher.Lift | src/s3fetcher.tsx:61-65 | earlier metadata read in the live revision's terms: counts and size kept; an absent time becomes `undefined` and is never `null` |
| S3Fetcher.CombineAgreesWithLive | src/s3fetcher.tsx:67-83 | read in the live revision's terms, the two revisions' `combineMetadata` agree, and the empty metadata lifts to the live identity |
| S3Fetcher.ParseTtl | src/s3fetcher.tsx:138-148 | no TTL or empty text gives one day; text throws with itself in the message exactly when it has no digit; a TTL is never negative |
| S3Fetcher.ParseTtlOf | src/s3fetcher.tsx:139-145 | text without digits, then `n`, then a unit gives `n` units, even a zero duration |
| S3Fetcher.UnknownUnitIsZeroTtl | src/s3fetcher.tsx:139-145 | a positive amount of a unit that comes to no time is a zero TTL here, where the live `parseDuration` refuses it |
| S3Fetcher.CheckedAsWritten | src/s3fetcher.tsx:247-258 | `timestamp.add(ttl)` as written: it decides like the intended check, but a surviving cache keeps a timestamp moved forward by the TTL |
| S3Fetcher.RepeatedCheckOutlivesTtl | src/s3fetcher.tsx:252 | a cache checked once within its TTL and again between one and two TTLs is kept as written and dropped as intended |
| S3Fetcher.RepeatedCheckExample | src/s3fetcher.tsx:252 | a cache from time 0 with TTL 10, checked at 5 and 15: kept with timestamp 20 as written, dropped as intended |
| S3Fetcher.FoldFiles | src/s3fetcher.tsx:380-381 | folding files adds one child per file and never lowers the time |
| S3Fetcher.FoldFilesTotals | src/s3fetcher.tsx:380-381 | the fold adds the files' sizes; its time is at least every file's time and is the accumulator's time or some file's |
| S3Fetcher.FoldDirs | src/s3fetcher.tsx:289 | folding the metadata the directories reported counts one child per directory and never lowers the time |
| S3Fetcher.FoldDirsSnoc | src/s3fetcher.tsx:289 | folding one more directory merges its value onto the fold so far |
| S3Fetcher.PageValueOfFiles | src/s3fetcher.tsx:289-298 | `fn(dirs, files)` for a page counts its directories and files, its size is the directories' reported sizes plus the files' sizes, its time is no earlier than any file's, and without directories it is exactly the files' fold |
| S3Fetcher.PageValueOfWalk | src/s3fetcher.tsx:289-298 | `fn(dirs, files)` for any metadata the directories report, one each, is a value of the page |
| S3Fetcher.PageValueTotals | src/s3fetcher.tsx:289-298 | conversely, every value of a page is `fn(dirs, files)` for some metadata its directories could report, one each |
| S3Fetcher.DirsFoldDirs | src/s3fetcher.tsx:324-331 | a successful walk over a page's directories is the fold of the metadata they reported, one each |
| Listing.SumSizes | src/s3fetcher.tsx:380-381 | no files sum to 0; with sizes that are not negative the sum is not negative and at least each file's size |
| S3Fetcher.Known | src/s3fetcher.tsx:204-208 | the cached metadata is used exactly when all three fields are defined |
| S3Fetcher.Overwrite | src/s3fetcher.tsx:225-231 | with a cache, the three fields are overwritten and the cache is saved, changed or not; pages and timestamp are kept; without a cache nothing changes |
| S3Fetcher.ReduceF | src/s3fetcher.tsx:318-320 | `undefined` without a cache or before the count is known (the all-or-nothing walk after that is `S3Fetcher.ReduceUndefinedFromChild`) |
| S3Fetcher.DirsUndefinedFromChild | src/s3fetcher.tsx:325-331 | the walk over a page's directories is `undefined` as soon as the next directory's metadata is, and only because some directory's metadata was |
| S3Fetcher.PagesUndefinedFromChild | src/s3fetcher.tsx:322-337 | the walk over the pages is `undefined` as soon as the walk over the next page's directories is, and only because some directory on some page had no metadata |
| S3Fetcher.ReduceUndefinedFromChild | src/s3fetcher.tsx:318-338 | `reduceSync` is all or nothing, as in the live revision |
| S3Fetcher.PagesF | src/s3fetcher.tsx:321-337 | a successful fold counts every directory and file once and never lowers the time |
| S3Fetcher.DirsF | src/s3fetcher.tsx:324-331 | a successful fold over the directories counts each once and never lowers the time |
| S3Fetcher.ChildF | src/s3fetcher.tsx:211-218 | beyond the depth bound a child yields the depth error and leaves the store alone |
| S3Fetcher.CheckF | src/s3fetcher.tsx:202-208 | fully known cached metadata is returned with nothing touched |
| S3Fetcher.CheckMetadataCounts | src/s3fetcher.tsx:202-237 | a computed result needs a cache whose count is known; it counts the direct directories and files; the cache holds the result and is saved under its scope; the cache knows it next time exactly when it has a time |
| S3Fetcher.FoldsAgree | src/s3fetcher.tsx:278-338 | folding from the left onto `acc` equals merging `acc` with `reduce`'s right fold, for any page values |
| S3Fetcher.ReduceMatchesReduceSync | src/s3fetcher.tsx:278-338 | `reduceSync`'s left fold from `{0, 0}` equals `reduce`'s right fold on any page values (tied to the actual walks by `S3Fetcher.ReduceSyncFoldsRight` and `S3Fetcher.S3Fetcher.Reduce`) |
| S3Fetcher.PagesFoldLeft | src/s3fetcher.tsx:321-337 | when the walk from page `i` succeeds, its result is the left fold from `acc` of one value per page from `i` on |
| S3Fetcher.PagesStep | src/s3fetcher.tsx:322-336 | when the walk from page `i` succeeds, it is the walk from page `i + 1` with a value of page `i` folded in |
| S3Fetcher.ReduceSyncFoldsRight | src/s3fetcher.tsx:278-338 | when `reduceSync` over a cache with pages succeeds, its result is the right fold of one value per cached page |
| S3Fetcher.AllFiles | src/s3fetcher.tsx:377 | the files of all pages, as many as the pages list |
| S3Fetcher.PagesFiles | src/s3fetcher.tsx:377-380 | a page that does not normalise throws first; otherwise a hole throws a `TypeError`; otherwise all files in order |
| S3Fetcher.S3Fetcher.constructor | src/s3fetcher.tsx:115-150 | the key loses one trailing `/`; the page size is `pageSize \|\| 1000`; the cache is the stored one after the TTL check; no page has been requested |
| S3Fetcher.S3Fetcher.SaveCache | src/s3fetcher.tsx:175-183 | the store holds the cache under the scope, or no entry without one |
| S3Fetcher.S3Fetcher.CheckCacheTtl | src/s3fetcher.tsx:247-258 | the check as intended: an expired cache is dropped and removed from the store; a live one is untouched |
| S3Fetcher.S3Fetcher.NextPage | src/s3fetcher.tsx:385-478 | appends exactly one request for the next index; a fetched page is merged at that index and saved; a refused one changes nothing else |
| S3Fetcher.S3Fetcher.GetPage | src/s3fetcher.tsx:260-276 | a cached page is returned with nothing changed; otherwise what the chain yields for that index; a negative index yields `undefined` |
| S3Fetcher.S3Fetcher.Get | src/s3fetcher.tsx:152-173 | the same pages, sourcing and slices as the live revision: `undefined` exactly at negative indices, only requests without a cache, at most `end - start` rows, and over full pages exactly the rows `[start, end)` |
| S3Fetcher.S3Fetcher.GetPages | src/s3fetcher.tsx:156-157 | `getPage` is called for each index `startPage + k` in order, and entry `k` is what `getPage` may return for that index |
| S3Fetcher.S3Fetcher.GetFacts | src/s3fetcher.tsx:152-173 | for pages so sourced, `undefined` exactly at negative indices, only requests without a cache, at most `end - start` rows, and over full resolved pages the window `[start, end)` |
| S3Fetcher.S3Fetcher.SaveMetadata | src/s3fetcher.tsx:226-231 | the cache and store end as `Overwrite` says |
| S3Fetcher.S3Fetcher.CheckMetadata | src/s3fetcher.tsx:202-237 | result, cache and store are those of `CheckF`; the throw for a result without a cache is unreachable |
| S3Fetcher.S3Fetcher.ReduceSync | src/s3fetcher.tsx:312-338 | the nested loops compute `ReduceF`, store included |
| S3Fetcher.S3Fetcher.DirMetadata | src/s3fetcher.tsx:211-218 | the child fetcher's `checkMetadata` is `ChildF` |
| S3Fetcher.S3Fetcher.Dirs | src/s3fetcher.tsx:185-200 | `undefined` without a cache or a known count; a page that does not normalise throws first; otherwise one new fetcher per directory in order, `undefined` per hole, the store ending as `OpenAll` says |
| S3Fetcher.S3Fetcher.SpawnAll | src/s3fetcher.tsx:191-197 | the entries of `dirs()` are made in order, fresh and distinct |
| S3Fetcher.S3Fetcher.Spawn | src/s3fetcher.tsx:193-195 | a fresh child for the directory's scope, or `undefined` for a hole |
| S3Fetcher.S3Fetcher.ClearCache | src/s3fetcher.tsx:239-245 | result, cache and store are those of `ClearF` |
| S3Fetcher.S3Fetcher.ClearAll | src/s3fetcher.tsx:241 | the `forEach` over `dirs()` ends as `ClearChildren` says |
| S3Fetcher.S3Fetcher.ComputeMetadata | src/s3fetcher.tsx:340-372 | known size and time are returned as cached; otherwise a result has a count, is the right fold of values of the pages `reduce` walked from page 0 (sourced, truncated but the last, each the page's `fn(dirs, files)`: its directories' reported sizes plus its files' sizes, and the latest time), and the cache, when present, holds it |
| S3Fetcher.S3Fetcher.Reduce | src/s3fetcher.tsx:278-310 | a result is the right fold of values of the pages walked from `pageIdx` up to the first that is not truncated, each sourced from the cache or its request and each the page's `fn(dirs, files)`: its directories' reported sizes plus its files' sizes, and the latest time; it has been written into the cache and saved under the scope |
| S3Fetcher.S3Fetcher.ReducePage | src/s3fetcher.tsx:286-309 | once page `pageIdx` is in: the result folds the walk that starts with this page, whose value is `fn(dirs, files)` for exactly the metadata its directories reported, and it has been written into the cache and saved |
| S3Fetcher.S3Fetcher.ReduceRest | src/s3fetcher.tsx:291-300 | the page's value alone when it is not truncated, otherwise merged with the walk from the next page; the walk starts with this page and its value |
| S3Fetcher.S3Fetcher.DirResults | src/s3fetcher.tsx:289 | the result is the fold of the size and time each directory's fetcher reported, one child per directory |
| S3Fetcher.S3Fetcher.FileMetadata | src/s3fetcher.tsx:374-383 | `undefined` without a cache; otherwise the errors of reading the pages' files, or one child per file, their sizes summed, and the latest of their times (none without files) |
| S3Fetcher.Create | src/s3fetcher.tsx:138-149 | text without a digit throws, leaving the store alone; otherwise the fetcher has the parsed TTL and the cache left after the TTL check |
| SearchParams.BoolRoundTrip | src/search-params.tsx:127-140 | every boolean survives encode then decode, whichever the default |
| SearchParams.BoolDecodeCases | src/search-params.tsx:135-140 | absent gives the default, `null` gives true, `''` gives false, anything else the default or the `Throw` error |
| SearchParams.MakeEnumParam | src/search-params.tsx:35-36 | the default is the given one or the first value; taking it from an empty list fails |
| SearchParams.FirstWithValue | src/search-params.tsx:40 | `find` by value: the first match, or none |
| SearchParams.FirstWithLabel | src/search-params.tsx:51 | `find` by label: the first match, or none |
| SearchParams.EnumArrayLookup | src/search-params.tsx:54 | the corrected item lookup only yields listed values |
| SearchParams.EnumRoundTrip | src/search-params.tsx:38-53 | with distinct labels, every listed value survives encode then decode |
| SearchParams.EnumEncodeDefault | src/search-params.tsx:39 | the default encodes to nothing |
| SearchParams.RecognisedListed | src/search-params.tsx:54 | every recognised item of an array is a listed value |
| SearchParams.EnumDecodeArray | src/search-params.tsx:54-62 | under `Default`/`Warn`, an array decodes to the last recognised item, or to the default when none is recognised |
| SearchParams.EnumArrayLabelMissedAsWritten | src/search-params.tsx:54 | as written, the label of a labelled entry is not recognised in an array, while the corrected lookup finds its value |
| SearchParams.EnumArrayLookupPlainAgrees | src/search-params.tsx:54 | for entries without labels, the as-written and corrected lookups agree |
| SearchParams.D2S | src/search-params.tsx:85 | `d2s[d]` is the label of the last entry with value `d`, or absent when none has it |
| SearchParams.S2D | src/search-params.tsx:86 | `s2d[s]` is the value of the last entry with label `s`, or absent when none has it |
| SearchParams.Labels | src/search-params.tsx:89 | one label per value |
| SearchParams.Dedup | src/search-params.tsx:112 | `new Set` keeps each element once, and no other |
| SearchParams.IndexOf | src/search-params.tsx:112 | the first occurrence of an element |
| SearchParams.DedupFirstOccurrenceOrder | src/search-params.tsx:112 | the distinct elements come in order of first occurrence |
| SearchParams.KnownValuesDropUnknown | src/search-params.tsx:96-109 | under `Default`/`Warn`, a string decodes to exactly the values of its known labels; unknown ones are dropped |
| SearchParams.LabelOfValue | src/search-params.tsx:85-86 | with distinct labels, looking up the label of a value gives the value back |
| SearchParams.KnownValuesOfLabels | src/search-params.tsx:96-109 | the labels of listed values decode to those values |
| SearchParams.MultiRoundTrip | src/search-params.tsx:88-109 | with distinct labels free of the delimiter, a non-empty list of listed values, or the default, survives encode then decode |
| SearchParams.MultiDecodeArray | src/search-params.tsx:111-112 | an array decodes to the union of what its items decode to, without repeats, in first-occurrence order |
| SearchParams.StringRoundTrip | src/search-params.tsx:162-176 | every string survives encode then decode |
| SearchParams.StringDecodeArray | src/search-params.tsx:169-173 | an array decodes to its last item, or to the default when it is empty or its last item is `null` |
| SearchParams.IntRoundTrip | src/search-params.tsx:178-192 | every integer survives encode then decode (within the safe-integer range; see Left out) |
| SearchParams.IntDefaults | src/search-params.tsx:178-192 | the default encodes to nothing; an array whose last item is empty or `null` decodes to the default |
| SearchParams.ReturnDefaultOrError | src/search-params.tsx:10-22 | `Default` and `Warn` return the given value; `Throw` fails, and only it |
| SearchParams.BoolEncode | src/search-params.tsx:128-134 | the default encodes as absent; otherwise `true` encodes as `null` (`?foo`) and `false` as `''` (`?foo=`) |
| SearchParams.BoolDecode | src/search-params.tsx:135-140 | decoding fails exactly under `Throw` for a value other than absent, `null` and `''` |
| SearchParams.EnumEncode | src/search-params.tsx:38-44 | the default encodes as absent; a listed value encodes as the label of an entry with that value; an unlisted one fails exactly under `Throw` and is otherwise absent |
| SearchParams.EnumDecode | src/search-params.tsx:45-63 | absent decodes to the default; any value decoded is the default or a listed value; only `Throw` fails |
| SearchParams.MultiEncode | src/search-params.tsx:88-90 | the default encodes as absent, anything else as one string |
| SearchParams.KnownValues | src/search-params.tsx:96-109 | the pieces of a string keep only known labels: failure exactly under `Throw` with some unknown label, and never more values than pieces |
| SearchParams.DecodeItems | src/search-params.tsx:111 | each array item is decoded on its own, one result per item; only `Throw` fails |
| SearchParams.MultiDecode | src/search-params.tsx:91-113 | absent decodes to the default; only `Throw` fails; an array decodes to distinct values |
| SearchParams.StringEncode | src/search-params.tsx:164 | the default encodes as absent, anything else as itself |
| SearchParams.StringDecode | src/search-params.tsx:165-174 | a string decodes to itself; otherwise the default or one of the array's items |
| SearchParams.IntEncode | src/search-params.tsx:180 | the default encodes as absent; anything else as text that `parseInt` reads back as the value |
| SearchParams.IntDecode | src/search-params.tsx:181-190 | a string is `parseInt` of it; absent or `null` is the default; an array gives the default or `parseInt` of its last item |
| Utils.Basename | src/utils.tsx:6-9 | `basename` has no `/`; it is the whole path when there is no `/`, else what follows the last `/` |
| Utils.StripPrefix | src/utils.tsx:11-17 | `k` is returned unchanged when its leading pieces are not `prefix`, including when `prefix` is longer |
| Utils.StripEmptyPrefix | src/utils.tsx:11-17 | stripping the empty prefix returns every key unchanged |
| Utils.StripPrefixOfJoin | src/utils.tsx:17 | stripping `p` from `join(p ++ rest)` gives `join(rest)` |
| Pagination.ToPageIdxStr | src/pagination.tsx:36-38 | a non-negative index is shown as `idx + 1`, a negative one as itself, and never as `"0"` |
| Pagination.ToPageIdxStrInjective | src/pagination.tsx:37 | different indices are shown differently (within the safe-integer range; see Left out) |
| Pagination.ParsePageIdxStr | src/pagination.tsx:37 | parsing the text of a non-negative index gives `idx + 1` |
| Text.LastIndexOf | src/utils.tsx:8 | `lastIndexOf` finds the last occurrence, and gives -1 exactly when there is none |
| Text.NatToString | src/pagination.tsx:37 | the decimal digits of `n`, with a leading `0` only for zero |
| Text.LeadingDigits | src/search-params.tsx:183 | the run of decimal digits stops at the first non-digit (a `0x` prefix is read in hexadecimal by `Text.Magnitude` instead) |
| Text.Magnitude | src/search-params.tsx:183 | after the sign, a number is read exactly when a `0x`/`0X` prefix is followed by a hexadecimal digit, or otherwise the text starts with a decimal digit |
| Text.ParseInt | src/search-params.tsx:183 | `parseInt` without a radix: skips leading white space, reads a sign and a hexadecimal or decimal number; `NaN` exactly when no digit follows; the sign of the result follows the `-`; after a `-` the result is minus the magnitude, and otherwise it is the magnitude |
| Text.ParseIntSkipsSpace | src/search-params.tsx:183 | a leading white-space character, from the full ECMAScript set, does not change the result |
| Text.ParseIntOfHex | src/search-params.tsx:183 | `0x` and a run of hexadecimal digits read as the run's value, whatever non-digit follows the run |
| Text.ParseIntOfNegativeHex | src/search-params.tsx:183 | `-0x` and a run of hexadecimal digits read as minus the run's value |
| Text.ParseIntOfDigits | src/search-params.tsx:183 | a run of decimal digits reads as its value |
| Text.ParseIntOfLeadingDigits | src/search-params.tsx:183 | a run of decimal digits, not starting `0x`, followed by nothing or a non-digit reads as the run's value (`"12abc"` is 12) |
| Text.LeadingDigitsOf | src/search-params.tsx:183 | the decimal run of digits followed by a non-digit is exactly those digits |
| Text.ParseIntOfPlus | src/search-params.tsx:183 | a `+` in front of a number does not change it (`"+7"` is 7) |
| Text.IntToString | src/search-params.tsx:180 | `toString` of an integer is a `-` exactly for a negative number, followed by decimal digits only |
| Text.Join | src/utils.tsx:17 | joining no pieces is empty, one piece is itself, and more pieces start with the first piece followed by the separator |
| Text.Split | src/utils.tsx:12 | `split` yields at least one piece and no piece holds the separator |
| Text.JoinSplit | src/utils.tsx:12-17 | joining a split gives the string back |
| Text.SplitJoin | src/utils.tsx:12-17 | splitting a join of separator-free pieces (not the lone empty piece) gives the pieces back |
| Text.ParseIntOfIntToString | src/search-params.tsx:180-183 | `parseInt` of an integer's `toString` is the integer (within the safe-integer range; see Left out) |
| Text.IntToStringInjective | src/pagination.tsx:37 | `toString` is injective on integers |
| Location.PathUnwraps | src/s3/location.tsx:82 | `path` drops one trailing and then one leading `/` |
| Location.Path | src/s3/location.tsx:82 | an absent path is empty; otherwise the path loses at most one character at each end and is a contiguous part of it starting at index 0 or 1 |
| Location.PathPieces | src/s3/location.tsx:83 | no path piece holds a `/` |
| Location.PathPiecesJoin | src/s3/location.tsx:83 | the pieces join back into the prefix, then `/`, then the path |
| Location.Resolve | src/s3/location.tsx:81-89 | a bucket known from the URL keeps all pieces as the key; otherwise the first piece is the bucket and the rest the key, and the bucket is the URL's root exactly then |
| Location.Endpoint | src/s3/location.tsx:91-104 | the three endpoint forms, and the throw exactly when the hostname's bucket differs from the resolved one |
| Location.Ancestors | src/s3/location.tsx:120-129 | one entry more than the key pieces, starting with the bucket and the empty key |
| Location.AncestorsPrefix | src/s3/location.tsx:120-129 | the trail of a prefix of the pieces is a prefix of the trail |
| Location.LastAncestorKey | src/s3/location.tsx:124-126 | the last key is the pieces joined with `/`, leading empty pieces aside |
| Location.AncestorKeys | src/s3/location.tsx:120-129 | entry `i` is named after piece `i - 1` and keyed by the first `i` pieces joined |
| Location.LastAncestorIsKey | src/s3/location.tsx:120-129 | without a leading empty piece, the last ancestor is the key |
| Location.UseS3Location | src/s3/location.tsx:72-139 | the key is the pieces joined; the trail has one entry more than the pieces, starting at the bucket; no piece holds `/` |
| Location.KeySplitsToPieces | src/s3/location.tsx:107 | splitting a non-empty key list's key gives its pieces back |
| Location.KeyUrl | src/s3/location.tsx:131-139 | `/bucket/key` at the bucket root; `/` and the stripped key under a path prefix; `/key` otherwise |
| Location.KeyUrlRoundTripBucketRoot | src/s3/location.tsx:131-133 | at the bucket root, following a key's URL leads back to the same bucket and key |
| Location.BucketUrlRoundTrip | src/s3/location.tsx:131-133 | the bucket's own URL leads back to it and the empty key |
| Location.KeyUrlRoundTripUnderBucket | src/s3/location.tsx:131-133 | a non-empty key's URL under the bucket leads back to it |
| Location.KeyUrlRoundTripPlain | src/s3/location.tsx:131-139 | on a host naming the bucket, with no path prefix, a key without end slashes round-trips |

## Left out

- The AWS SDK and the network (`listObjectsV2`, `makeUnauthenticatedRequest`, region, Cognito and credential configuration, `endpoint`/`s3BucketEndpoint`) are foreign calls. The listing service is a function parameter.
- The live constructor's throw when both `IdentityPoolId` and `credentials` are given (src/s3/fetcher.tsx:160-163) is credential configuration and is not modelled.
- Promise concurrency is not modelled. The model is sequential: a page request is its settled outcome, and `reduce`'s `Promise.all` fan-out runs in order. `cacheCb` is left out.
- Local storage's JSON serialisation is not modelled. The store is a map of caches. A hole in `pages` would come back from JSON as `null`, and the model keeps it a hole.
- `moment` is not modelled. Times and durations are integer milliseconds, the clock is a `now` parameter, and `moment.duration(n, unit)` is an abstract table of unit lengths.
- Console logging is left out.
- Recursion into subdirectories (`checkMetadata`, `computeMetadata`, `clearCache`) carries a `fuel` bound. A walk deeper than the fuel ends with a `DepthExhausted` error that the source does not have.
- Fetcher.Fetcher.Reduce: also spends one unit of fuel on every truncated page, so a flat directory with more pages than the fuel fails with `DepthExhausted`.
- S3Fetcher.S3Fetcher.Reduce: spends fuel per truncated page in the same way.
- Fetcher.Fetcher.MaybeSaveMetadata: compares `LastModified` by value. The source compares `Moment` objects by reference, so two equal times read from different places count as a change there.
- Fetcher.Fetcher.ComputeMetadata: states the result as the fold of the pages walked, each page's value being its files' sizes and times together with the size and time each directory's child fetcher reported. Those reported values are not stated as a function of the subtree. A child fetcher's `computeMetadata` goes through `getPage`, which changes request state, so it is not a pure walk of the store.
- S3Fetcher.S3Fetcher.ComputeMetadata: likewise, the directories' reported sizes and times are not tied to their subtrees.
- S3Fetcher.S3Fetcher.CheckCacheTtl: follows the intended check. The as-written `timestamp.add` is modelled separately in `S3Fetcher.CheckedAsWritten` (see Findings).
- Fetcher.Fetcher.NextPage and S3Fetcher.S3Fetcher.NextPage: use the corrected continuation guard. The as-written guard is `Listing.CanContinueAsWritten` (see Findings).
- SearchParams.EnumDecode: its array branch uses the corrected label lookup, not `values.find(d => d == v)` as written (see Findings; the as-written lookup is `SearchParams.EnumArrayLabelMissedAsWritten`).
- JavaScript numbers are modelled as unbounded integers. Above 2^53 they are not exact, and `toString` switches to exponent form at 1e21 (`(1e21).toString()` is `"1e+21"`, which `parseInt` reads as 1). So the following hold in the source only for safe integers.
- SearchParams.IntRoundTrip: holds in the source only for integers of magnitude below 2^53.
- Text.ParseIntOfIntToString: holds in the source only for integers of magnitude below 2^53.
- Pagination.ToPageIdxStrInjective: holds in the source only below 2^53 (indices 2^53 - 1 and 2^53 both show as `"9007199254740992"`).
- SearchParams.S2D: `s2d` and `d2s` are plain objects, so a label such as `constructor`, `toString` or `__proto__` that no entry has still finds a value inherited from `Object.prototype` there. The model treats such a label as unknown.
- SearchParams.KnownValues: an inherited name such as `toString` in the decoded string is dropped (or throws under `Throw`) in the model. In the source it resolves to the inherited member and is kept.
- SearchParams.KnownValuesDropUnknown: holds in the source only when no piece is the name of an `Object.prototype` member.
- SearchParams.MakeMultiParam: the delimiter is one character. The source takes any string, and an empty or multi-character delimiter splits and joins differently.
- SearchParams.MultiEncode and SearchParams.MultiDecode: they join and split on that one character.
- `parseInt("-0")` is `-0` in the source; the model has no negative zero and gives 0.
- The `S3 client not initialized` throw in `nextPage` cannot happen once the constructor has run, and is not modelled.
- `buildQueryString`, `parseS3LocationInfo`, the React components and hooks, `src/size.tsx` (floating-point formatting) and the build scripts are outside this model.

## Findings

| source | as written | input that shows it | evidently intended | confidence | as-written member | corrected member |
|---|---|---|---|---|---|---|
| src/s3/fetcher.tsx:437 (and src/s3fetcher.tsx:398) | `nextPage` throws when `last.IsTruncated \|\| !last.NextContinuationToken`, so it refuses to continue after a truncated page | a first page with `IsTruncated: true` and `NextContinuationToken: "t"`: the request for page 1 is refused | throw when the previous page is NOT truncated or has no token | not executed | Listing.CanContinueAsWritten, Listing.GuardAsWrittenNeverContinues, Listing.GuardAsWrittenRefusesSecondPage | Listing.CanContinue, Listing.ChainOkIff |
| src/search-params.tsx:54 | an array item is compared with the raw `values` entries by `==`; a `[value, label]` entry compares as the string `"value,label"`, and the entry itself would be returned | `values = [["a", "A"]]` and the array `["A"]`: nothing is recognised | look items up by label and return the value, as the string branch does | not executed | SearchParams.EnumArrayLabelMissedAsWritten | SearchParams.EnumArrayLookup, SearchParams.EnumDecodeArray |
| src/s3fetcher.tsx:252 | `timestamp.add(ttl)` moves the cache's own timestamp forward on every check it survives | a cache from time 0 with a TTL of 10, checked at 5 and again at 15: it is still kept, with timestamp 20 | compare a copy, as the live revision does with `timestamp.clone().add(ttl)` | not executed | S3Fetcher.CheckedAsWritten, S3Fetcher.RepeatedCheckOutlivesTtl, S3Fetcher.RepeatedCheckExample | Listing.Checked, Listing.CheckedIdempotent |
