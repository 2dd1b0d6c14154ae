/** The earlier revision of the listing fetcher (`src/s3fetcher.tsx`): the same paging and caching
    as the live one, with a modification time that is either a time or absent, a TTL read only from
    text, metadata written into the cache unconditionally, and `fileMetadata`. */
module S3Fetcher {
  import opened Wrappers
  import opened Text
  import opened Listing
  import Fetcher

  // ---------------------------------------------------------------- metadata and its merge

  /** The order `combineMetadata` takes the maximum over: an absent time below every time. */
  predicate MtimeLe(a: Option<Time>, b: Option<Time>)
  {
    a.None? || (b.Some? && a.value <= b.value)
  }

  /** The `LastModified` of `combineMetadata`: the later of two times, and a time over an absent
      one. */
  function CombineMtime(l: Option<Time>, r: Option<Time>): (m: Option<Time>)
    ensures MtimeLe(l, m) && MtimeLe(r, m)
    ensures m == l || m == r
  {
    if l.None? then r
    else if r.None? then l
    else if l.value > r.value then l
    else r
  }

  /** The order is total, so the merge is the least upper bound of its two sides. */
  lemma CombineMtimeLeast(l: Option<Time>, r: Option<Time>, m: Option<Time>)
    requires MtimeLe(l, m) && MtimeLe(r, m)
    ensures MtimeLe(CombineMtime(l, r), m)
  {
  }

  /** The order on modification times is transitive. */
  lemma MtimeLeTrans(a: Option<Time>, b: Option<Time>, c: Option<Time>)
    requires MtimeLe(a, b) && MtimeLe(b, c)
    ensures MtimeLe(a, c)
  {
  }

  datatype Metadata = Metadata(numChildren: int, totalSize: int, lastModified: Option<Time>)

  /** `combineMetadata`: counts and sizes add, modification times take the maximum. */
  function Combine(a: Metadata, b: Metadata): (r: Metadata)
    ensures r.numChildren == a.numChildren + b.numChildren
    ensures r.totalSize == a.totalSize + b.totalSize
    ensures MtimeLe(a.lastModified, r.lastModified) && MtimeLe(b.lastModified, r.lastModified)
    ensures r.lastModified == a.lastModified || r.lastModified == b.lastModified
  {
    Metadata(a.numChildren + b.numChildren, a.totalSize + b.totalSize, CombineMtime(a.lastModified, b.lastModified))
  }

  /** What every fold of this revision starts from: nothing counted, no modification time. */
  const Zero := Metadata(0, 0, None)

  lemma CombineCommutes(a: Metadata, b: Metadata)
    ensures Combine(a, b) == Combine(b, a)
  {
  }

  lemma CombineAssociates(a: Metadata, b: Metadata, c: Metadata)
    ensures Combine(Combine(a, b), c) == Combine(a, Combine(b, c))
  {
  }

  lemma CombineIdentity(a: Metadata)
    ensures Combine(Zero, a) == a && Combine(a, Zero) == a
  {
  }

  /** The same metadata in the live revision's terms: an absent time is `undefined` there. */
  function Lift(m: Metadata): (r: Fetcher.Metadata)
    ensures r.numChildren == m.numChildren && r.totalSize == m.totalSize
    ensures r.lastModified.Null? == false
    ensures m.lastModified.None? <==> r.lastModified.Unknown?
    ensures m.lastModified.Some? ==> r.lastModified == Fetcher.At(m.lastModified.value)
  {
    Fetcher.Metadata(m.numChildren, m.totalSize, if m.lastModified.None? then Fetcher.Unknown else Fetcher.At(m.lastModified.value))
  }

  /** The two revisions merge alike: the live one only adds `null` between absent and a time. */
  lemma CombineAgreesWithLive(a: Metadata, b: Metadata)
    ensures Lift(Combine(a, b)) == Fetcher.Combine(Lift(a), Lift(b))
    ensures Lift(Zero) == Fetcher.Zero
  {
  }

  // ---------------------------------------------------------------- the TTL

  /** The constructor's `ttl` text: one day when absent or empty; otherwise the first run of digits
      is the amount and what follows it on its line the unit, and text without a digit throws with
      the text in the message. A unit `moment` does not know comes to no time, and is accepted. */
  function ParseTtl(ttl: Option<string>, units: UnitTable): (r: Result<Time, Error>)
    ensures ttl.None? || ttl == Some("") ==> r == Ok(DefaultTtl)
    ensures ttl.Some? && ttl.value != "" ==> (r.Err? <==> forall i :: 0 <= i < |ttl.value| ==> !IsDigit(ttl.value[i]))
    ensures r.Err? ==> ttl.Some? && r.error == UnrecognizedTtl(ttl.value)
    ensures r.Ok? ==> r.value >= 0
  {
    if ttl.None? || ttl.value == "" then Ok(DefaultTtl)
    else
      var m := MatchTtl(ttl.value);
      if m.None? then Err(UnrecognizedTtl(ttl.value))
      else Ok(m.value.0 * units(m.value.1))
  }

  /** Text without digits, then an amount, then a unit name: that amount of that unit, even when
      the unit comes to no time. */
  lemma ParseTtlOf(p: string, n: nat, u: string, units: UnitTable)
    requires forall i :: 0 <= i < |p| ==> !IsDigit(p[i])
    requires forall i :: 0 <= i < |u| ==> !IsLineTerminator(u[i])
    requires |u| == 0 || !IsDigit(u[0])
    ensures ParseTtl(Some(p + NatToString(n) + u), units) == Ok(n * units(u))
  {
    MatchTtlOf(p, n, u);
  }

  /** Where the revisions part: a positive amount of a unit that comes to no time is a zero TTL
      here, and is refused by the live revision's `parseDuration`. */
  lemma UnknownUnitIsZeroTtl(p: string, n: nat, u: string, units: UnitTable)
    requires forall i :: 0 <= i < |p| ==> !IsDigit(p[i])
    requires forall i :: 0 <= i < |u| ==> !IsLineTerminator(u[i])
    requires |u| == 0 || !IsDigit(u[0])
    requires n > 0 && units(u) == 0
    ensures ParseTtl(Some(p + NatToString(n) + u), units) == Ok(0)
    ensures Fetcher.ParseDuration(p + NatToString(n) + u, units).None?
  {
    ParseTtlOf(p, n, u, units);
    Fetcher.ParseDurationOf(p, n, u, units);
  }

  // ---------------------------------------------------------------- `checkCacheTtl` as written

  /** `checkCacheTtl()` as written: `timestamp.add(ttl)` moves the cache's own timestamp forward by
      the TTL before comparing it with now, so a cache that survives the check keeps the moved
      timestamp. */
  function CheckedAsWritten<M>(cache: Option<Cache<M>>, ttl: int, now: Time): (r: Option<Cache<M>>)
    ensures r.Some? <==> Checked(cache, ttl, now).Some?
    ensures r.Some? ==> r.value == cache.value.(timestamp := cache.value.timestamp + ttl)
  {
    if cache.None? then None
    else
      var moved := cache.value.(timestamp := cache.value.timestamp + ttl);
      if moved.timestamp < now then None else Some(moved)
  }

  /** One check decides like the intended one, but every check a cache survives extends its life
      by the TTL: a cache checked within its TTL and again before twice the TTL is still kept,
      where the intended check drops it. For instance a cache from time 0 with a TTL of 10, checked
      at 5 and at 15. */
  lemma RepeatedCheckOutlivesTtl<M>(c: Cache<M>, ttl: int, first: Time, second: Time)
    requires first <= c.timestamp + ttl < second <= c.timestamp + 2 * ttl
    ensures Checked(Checked(Some(c), ttl, first), ttl, second) == None
    ensures CheckedAsWritten(CheckedAsWritten(Some(c), ttl, first), ttl, second).Some?
  {
  }

  /** The concrete case: time 0, a TTL of 10, checks at 5 and 15. */
  lemma RepeatedCheckExample()
    ensures var c: Cache<Option<Time>> := Cache([], 0, None, None, None);
      && CheckedAsWritten(CheckedAsWritten(Some(c), 10, 5), 10, 15) == Some(c.(timestamp := 20))
      && Checked(Checked(Some(c), 10, 5), 10, 15) == None
  {
  }

  // ---------------------------------------------------------------- `checkMetadata` as functions

  type Entries = map<Scope, Cache<Option<Time>>>

  /** Where a walk of the directory tree got to: its result (an error, `undefined`, or metadata) and
      the store afterwards. */
  datatype Folded = Folded(result: Result<Option<Metadata>, Error>, entries: Entries)

  /** A fetcher's `checkMetadata`: its result, the fetcher's cache and the store afterwards. */
  datatype Outcome = Outcome(result: Result<Option<Metadata>, Error>, cache: Option<Cache<Option<Time>>>, entries: Entries)

  /** What a file contributes: itself, its size, its modification time. */
  function FileValue(f: File): Metadata
  {
    Metadata(1, f.size, Some(f.lastModified))
  }

  /** What a directory contributes, given its own metadata: itself, its size, its time. */
  function DirValue(m: Metadata): Metadata
  {
    Metadata(1, m.totalSize, m.lastModified)
  }

  /** `files.map(fileFn).reduce(combineMetadata, acc)`: one child per file. */
  function FoldFiles(files: seq<File>, acc: Metadata): (r: Metadata)
    ensures r.numChildren == acc.numChildren + |files|
    ensures MtimeLe(acc.lastModified, r.lastModified)
    decreases |files|
  {
    if |files| == 0 then acc else FoldFiles(files[1..], Combine(acc, FileValue(files[0])))
  }

  /** The fold sums the sizes onto the accumulator's, and its time is the latest of the files'
      times and the accumulator's. */
  lemma {:induction false} FoldFilesTotals(files: seq<File>, acc: Metadata)
    ensures var r := FoldFiles(files, acc);
      && r.totalSize == acc.totalSize + SumSizes(files)
      && (forall k :: 0 <= k < |files| ==> MtimeLe(Some(files[k].lastModified), r.lastModified))
      && (r.lastModified == acc.lastModified || exists k :: 0 <= k < |files| && r.lastModified == Some(files[k].lastModified))
    decreases |files|
  {
    if |files| > 0 {
      var next := Combine(acc, FileValue(files[0]));
      FoldFilesTotals(files[1..], next);
      var r := FoldFiles(files, acc);
      assert r == FoldFiles(files[1..], next);
      forall k | 1 <= k < |files| ensures MtimeLe(Some(files[k].lastModified), r.lastModified) {
        assert files[k] == files[1..][k - 1];
      }
      if r.lastModified != next.lastModified {
        var k :| 0 <= k < |files[1..]| && r.lastModified == Some(files[1..][k].lastModified);
        assert files[1..][k] == files[k + 1];
      } else if next.lastModified != acc.lastModified {
        assert r.lastModified == Some(files[0].lastModified);
      }
    }
  }

  /** `dirs.map(dirFn).reduce(combineMetadata, acc)`, given the metadata `ms` the directories
      report: each counts as one child with its size and time. */
  function FoldDirs(acc: Metadata, ms: seq<Metadata>): (r: Metadata)
    ensures r.numChildren == acc.numChildren + |ms|
    ensures MtimeLe(acc.lastModified, r.lastModified)
    decreases |ms|
  {
    if |ms| == 0 then acc else FoldDirs(Combine(acc, DirValue(ms[0])), ms[1..])
  }

  /** Folding one more directory's metadata merges its value onto the fold so far. */
  lemma {:induction false} FoldDirsSnoc(acc: Metadata, ms: seq<Metadata>, m: Metadata)
    ensures FoldDirs(acc, ms + [m]) == Combine(FoldDirs(acc, ms), DirValue(m))
    decreases |ms|
  {
    if |ms| > 0 {
      assert (ms + [m])[1..] == ms[1..] + [m];
      FoldDirsSnoc(Combine(acc, DirValue(ms[0])), ms[1..], m);
    }
  }

  /** `fn(dirs, files)`: the value of a page whose directories reported `ms`, as both `reduce`
      and `reduceSync` compute it. */
  function PageValue(p: Page, ms: seq<Metadata>): Metadata
  {
    Combine(FoldDirs(Zero, ms), FoldFiles(p.files, Zero))
  }

  /** The metadata a cache already holds, once all three fields are known. */
  function Known(cache: Option<Cache<Option<Time>>>): (r: Option<Metadata>)
    ensures r.Some? <==> cache.Some? && cache.value.numChildren.Some? && cache.value.totalSize.Some?
                         && cache.value.lastModified.Some?
    ensures r.Some? ==> r.value.numChildren == cache.value.numChildren.value && r.value.totalSize == cache.value.totalSize.value
                        && r.value.lastModified == cache.value.lastModified
  {
    if cache.Some? && cache.value.numChildren.Some? && cache.value.totalSize.Some? && cache.value.lastModified.Some?
    then Some(Metadata(cache.value.numChildren.value, cache.value.totalSize.value, cache.value.lastModified))
    else None
  }

  /** A cache records the metadata `m`. */
  predicate Holds(c: Cache<Option<Time>>, m: Metadata)
  {
    c.numChildren == Some(m.numChildren) && c.totalSize == Some(m.totalSize) && c.lastModified == m.lastModified
  }

  /** The three assignments and the `saveCache()` that `checkMetadata` and `computeMetadata`'s
      callback make with a result: without a cache nothing happens; otherwise the cache takes the
      metadata and is saved, whether or not anything changed. */
  function Overwrite(scope: Scope, cache: Option<Cache<Option<Time>>>, m: Metadata, entries: Entries): (r: CacheState<Option<Time>>)
    ensures cache.None? ==> r == CacheState(cache, entries)
    ensures cache.Some? ==>
      && r.cache.Some? && Holds(r.cache.value, m)
      && r.cache.value.pages == cache.value.pages && r.cache.value.timestamp == cache.value.timestamp
      && r.entries == Saved(entries, scope, r.cache)
  {
    if cache.None? then CacheState(cache, entries)
    else
      var c := cache.value.(numChildren := Some(m.numChildren), totalSize := Some(m.totalSize), lastModified := m.lastModified);
      CacheState(Some(c), Saved(entries, scope, Some(c)))
  }

  /** `reduceSync` with `checkMetadata`'s callbacks: `undefined` without a cache or before the
      number of children is known; otherwise the fold over the cached pages. */
  function ReduceF(scope: Scope, fuel: nat, cache: Option<Cache<Option<Time>>>, entries: Entries, now: Time): (r: Folded)
    ensures cache.None? || cache.value.numChildren.None? ==> r == Folded(Ok(None), entries)
    decreases fuel, 3
  {
    if cache.None? || cache.value.numChildren.None? then Folded(Ok(None), entries)
    else PagesF(scope.bucket, fuel, cache.value.pages, 0, Zero, entries, now)
  }

  /** The outer loop of `reduceSync` from page `i`, with `acc` folded so far: each page (a hole
      reads as an empty page) contributes the fold of its directories merged with the fold of its
      files; a page that does not normalise throws, and a directory without metadata ends the walk
      with `undefined`. */
  function PagesF(bucket: string, fuel: nat, pages: seq<Option<RawPage>>, i: nat, acc: Metadata, entries: Entries, now: Time): (r: Folded)
    requires i <= |pages|
    ensures r.result.Ok? && r.result.value.Some? ==>
      r.result.value.value.numChildren == acc.numChildren + RowsFrom(pages, i) && MtimeLe(acc.lastModified, r.result.value.value.lastModified)
    decreases fuel, 2, |pages| - i
  {
    if i == |pages| then Folded(Ok(Some(acc)), entries)
    else
      var p := NormPage(pages[i]);
      if p.Err? then Folded(Err(p.error), entries)
      else
        var d := DirsF(bucket, fuel, p.value.dirs, 0, Zero, entries, now);
        if d.result.Err? || d.result.value.None? then d
        else
          var v := Combine(d.result.value.value, FoldFiles(p.value.files, Zero));
          PagesF(bucket, fuel, pages, i + 1, Combine(acc, v), d.entries, now)
  }

  /** The inner loop of `reduceSync` from directory `j`: each directory's metadata, as a fetcher
      for it reports it, counts as one child. */
  function DirsF(bucket: string, fuel: nat, dirs: seq<Dir>, j: nat, acc: Metadata, entries: Entries, now: Time): (r: Folded)
    requires j <= |dirs|
    ensures r.result.Ok? && r.result.value.Some? ==>
      r.result.value.value.numChildren == acc.numChildren + |dirs| - j && MtimeLe(acc.lastModified, r.result.value.value.lastModified)
    decreases fuel, 1, |dirs| - j
  {
    if j == |dirs| then Folded(Ok(Some(acc)), entries)
    else
      var c := ChildF(bucket, fuel, dirs[j], entries, now);
      if c.result.Err? || c.result.value.None? then c
      else DirsF(bucket, fuel, dirs, j + 1, Combine(acc, DirValue(c.result.value.value)), c.entries, now)
  }

  /** `new S3Fetcher({bucket, key: dir.Prefix}).checkMetadata()`: the child opens its scope's cache
      with the default TTL, then checks its own metadata; `fuel` bounds the depth. */
  function ChildF(bucket: string, fuel: nat, dir: Dir, entries: Entries, now: Time): (r: Folded)
    ensures fuel == 0 ==> r == Folded(Err(DepthExhausted), entries)
    decreases fuel, 0
  {
    if fuel == 0 then Folded(Err(DepthExhausted), entries)
    else
      var scope := ScopeOf(bucket, Some(dir.prefix));
      var o := Open(entries, scope, DefaultTtl, now);
      var out := CheckF(scope, fuel - 1, o.cache, o.entries, now);
      Folded(out.result, out.entries)
  }

  /** The walk over directories folds the metadata its directories report. */
  lemma {:induction false} DirsFoldDirs(bucket: string, fuel: nat, dirs: seq<Dir>, j: nat, acc: Metadata, entries: Entries, now: Time)
    returns (ms: seq<Metadata>)
    requires j <= |dirs|
    ensures var r := DirsF(bucket, fuel, dirs, j, acc, entries, now);
      r.result.Ok? && r.result.value.Some? ==> |ms| == |dirs| - j && r.result.value.value == FoldDirs(acc, ms)
    decreases |dirs| - j
  {
    ms := [];
    if j < |dirs| {
      var c := ChildF(bucket, fuel, dirs[j], entries, now);
      if c.result.Ok? && c.result.value.Some? {
        var rest := DirsFoldDirs(bucket, fuel, dirs, j + 1, Combine(acc, DirValue(c.result.value.value)), c.entries, now);
        ms := [c.result.value.value] + rest;
        assert ms[1..] == rest;
      }
    }
  }

  /** The walk over directories is `undefined` as soon as the next directory's metadata is, and
      only because some directory's metadata was. */
  lemma {:induction false} DirsUndefinedFromChild(bucket: string, fuel: nat, dirs: seq<Dir>, j: nat, acc: Metadata, entries: Entries, now: Time)
    requires j <= |dirs|
    ensures j < |dirs| && ChildF(bucket, fuel, dirs[j], entries, now).result == Ok(None) ==>
      DirsF(bucket, fuel, dirs, j, acc, entries, now).result == Ok(None)
    ensures DirsF(bucket, fuel, dirs, j, acc, entries, now).result == Ok(None) ==>
      exists k, e :: j <= k < |dirs| && ChildF(bucket, fuel, dirs[k], e, now).result == Ok(None)
    decreases |dirs| - j
  {
    if j < |dirs| {
      var c := ChildF(bucket, fuel, dirs[j], entries, now);
      if c.result.Ok? && c.result.value.Some? {
        DirsUndefinedFromChild(bucket, fuel, dirs, j + 1, Combine(acc, DirValue(c.result.value.value)), c.entries, now);
      }
    }
  }

  /** The walk over pages is `undefined` as soon as the walk over the next page's directories is,
      and only because the metadata of a directory on one of the pages was. */
  lemma {:induction false} PagesUndefinedFromChild(bucket: string, fuel: nat, pages: seq<Option<RawPage>>, i: nat, acc: Metadata, entries: Entries, now: Time)
    requires i <= |pages|
    ensures i < |pages| && NormPage(pages[i]).Ok? &&
      DirsF(bucket, fuel, NormPage(pages[i]).value.dirs, 0, Zero, entries, now).result == Ok(None)
      ==> PagesF(bucket, fuel, pages, i, acc, entries, now).result == Ok(None)
    ensures PagesF(bucket, fuel, pages, i, acc, entries, now).result == Ok(None) ==>
      exists k, m, e :: i <= k < |pages| && NormPage(pages[k]).Ok? && 0 <= m < |NormPage(pages[k]).value.dirs| &&
        ChildF(bucket, fuel, NormPage(pages[k]).value.dirs[m], e, now).result == Ok(None)
    decreases |pages| - i
  {
    if i < |pages| && NormPage(pages[i]).Ok? {
      var dirs := NormPage(pages[i]).value.dirs;
      var d := DirsF(bucket, fuel, dirs, 0, Zero, entries, now);
      if d.result.Ok? && d.result.value.None? {
        DirsUndefinedFromChild(bucket, fuel, dirs, 0, Zero, entries, now);
      } else if d.result.Ok? {
        var v := Combine(d.result.value.value, FoldFiles(NormPage(pages[i]).value.files, Zero));
        PagesUndefinedFromChild(bucket, fuel, pages, i + 1, Combine(acc, v), d.entries, now);
      }
    }
  }

  /** `reduceSync` is all or nothing: `undefined` as soon as the walk over the first page's
      directories is, and only without a cache, before the number of children is known, or because
      some directory's metadata was `undefined`. */
  lemma ReduceUndefinedFromChild(scope: Scope, fuel: nat, cache: Option<Cache<Option<Time>>>, entries: Entries, now: Time)
    ensures cache.Some? && cache.value.numChildren.Some? && |cache.value.pages| > 0 && NormPage(cache.value.pages[0]).Ok? &&
      DirsF(scope.bucket, fuel, NormPage(cache.value.pages[0]).value.dirs, 0, Zero, entries, now).result == Ok(None)
      ==> ReduceF(scope, fuel, cache, entries, now).result == Ok(None)
    ensures ReduceF(scope, fuel, cache, entries, now).result == Ok(None) ==>
      || cache.None? || cache.value.numChildren.None?
      || exists k, m, e :: 0 <= k < |cache.value.pages| && NormPage(cache.value.pages[k]).Ok? &&
           0 <= m < |NormPage(cache.value.pages[k]).value.dirs| &&
           ChildF(scope.bucket, fuel, NormPage(cache.value.pages[k]).value.dirs[m], e, now).result == Ok(None)
  {
    if cache.Some? && cache.value.numChildren.Some? {
      PagesUndefinedFromChild(scope.bucket, fuel, cache.value.pages, 0, Zero, entries, now);
    }
  }

  /** `checkMetadata()` of the fetcher for `scope` holding `cache`: the cached metadata once all of
      it is known; otherwise the fold, written into the cache and saved when there is one. (The
      fold only yields metadata with a cache present, so the source's throw for a result without a
      cache cannot happen.) */
  function CheckF(scope: Scope, fuel: nat, cache: Option<Cache<Option<Time>>>, entries: Entries, now: Time): (r: Outcome)
    ensures Known(cache).Some? ==> r == Outcome(Ok(Known(cache)), cache, entries)
    decreases fuel, 4
  {
    if Known(cache).Some? then Outcome(Ok(Known(cache)), cache, entries)
    else
      var f := ReduceF(scope, fuel, cache, entries, now);
      if f.result.Ok? && f.result.value.Some? then
        var s := Overwrite(scope, cache, f.result.value.value, f.entries);
        Outcome(f.result, s.cache, s.entries)
      else Outcome(f.result, cache, f.entries)
  }

  /** `checkMetadata` when the cache does not already know everything: it succeeds only with a cache
      whose number of children is known; each direct directory or file then counts as one child,
      and the cache, saved to the store, holds the result. The cache knows the result for next
      time only when some time was found: a tree without files has no time, and is walked again
      on every check. */
  lemma CheckMetadataCounts(scope: Scope, fuel: nat, cache: Option<Cache<Option<Time>>>, entries: Entries, now: Time)
    requires Known(cache).None?
    ensures var r := CheckF(scope, fuel, cache, entries, now);
      r.result.Ok? && r.result.value.Some? ==>
        && cache.Some? && cache.value.numChildren.Some?
        && r.result.value.value.numChildren == RowsFrom(cache.value.pages, 0)
        && r.cache.Some? && Holds(r.cache.value, r.result.value.value)
        && scope in r.entries && r.entries[scope] == r.cache.value
        && (Known(r.cache) == r.result.value <==> r.result.value.value.lastModified.Some?)
  {
    if cache.Some? && cache.value.numChildren.Some? {
    }
  }

  /** A value of a page, as both folds compute it: the page normalises, the value counts its
      directories and files, has a time no earlier than its files' and, without directories, is
      exactly the value of its files. `PageValueOfWalk` and `PageValueTotals` show that these are
      exactly the values `PageValue(p, ms)` for some metadata `ms` reported by the directories,
      one each. */
  predicate IsPageValue(page: Option<RawPage>, v: Metadata)
  {
    NormPage(page).Ok? && IsValueOf(NormPage(page).value, v)
  }

  /** `IsPageValue` for a page once normalised. */
  predicate IsValueOf(p: Page, v: Metadata)
  {
    && v.numChildren == |p.dirs| + |p.files|
    && MtimeLe(FoldFiles(p.files, Zero).lastModified, v.lastModified)
    && (|p.dirs| == 0 ==> v == FoldFiles(p.files, Zero))
  }

  /** What `PageValue` says about the page's own files: its size is the sizes its directories
      report plus the files' sizes, and it is no earlier than any file; a page without directories
      has exactly the value of its files. */
  lemma PageValueOfFiles(p: Page, ms: seq<Metadata>)
    ensures PageValue(p, ms).numChildren == |ms| + |p.files|
    ensures PageValue(p, ms).totalSize == FoldDirs(Zero, ms).totalSize + SumSizes(p.files)
    ensures MtimeLe(FoldFiles(p.files, Zero).lastModified, PageValue(p, ms).lastModified)
    ensures forall k :: 0 <= k < |p.files| ==> MtimeLe(Some(p.files[k].lastModified), PageValue(p, ms).lastModified)
    ensures |ms| == 0 ==> PageValue(p, ms) == FoldFiles(p.files, Zero)
  {
    var v := PageValue(p, ms);
    var d, fs := FoldDirs(Zero, ms), FoldFiles(p.files, Zero);
    assert v == Combine(d, fs);
    FoldFilesTotals(p.files, Zero);
    forall k | 0 <= k < |p.files| ensures MtimeLe(Some(p.files[k].lastModified), v.lastModified) {
      MtimeLeTrans(Some(p.files[k].lastModified), fs.lastModified, v.lastModified);
    }
    if |ms| == 0 {
      CombineIdentity(fs);
    }
  }

  /** The value both folds compute for a page, given what its directories reported, is a value
      of that page. */
  lemma PageValueOfWalk(page: Option<RawPage>, ms: seq<Metadata>, v: Metadata)
    requires NormPage(page).Ok? && |ms| == |NormPage(page).value.dirs|
    requires v == PageValue(NormPage(page).value, ms)
    ensures IsPageValue(page, v)
  {
    PageValueIsValue(NormPage(page).value, ms);
  }

  lemma PageValueIsValue(p: Page, ms: seq<Metadata>)
    requires |ms| == |p.dirs|
    ensures IsValueOf(p, PageValue(p, ms))
  {
    PageValueOfFiles(p, ms);
  }

  /** Directories that report nothing: one child each, no size, no time. */
  function Silent(n: nat): (ms: seq<Metadata>)
    ensures |ms| == n
  {
    seq(n, _ => Metadata(1, 0, None))
  }

  /** Folding silent directories only counts them. */
  lemma {:induction false} FoldDirsSilent(acc: Metadata, n: nat)
    ensures FoldDirs(acc, Silent(n)) == Metadata(acc.numChildren + n, acc.totalSize, acc.lastModified)
    decreases n
  {
    if n > 0 {
      var s := Silent(n);
      assert s[0] == Metadata(1, 0, None);
      assert s[1..] == Silent(n - 1);
      var next := Combine(acc, DirValue(s[0]));
      assert next == Metadata(acc.numChildren + 1, acc.totalSize, acc.lastModified);
      FoldDirsSilent(next, n - 1);
    }
  }

  /** Every value of a page is `PageValue` of the page for some metadata its directories could
      have reported: the first directory carries the size beyond the files' and the time, the
      others report nothing. */
  lemma PageValueTotals(page: Option<RawPage>, v: Metadata) returns (ms: seq<Metadata>)
    requires IsPageValue(page, v)
    ensures NormPage(page).Ok? && |ms| == |NormPage(page).value.dirs|
    ensures v == PageValue(NormPage(page).value, ms)
  {
    var p := NormPage(page).value;
    var fs := FoldFiles(p.files, Zero);
    FoldFilesTotals(p.files, Zero);
    if |p.dirs| == 0 {
      ms := [];
      PageValueOfFiles(p, ms);
    } else {
      var first := Metadata(1, v.totalSize - fs.totalSize, v.lastModified);
      ms := [first] + Silent(|p.dirs| - 1);
      assert ms[1..] == Silent(|p.dirs| - 1);
      var d1 := Combine(Zero, DirValue(first));
      assert d1 == Metadata(1, first.totalSize, v.lastModified);
      FoldDirsSilent(d1, |p.dirs| - 1);
      assert FoldDirs(Zero, ms) == Metadata(|p.dirs|, first.totalSize, v.lastModified);
      assert CombineMtime(v.lastModified, fs.lastModified) == v.lastModified;
    }
  }

  /** `vs` holds a value of each page from `i` on. */
  predicate PageValues(pages: seq<Option<RawPage>>, i: nat, vs: seq<Metadata>)
  {
    i + |vs| <= |pages| && forall k :: 0 <= k < |vs| ==> IsPageValue(pages[i + k], vs[k])
  }

  // ---------------------------------------------------------------- `reduce` against `reduceSync`

  /** `reduceSync`'s fold over per-page values: from the left, starting at `acc`. */
  function FoldLeft(acc: Metadata, vs: seq<Metadata>): Metadata
    decreases |vs|
  {
    if |vs| == 0 then acc else FoldLeft(Combine(acc, vs[0]), vs[1..])
  }

  /** `reduce`'s fold: each page's value merged with the fold of the pages after it. */
  function FoldRight(vs: seq<Metadata>): Metadata
    requires |vs| > 0
  {
    if |vs| == 1 then vs[0] else Combine(vs[0], FoldRight(vs[1..]))
  }

  /** Folding from the left onto `acc` is merging `acc` with the fold from the right. */
  lemma {:induction false} FoldsAgree(acc: Metadata, vs: seq<Metadata>)
    requires |vs| > 0
    ensures FoldLeft(acc, vs) == Combine(acc, FoldRight(vs))
    decreases |vs|
  {
    if |vs| > 1 {
      FoldsAgree(Combine(acc, vs[0]), vs[1..]);
      CombineAssociates(acc, vs[0], FoldRight(vs[1..]));
    }
  }

  /** With `Zero` neutral for every value, `reduce` and `reduceSync` come to the same metadata for
      any page values. */
  lemma ReduceMatchesReduceSync(vs: seq<Metadata>)
    requires |vs| > 0
    ensures FoldLeft(Zero, vs) == FoldRight(vs)
  {
    FoldsAgree(Zero, vs);
    CombineIdentity(FoldRight(vs));
  }

  lemma FoldRightCons(v: Metadata, ws: seq<Metadata>)
    requires |ws| > 0
    ensures FoldRight([v] + ws) == Combine(v, FoldRight(ws))
  {
    assert ([v] + ws)[1..] == ws;
  }

  /** `reduceSync` folds the values of the cached pages from the left: when the walk from page `i`
      succeeds, `vs` holds a value of each page from `i` on, and the result is their fold from `acc`. */
  lemma {:induction false} PagesFoldLeft(bucket: string, fuel: nat, pages: seq<Option<RawPage>>, i: nat, acc: Metadata, entries: Entries, now: Time)
    returns (vs: seq<Metadata>)
    requires i <= |pages|
    ensures var r := PagesF(bucket, fuel, pages, i, acc, entries, now);
      r.result.Ok? && r.result.value.Some? ==>
        && |vs| == |pages| - i && r.result.value.value == FoldLeft(acc, vs)
        && PageValues(pages, i, vs)
    decreases |pages| - i
  {
    if i == |pages| {
      vs := [];
    } else {
      var v, e := PagesStep(bucket, fuel, pages, i, acc, entries, now);
      var ws := PagesFoldLeft(bucket, fuel, pages, i + 1, Combine(acc, v), e, now);
      var r := PagesF(bucket, fuel, pages, i, acc, entries, now);
      if r.result.Ok? && r.result.value.Some? {
        FoldLeftCons(pages, i, acc, v, ws);
      }
      vs := [v] + ws;
    }
  }

  /** One page of `reduceSync`: when the walk from page `i` succeeds, it is the walk from page
      `i + 1` with the value `v` of page `i` folded in. */
  lemma PagesStep(bucket: string, fuel: nat, pages: seq<Option<RawPage>>, i: nat, acc: Metadata, entries: Entries, now: Time)
    returns (v: Metadata, e: Entries)
    requires i < |pages|
    ensures var r := PagesF(bucket, fuel, pages, i, acc, entries, now);
      r.result.Ok? && r.result.value.Some? ==>
        IsPageValue(pages[i], v) && r == PagesF(bucket, fuel, pages, i + 1, Combine(acc, v), e, now)
  {
    v, e := acc, entries;
    var p := NormPage(pages[i]);
    if p.Err? {
      assert PagesF(bucket, fuel, pages, i, acc, entries, now) == Folded(Err(p.error), entries);
    } else {
      var d := DirsF(bucket, fuel, p.value.dirs, 0, Zero, entries, now);
      if d.result.Err? || d.result.value.None? {
        assert PagesF(bucket, fuel, pages, i, acc, entries, now) == d;
      } else {
        var ms := DirsFoldDirs(bucket, fuel, p.value.dirs, 0, Zero, entries, now);
        v, e := Combine(d.result.value.value, FoldFiles(p.value.files, Zero)), d.entries;
        PageValueOfWalk(pages[i], ms, v);
        assert PagesF(bucket, fuel, pages, i, acc, entries, now) == PagesF(bucket, fuel, pages, i + 1, Combine(acc, v), e, now);
      }
    }
  }

  lemma FoldLeftCons(pages: seq<Option<RawPage>>, i: nat, acc: Metadata, v: Metadata, ws: seq<Metadata>)
    requires i < |pages| && IsPageValue(pages[i], v) && PageValues(pages, i + 1, ws)
    ensures FoldLeft(acc, [v] + ws) == FoldLeft(Combine(acc, v), ws)
    ensures PageValues(pages, i, [v] + ws)
  {
    assert ([v] + ws)[1..] == ws;
    forall k | 0 <= k < |ws| + 1 ensures IsPageValue(pages[i + k], ([v] + ws)[k]) {
      if k > 0 { assert ([v] + ws)[k] == ws[k - 1]; }
    }
  }

  /** So `checkMetadata`'s walk and `computeMetadata`'s `reduce` compute the same fold: when the
      walk over a cache with pages succeeds, its result is the fold from the right of values `vs`
      of the cached pages, which is how `reduce` combines the values of the pages it walks. */
  lemma ReduceSyncFoldsRight(scope: Scope, fuel: nat, cache: Option<Cache<Option<Time>>>, entries: Entries, now: Time)
    returns (vs: seq<Metadata>)
    requires cache.Some? && |cache.value.pages| > 0
    ensures var r := ReduceF(scope, fuel, cache, entries, now);
      r.result.Ok? && r.result.value.Some? ==>
        && |vs| == |cache.value.pages| && r.result.value.value == FoldRight(vs)
        && forall k :: 0 <= k < |vs| ==> IsPageValue(cache.value.pages[k], vs[k])
  {
    var r := ReduceF(scope, fuel, cache, entries, now);
    vs := PagesFoldLeft(scope.bucket, fuel, cache.value.pages, 0, Zero, entries, now);
    if r.result.Ok? && r.result.value.Some? {
      assert forall k :: 0 <= k < |vs| ==> IsPageValue(cache.value.pages[0 + k], vs[k]);
      ReduceMatchesReduceSync(vs);
    }
  }

  // ---------------------------------------------------------------- `fileMetadata`

  /** The number of files the raw pages list. */
  function FileCount(pages: seq<Option<RawPage>>): nat
  {
    if |pages| == 0 then 0
    else (if pages[0].Some? then |pages[0].value.contents.GetOr([])| else 0) + FileCount(pages[1..])
  }

  /** The files of every page, in order, once every page is present and normalises. */
  function AllFiles(pages: seq<Option<RawPage>>): (r: seq<File>)
    requires PagesError(pages).None?
    ensures |r| == FileCount(pages)
  {
    if |pages| == 0 then []
    else
      assert forall k :: 1 <= k < |pages| ==> pages[1..][k - 1] == pages[k];
      (if pages[0].Some? then NormPage(pages[0]).value.files else []) + AllFiles(pages[1..])
  }

  /** `[].concat(...pages.map(page => Page(page).files))` read by the `map` that follows it: the
      first page that does not normalise throws; otherwise a hole, which the spread turns into an
      `undefined` entry, throws a `TypeError` when its fields are read. */
  function PagesFiles(pages: seq<Option<RawPage>>): (r: Result<seq<File>, Error>)
    ensures PagesError(pages).Some? ==> r == Err(PagesError(pages).value)
    ensures PagesError(pages).None? ==> (r.Ok? <==> forall k :: 0 <= k < |pages| ==> pages[k].Some?)
    ensures PagesError(pages).None? && r.Err? ==> r.error == TypeError
    ensures r.Ok? ==> |r.value| == FileCount(pages)
  {
    if PagesError(pages).Some? then Err(PagesError(pages).value)
    else if exists k :: 0 <= k < |pages| && pages[k].None? then Err(TypeError)
    else Ok(AllFiles(pages))
  }

  // ---------------------------------------------------------------- the fetcher

  /** A fetcher for one scope of a bucket: its cache (the raw pages fetched so far and the metadata
      known so far) and the settled outcomes of its page requests, in request order. */
  class S3Fetcher {
    const store: Store<Option<Time>>
    const service: Service
    const bucket: string
    /** The key without one trailing `/`. */
    const key: Option<string>
    const pageSize: nat
    const ttl: Time
    /** The scope the cache is stored under. */
    const scope: Scope
    var cache: Option<Cache<Option<Time>>>
    var pagePromises: seq<Result<RawPage, Error>>

    /** The `Prefix` the listing is requested under. */
    function Prefix(): string
    {
      ListPrefix(key.GetOr(""))
    }

    /** What the request for page `i` settles to. */
    function Requested(i: nat): Result<RawPage, Error>
    {
      Chain(service, bucket, Prefix(), pageSize, i)
    }

    /** Every page held by `c` was held by `c0` at the same index, or is what the request for that
        index settled to. */
    predicate CacheFrom(c: Option<Cache<Option<Time>>>, c0: Option<Cache<Option<Time>>>)
    {
      c.Some? ==> forall i :: 0 <= i < |c.value.pages| && c.value.pages[i].Some? ==>
        Slot(c0, i) == c.value.pages[i] || Requested(i) == Ok(c.value.pages[i].value)
    }

    /** Where pages come from is transitive over a run of `getPage` calls. */
    lemma CacheFromTrans(c2: Option<Cache<Option<Time>>>, c1: Option<Cache<Option<Time>>>, c0: Option<Cache<Option<Time>>>)
      requires CacheFrom(c2, c1) && CacheFrom(c1, c0)
      ensures CacheFrom(c2, c0)
    {
    }

    /** What `getPage(idx)` may hand back when the cache started out as `c0`: `undefined` for a
        negative index, else the request for page `idx` or the page `c0` held at `idx`. */
    predicate Sourced(f: Fetched, idx: int, c0: Option<Cache<Option<Time>>>)
    {
      if idx < 0 then f == Undefined
      else f == FromChain(Requested(idx)) || (f.Resolved? && Slot(c0, idx) == Some(f.page))
    }

    /** A result sourced from a cache that was itself sourced from `c0` is sourced from `c0`. */
    lemma SourcedTrans(f: Fetched, idx: int, c1: Option<Cache<Option<Time>>>, c0: Option<Cache<Option<Time>>>)
      requires Sourced(f, idx, c1) && CacheFrom(c1, c0)
      ensures Sourced(f, idx, c0)
    {
    }

    /** What the sourcing of `get`'s pages says about each of them: `undefined` exactly for the
        negative indices, a rejection only as the request for that index, and nothing but the
        requests when there was no cache to start from. */
    lemma SourcedFacts(fs: seq<Fetched>, startPage: int, c0: Option<Cache<Option<Time>>>)
      requires forall k :: 0 <= k < |fs| ==> Sourced(fs[k], startPage + k, c0)
      ensures forall k :: 0 <= k < |fs| ==> (fs[k].Undefined? <==> startPage + k < 0)
      ensures forall k :: 0 <= k < |fs| && fs[k].Rejected? ==> fs[k] == FromChain(Requested(startPage + k))
      ensures c0.None? ==> forall k :: 0 <= k < |fs| && startPage + k >= 0 ==> fs[k] == FromChain(Requested(startPage + k))
    {
    }

    /** What `get` promises of the pages it requested and of what it assembled from them. */
    lemma GetFacts(fs: seq<Fetched>, start: int, end: int, c0: Option<Cache<Option<Time>>>)
      requires pageSize > 0 && |fs| == CeilDiv(end, pageSize) - FloorDiv(start, pageSize)
      requires forall k :: 0 <= k < |fs| ==> Sourced(fs[k], FloorDiv(start, pageSize) + k, c0)
      ensures forall k :: 0 <= k < |fs| ==> (fs[k].Undefined? <==> FloorDiv(start, pageSize) + k < 0)
      ensures c0.None? ==>
        forall k :: 0 <= k < |fs| && FloorDiv(start, pageSize) + k >= 0 ==> fs[k] == FromChain(Requested(FloorDiv(start, pageSize) + k))
      ensures var r := Assemble(fs, FloorDiv(start, pageSize), start, end, pageSize);
        r.Ok? ==> |r.value| <= Max(0, end - start)
      ensures start <= end && |fs| > 0 && (forall k :: 0 <= k < |fs| ==> fs[k].Resolved?) && FullPages(Settled(fs), pageSize) ==>
        IsWindow(Settled(fs), FloorDiv(start, pageSize) * pageSize, start, end, pageSize) &&
        Assemble(fs, FloorDiv(start, pageSize), start, end, pageSize)
          == AssembleFrom(Settled(fs), FloorDiv(start, pageSize) * pageSize, start, end, pageSize)
    {
      var startPage := FloorDiv(start, pageSize);
      var endPage := CeilDiv(end, pageSize);
      SourcedFacts(fs, startPage, c0);
      GetLength(fs, startPage, endPage, start, end, pageSize);
      if start <= end && |fs| > 0 && (forall m :: 0 <= m < |fs| ==> fs[m].Resolved?) && FullPages(Settled(fs), pageSize) {
        AssembleWindow(fs, startPage, endPage, start, end, pageSize);
      }
    }

    /** The pages `reduce` walked from `pageIdx` and their values: each page is what `getPage`
        may hand back for its index when the cache started out as `c0`, every page but the last
        is truncated, and each value is a value of its page. */
    predicate WalkedPages(pages: seq<RawPage>, vs: seq<Metadata>, pageIdx: nat, c0: Option<Cache<Option<Time>>>)
    {
      && |pages| == |vs|
      && (forall k :: 0 <= k < |pages| ==> Sourced(Resolved(pages[k]), pageIdx + k, c0))
      && (forall k :: 0 <= k < |pages| ==> (pages[k].isTruncated <==> k < |pages| - 1))
      && (forall k :: 0 <= k < |pages| ==> IsPageValue(Some(pages[k]), vs[k]))
    }

    /** What `reduce` from `pageIdx` resolves to: the fold from the right of the values `vs` of the
        pages it walked. */
    predicate FoldsWalk(m: Metadata, pages: seq<RawPage>, vs: seq<Metadata>, pageIdx: nat, c0: Option<Cache<Option<Time>>>)
    {
      |vs| > 0 && m == FoldRight(vs) && WalkedPages(pages, vs, pageIdx, c0)
    }

    /** The last page on its own is a walk. */
    lemma WalkedPagesOne(page: RawPage, v: Metadata, pageIdx: nat, c0: Option<Cache<Option<Time>>>)
      requires Sourced(Resolved(page), pageIdx, c0) && !page.isTruncated && IsPageValue(Some(page), v)
      ensures FoldsWalk(v, [page], [v], pageIdx, c0)
    {
    }

    /** A truncated page and the rest of the walk after it. */
    lemma FoldsWalkCons(page: RawPage, v: Metadata, m: Metadata, pages: seq<RawPage>, vs: seq<Metadata>, pageIdx: nat,
                        c1: Option<Cache<Option<Time>>>, c0: Option<Cache<Option<Time>>>)
      requires Sourced(Resolved(page), pageIdx, c0) && page.isTruncated && IsPageValue(Some(page), v)
      requires FoldsWalk(m, pages, vs, pageIdx + 1, c1) && CacheFrom(c1, c0)
      ensures FoldsWalk(Combine(v, m), [page] + pages, [v] + vs, pageIdx, c0)
      ensures ([page] + pages)[0] == page && ([v] + vs)[0] == v
    {
      WalkedPagesCons(page, v, pages, vs, pageIdx, c1, c0);
      FoldRightCons(v, vs);
    }

    /** Saving metadata leaves the pages, so where they came from, as they were. */
    lemma CacheFromSamePages(c2: Option<Cache<Option<Time>>>, c1: Option<Cache<Option<Time>>>, c0: Option<Cache<Option<Time>>>)
      requires c2.Some? == c1.Some? && (c2.Some? ==> c2.value.pages == c1.value.pages)
      requires CacheFrom(c1, c0)
      ensures CacheFrom(c2, c0)
    {
    }

    /** A truncated page followed by the walk from the next index is a walk. */
    lemma WalkedPagesCons(page: RawPage, v: Metadata, pages: seq<RawPage>, vs: seq<Metadata>, pageIdx: nat,
                          c1: Option<Cache<Option<Time>>>, c0: Option<Cache<Option<Time>>>)
      requires Sourced(Resolved(page), pageIdx, c0) && page.isTruncated && IsPageValue(Some(page), v)
      requires |pages| > 0 && WalkedPages(pages, vs, pageIdx + 1, c1) && CacheFrom(c1, c0)
      ensures WalkedPages([page] + pages, [v] + vs, pageIdx, c0)
    {
      var ps, ws := [page] + pages, [v] + vs;
      forall k | 0 <= k < |ps|
        ensures Sourced(Resolved(ps[k]), pageIdx + k, c0)
      {
        if k > 0 {
          assert ps[k] == pages[k - 1];
          SourcedTrans(Resolved(pages[k - 1]), pageIdx + 1 + (k - 1), c1, c0);
        }
      }
      forall k | 0 <= k < |ps|
        ensures (ps[k].isTruncated <==> k < |ps| - 1) && IsPageValue(Some(ps[k]), ws[k])
      {
        if k > 0 {
          assert ps[k] == pages[k - 1] && ws[k] == vs[k - 1];
        }
      }
    }

    /** The scope follows from bucket and key, and the page requests made so far are the first
        ones of the chain. */
    predicate Valid()
      reads this
    {
      && pageSize > 0
      && scope == Scope(bucket, key.GetOr(""))
      && forall i :: 0 <= i < |pagePromises| ==> pagePromises[i] == Requested(i)
    }

    /** `new S3Fetcher({bucket, key, ttl, pageSize})` once the TTL is known: the stored cache for the
        scope, dropped (and removed from the store) when it has expired. */
    constructor(store: Store<Option<Time>>, service: Service, bucket: string, key: Option<string>, pageSize: Option<nat>,
                ttl: Time, now: Time)
      modifies store
      ensures this.store == store && this.service == service && this.bucket == bucket && this.ttl == ttl
      ensures this.key == if key.Some? then Some(StripTrailingSlash(key.value)) else None
      ensures this.pageSize == PageSizeOf(pageSize)
      ensures scope == ScopeOf(bucket, key)
      ensures cache == Open(old(store.entries), scope, ttl, now).cache
      ensures store.entries == Open(old(store.entries), scope, ttl, now).entries
      ensures pagePromises == []
      ensures Valid()
    {
      this.store := store;
      this.service := service;
      this.bucket := bucket;
      this.key := if key.Some? then Some(StripTrailingSlash(key.value)) else None;
      this.pageSize := PageSizeOf(pageSize);
      this.ttl := ttl;
      this.scope := ScopeOf(bucket, key);
      new;
      pagePromises := [];
      cache := if scope in store.entries then Some(store.entries[scope]) else None;
      var _ := CheckCacheTtl(now);
    }

    /** `saveCache()`: the store holds the cache under the scope, or nothing without one. */
    method SaveCache()
      modifies store
      ensures store.entries == Saved(old(store.entries), scope, cache)
    {
      store.entries := if cache.None? then store.entries - {scope} else store.entries[scope := cache.value];
    }

    /** `checkCacheTtl()` as intended: an expired cache is dropped and removed from the store, and a
        live one is left as it is (`CheckedAsWritten` is the check as the source writes it). */
    method CheckCacheTtl(now: Time) returns (r: Option<Cache<Option<Time>>>)
      modifies this, store
      ensures cache == Checked(old(cache), ttl, now) && r == cache
      ensures store.entries == if old(cache) != cache then Saved(old(store.entries), scope, None) else old(store.entries)
      ensures pagePromises == old(pagePromises)
    {
      if cache.Some? && cache.value.timestamp + ttl < now {
        cache := None;
        SaveCache();
      }
      r := cache;
    }

    /** `nextPage()`: requests the page after the last one requested, refused when the previous one
        cannot be continued from; a fetched page is merged into the cache and saved. */
    method NextPage(now: Time) returns (r: Result<RawPage, Error>)
      requires Valid()
      modifies this, store
      ensures Valid()
      ensures r == Requested(|old(pagePromises)|)
      ensures pagePromises == old(pagePromises) + [r]
      ensures r.Ok? ==> cache == Some(MergePage(old(cache), |old(pagePromises)|, r.value, now, pageSize, None))
      ensures r.Ok? ==> store.entries == Saved(old(store.entries), scope, cache)
      ensures r.Err? ==> cache == old(cache) && store.entries == old(store.entries)
    {
      var n := |pagePromises|;
      if n == 0 {
        r := service(bucket, Prefix(), pageSize, 0);
      } else {
        var last := pagePromises[n - 1];
        if last.Err? {
          r := last;
        } else if !CanContinue(last.value) {
          r := Err(TruncationMismatch(n));
        } else {
          r := service(bucket, Prefix(), pageSize, n);
        }
      }
      if r.Ok? {
        cache := Some(MergePage(cache, n, r.value, now, pageSize, None));
        SaveCache();
      }
      pagePromises := pagePromises + [r];
    }

    /** `getPage(idx)`: a page the cache holds (after the TTL check), else the request for it,
        requesting pages one after the other until it exists. A negative index is below the
        number of requests, so it yields `pagePromises[idx]`, that is `undefined`. */
    method GetPage(idx: int, now: Time) returns (r: Fetched)
      requires Valid()
      modifies this, store
      ensures Valid()
      ensures old(pagePromises) <= pagePromises
      ensures CacheHit(old(cache), ttl, idx, now) ==>
        && r == Resolved(old(cache).value.pages[idx].value)
        && cache == old(cache) && pagePromises == old(pagePromises) && store.entries == old(store.entries)
      ensures idx >= 0 && !CacheHit(old(cache), ttl, idx, now) ==> r == FromChain(Requested(idx))
      ensures idx < 0 ==> r == Undefined && pagePromises == old(pagePromises)
      ensures Sourced(r, idx, old(cache)) && CacheFrom(cache, old(cache))
    {
      var waited := false;
      while true
        invariant Valid()
        invariant CacheFrom(cache, old(cache))
        invariant old(pagePromises) <= pagePromises
        invariant waited <==> pagePromises != old(pagePromises)
        invariant !waited ==> cache == old(cache) && store.entries == old(store.entries)
        invariant waited ==> idx >= |old(pagePromises)| && !CacheHit(old(cache), ttl, idx, now)
        invariant waited && cache.Some? && 0 <= idx < |cache.value.pages| && cache.value.pages[idx].Some? ==>
          idx < |pagePromises| && pagePromises[idx] == Ok(cache.value.pages[idx].value)
        decreases idx + 1 - |pagePromises|
      {
        var c := CheckCacheTtl(now);
        if c.Some? && 0 <= idx < |c.value.pages| && c.value.pages[idx].Some? {
          r := Resolved(c.value.pages[idx].value);
          return;
        }
        if idx < |pagePromises| {
          r := if idx >= 0 then FromChain(pagePromises[idx]) else Undefined;
          return;
        }
        var p := NextPage(now);
        if p.Err? {
          ChainErrPersists(service, bucket, Prefix(), pageSize, |pagePromises| - 1, idx);
          r := Rejected(p.error);
          return;
        }
        waited := true;
      }
    }

    /** The `getPage` calls of `get`: pages `startPage` to `startPage + n` (excluded), in order. */
    method GetPages(startPage: int, n: nat, now: Time) returns (fs: seq<Fetched>)
      requires Valid()
      modifies this, store
      ensures Valid()
      ensures |fs| == n
      ensures forall k :: 0 <= k < |fs| ==> Sourced(fs[k], startPage + k, old(cache))
    {
      fs := [];
      while |fs| < n
        invariant Valid() && |fs| <= n
        invariant forall m :: 0 <= m < |fs| ==> Sourced(fs[m], startPage + m, old(cache))
        invariant CacheFrom(cache, old(cache))
      {
        ghost var before := cache;
        var f := GetPage(startPage + |fs|, now);
        SourcedTrans(f, startPage + |fs|, before, old(cache));
        CacheFromTrans(cache, before, old(cache));
        fs := fs + [f];
      }
    }

    /** `get(start, end)`: the pages `floor(start / pageSize)` up to `ceil(end / pageSize)`
        (excluded) are requested in order, and their slices assembled; fewer than no pages is a
        `RangeError`. */
    method Get(start: int, end: int, now: Time) returns (r: Result<seq<Row>, Error>, fs: seq<Fetched>)
      requires Valid()
      modifies this, store
      ensures Valid()
      ensures CeilDiv(end, pageSize) < FloorDiv(start, pageSize) ==> r == Err(InvalidArrayLength) && fs == []
      ensures CeilDiv(end, pageSize) >= FloorDiv(start, pageSize) ==>
        && |fs| == CeilDiv(end, pageSize) - FloorDiv(start, pageSize)
        && r == Assemble(fs, FloorDiv(start, pageSize), start, end, pageSize)
      ensures forall k :: 0 <= k < |fs| ==> (fs[k].Undefined? <==> FloorDiv(start, pageSize) + k < 0)
      ensures forall k :: 0 <= k < |fs| ==> Sourced(fs[k], FloorDiv(start, pageSize) + k, old(cache))
      ensures old(cache).None? ==>
        forall k :: 0 <= k < |fs| && FloorDiv(start, pageSize) + k >= 0 ==> fs[k] == FromChain(Requested(FloorDiv(start, pageSize) + k))
      ensures r.Ok? ==> |r.value| <= Max(0, end - start)
      ensures start <= end && |fs| > 0 && (forall k :: 0 <= k < |fs| ==> fs[k].Resolved?) && FullPages(Settled(fs), pageSize) ==>
        IsWindow(Settled(fs), FloorDiv(start, pageSize) * pageSize, start, end, pageSize) &&
        r == AssembleFrom(Settled(fs), FloorDiv(start, pageSize) * pageSize, start, end, pageSize)
    {
      var startPage := FloorDiv(start, pageSize);
      var endPage := CeilDiv(end, pageSize);
      fs := [];
      if endPage - startPage < 0 {
        return Err(InvalidArrayLength), fs;
      }
      fs := GetPages(startPage, endPage - startPage, now);
      r := Assemble(fs, startPage, start, end, pageSize);
      GetFacts(fs, start, end, old(cache));
    }

    /** The three assignments and the `saveCache()` made with a metadata result. */
    method SaveMetadata(m: Metadata)
      modifies this, store
      ensures CacheState(cache, store.entries) == Overwrite(scope, old(cache), m, old(store.entries))
      ensures pagePromises == old(pagePromises)
    {
      if cache.Some? {
        cache := Some(cache.value.(numChildren := Some(m.numChildren), totalSize := Some(m.totalSize), lastModified := m.lastModified));
        SaveCache();
      }
    }

    /** `checkMetadata()`. */
    method CheckMetadata(fuel: nat, now: Time) returns (r: Result<Option<Metadata>, Error>)
      requires Valid()
      modifies this, store
      ensures Valid()
      ensures Outcome(r, cache, store.entries) == CheckF(scope, fuel, old(cache), old(store.entries), now)
      ensures pagePromises == old(pagePromises)
      decreases fuel, 4
    {
      var known := Known(cache);
      if known.Some? {
        return Ok(known);
      }
      r := ReduceSync(fuel, now);
      if r.Ok? && r.value.Some? {
        if cache.None? {
          // the source throws here; the fold yields metadata only with a cache
          assert false;
        }
        SaveMetadata(r.value.value);
      }
    }

    /** `reduceSync` with `checkMetadata`'s callbacks. */
    method ReduceSync(fuel: nat, now: Time) returns (r: Result<Option<Metadata>, Error>)
      requires Valid()
      modifies store
      ensures Folded(r, store.entries) == ReduceF(scope, fuel, cache, old(store.entries), now)
      decreases fuel, 3
    {
      if cache.None? || cache.value.numChildren.None? {
        return Ok(None);
      }
      var pages := cache.value.pages;
      var acc := Zero;
      var i := 0;
      while i < |pages|
        invariant 0 <= i <= |pages|
        invariant PagesF(bucket, fuel, pages, i, acc, store.entries, now)
               == PagesF(bucket, fuel, pages, 0, Zero, old(store.entries), now)
      {
        var p := NormPage(pages[i]);
        if p.Err? {
          return Err(p.error);
        }
        var dirs := p.value.dirs;
        ghost var before := store.entries;
        var dacc := Zero;
        var j := 0;
        while j < |dirs|
          invariant 0 <= j <= |dirs|
          invariant DirsF(bucket, fuel, dirs, j, dacc, store.entries, now) == DirsF(bucket, fuel, dirs, 0, Zero, before, now)
        {
          var v := DirMetadata(fuel, dirs[j], now);
          if v.Err? || v.value.None? {
            return v;
          }
          dacc := Combine(dacc, DirValue(v.value.value));
          j := j + 1;
        }
        acc := Combine(acc, Combine(dacc, FoldFiles(p.value.files, Zero)));
        i := i + 1;
      }
      r := Ok(Some(acc));
    }

    /** `checkMetadata`'s `dirFn`: the metadata a fetcher for the directory reports. */
    method DirMetadata(fuel: nat, dir: Dir, now: Time) returns (r: Result<Option<Metadata>, Error>)
      requires Valid()
      modifies store
      ensures Folded(r, store.entries) == ChildF(bucket, fuel, dir, old(store.entries), now)
      decreases fuel, 1
    {
      if fuel == 0 {
        return Err(DepthExhausted);
      }
      var child := new S3Fetcher(store, service, bucket, Some(dir.prefix), None, DefaultTtl, now);
      r := child.CheckMetadata(fuel - 1, now);
    }

    /** A fetcher `dirs()` made for a directory: same store and bucket, the directory's
        scope, the cache it opened, no request yet. */
    predicate Child(f: S3Fetcher, dir: Dir, c: Option<Cache<Option<Time>>>)
      reads this, f
    {
      && f.store == store && f.bucket == bucket
      && f.scope == ScopeOf(bucket, Some(dir.prefix)) && f.cache == c && f.Valid()
    }

    /** The entries of `dirs()` against the directories and the caches they opened. */
    predicate Spawned(fs: seq<Option<S3Fetcher>>, slots: seq<Option<Dir>>, caches: seq<Option<Cache<Option<Time>>>>, from: nat)
      requires |fs| == |slots| == |caches|
      reads this, set k | 0 <= k < |fs| && fs[k].Some? :: fs[k].value
    {
      && (forall k :: from <= k < |fs| ==> (fs[k].None? <==> slots[k].None?))
      && (forall k :: from <= k < |fs| && fs[k].Some? ==> Child(fs[k].value, slots[k].value, caches[k]))
      && (forall a, b :: from <= a < b < |fs| && fs[a].Some? && fs[b].Some? ==> fs[a].value != fs[b].value)
    }

    /** `dirs()`: `undefined` until the number of children is known; otherwise a new fetcher per
        directory of the cached pages, in order (an `undefined` entry per hole), each opening its
        own cache from the store. A page that does not normalise throws before any is made. */
    method Dirs(now: Time) returns (r: Result<Option<seq<Option<S3Fetcher>>>, Error>)
      requires Valid()
      modifies store
      ensures cache.None? || cache.value.numChildren.None? ==> r == Ok(None) && store.entries == old(store.entries)
      ensures cache.Some? && cache.value.numChildren.Some? && PagesError(cache.value.pages).Some? ==>
        r == Err(PagesError(cache.value.pages).value) && store.entries == old(store.entries)
      ensures cache.Some? && cache.value.numChildren.Some? && PagesError(cache.value.pages).None? ==>
        && r.Ok? && r.value.Some?
        && var slots := DirSlots(cache.value.pages);
           var o := OpenAll(bucket, slots, old(store.entries), now);
           && |r.value.value| == |slots|
           && store.entries == o.entries
           && Spawned(r.value.value, slots, o.caches, 0)
           && forall k :: 0 <= k < |slots| && r.value.value[k].Some? ==> fresh(r.value.value[k].value)
    {
      if cache.None? || cache.value.numChildren.None? {
        return Ok(None);
      }
      var pages := cache.value.pages;
      var e := PagesError(pages);
      if e.Some? {
        return Err(e.value);
      }
      var slots := DirSlots(pages);
      var fs := SpawnAll(slots, now);
      r := Ok(Some(fs));
    }

    /** The fetchers of `dirs()` for the given entries, made in order. */
    method SpawnAll(slots: seq<Option<Dir>>, now: Time) returns (fs: seq<Option<S3Fetcher>>)
      requires Valid()
      modifies store
      ensures |fs| == |slots|
      ensures store.entries == OpenAll(bucket, slots, old(store.entries), now).entries
      ensures Spawned(fs, slots, OpenAll(bucket, slots, old(store.entries), now).caches, 0)
      ensures forall k :: 0 <= k < |slots| && fs[k].Some? ==> fresh(fs[k].value)
      decreases |slots|
    {
      if |slots| == 0 {
        return [];
      }
      var f := Spawn(slots[0], now);
      var rest := SpawnAll(slots[1..], now);
      fs := [f] + rest;
    }

    /** One entry of `dirs()`: a fetcher for the directory, or `undefined` for a hole. */
    method Spawn(slot: Option<Dir>, now: Time) returns (f: Option<S3Fetcher>)
      requires Valid()
      modifies store
      ensures f.None? <==> slot.None?
      ensures store.entries == OpenSlot(bucket, slot, old(store.entries), now).entries
      ensures f.Some? ==> fresh(f.value) && Child(f.value, slot.value, OpenSlot(bucket, slot, old(store.entries), now).cache)
    {
      if slot.None? {
        return None;
      }
      var c := new S3Fetcher(store, service, bucket, Some(slot.value.prefix), None, DefaultTtl, now);
      f := Some(c);
    }

    /** `clearCache()`: with a cache, the fetchers of its directories are cleared in order, then
        the cache is dropped and removed from the store; the first throw ends it. */
    method ClearCache(fuel: nat, now: Time) returns (r: Option<Error>)
      requires Valid()
      modifies this, store
      ensures Cleared(r, cache, store.entries) == ClearF(scope, fuel, old(cache), old(store.entries), now)
      ensures pagePromises == old(pagePromises)
      decreases fuel, 1
    {
      if cache.None? {
        return None;
      }
      var ds := Dirs(now);
      if ds.Err? {
        return Some(ds.error);
      }
      if ds.value.Some? {
        var fs := ds.value.value;
        ghost var slots := DirSlots(cache.value.pages);
        ghost var o := OpenAll(bucket, slots, old(store.entries), now);
        var e := ClearAll(fuel, fs, slots, o.caches, now);
        if e.Some? {
          return e;
        }
      }
      cache := None;
      SaveCache();
      r := None;
    }

    /** `dirs.forEach(dir => dir.clearCache())` over the fetchers of `dirs()`: cleared in order; an
        `undefined` entry throws a `TypeError`, and the first throw ends it. */
    method ClearAll(fuel: nat, fs: seq<Option<S3Fetcher>>, ghost slots: seq<Option<Dir>>,
                    ghost caches: seq<Option<Cache<Option<Time>>>>, now: Time) returns (r: Option<Error>)
      requires Valid()
      requires |fs| == |slots| == |caches| && Spawned(fs, slots, caches, 0)
      modifies store, set m | 0 <= m < |fs| && fs[m].Some? :: fs[m].value
      ensures Cleared(r, None, store.entries) == ClearChildren(bucket, fuel, slots, caches, 0, old(store.entries), now)
      decreases fuel, 0
    {
      var k := 0;
      while k < |fs|
        invariant 0 <= k <= |fs|
        invariant ClearChildren(bucket, fuel, slots, caches, k, store.entries, now)
               == ClearChildren(bucket, fuel, slots, caches, 0, old(store.entries), now)
        invariant Spawned(fs, slots, caches, k)
      {
        if fs[k].None? {
          return Some(TypeError);
        }
        if fuel == 0 {
          return Some(DepthExhausted);
        }
        var e := fs[k].value.ClearCache(fuel - 1, now);
        if e.Some? {
          return e;
        }
        k := k + 1;
      }
      r := None;
    }

    /** `computeMetadata()`: the cached size and time when both are known (without a number of
        children); otherwise `reduce` from the first page. */
    method ComputeMetadata(fuel: nat, now: Time) returns (r: Result<Totals, Error>, ghost pages: seq<RawPage>, ghost vs: seq<Metadata>)
      requires Valid()
      modifies this, store
      ensures Valid()
      ensures Shortcut(old(cache)) ==>
        && r == Ok(Totals(None, old(cache).value.totalSize.value, old(cache).value.lastModified))
        && cache == old(cache) && store.entries == old(store.entries)
      ensures !Shortcut(old(cache)) && r.Ok? ==>
        && r.value.numChildren.Some?
        && (cache.Some? ==> Holds(cache.value, Metadata(r.value.numChildren.value, r.value.totalSize, r.value.lastModified)))
        && FoldsWalk(Metadata(r.value.numChildren.value, r.value.totalSize, r.value.lastModified), pages, vs, 0, old(cache))
      decreases fuel, 4
    {
      pages, vs := [], [];
      if Shortcut(cache) {
        return Ok(Totals(None, cache.value.totalSize.value, cache.value.lastModified)), pages, vs;
      }
      var m;
      m, pages, vs := Reduce(fuel, 0, now);
      r := if m.Ok? then Ok(Totals(Some(m.value.numChildren), m.value.totalSize, m.value.lastModified)) else Err(m.error);
    }

    /** `reduce` with `computeMetadata`'s callbacks from page `pageIdx`: the page's directories
        (each through a fetcher of its own) and files folded, merged with the fold of the pages
        after it when it is truncated, and written into the cache before it is returned. On
        success, `pages` are the pages walked, from `pageIdx` up to the first that is not
        truncated, and `vs` the value of each: the result is the fold of `vs` from the right. */
    method Reduce(fuel: nat, pageIdx: nat, now: Time) returns (r: Result<Metadata, Error>, ghost pages: seq<RawPage>, ghost vs: seq<Metadata>)
      requires Valid()
      modifies this, store
      ensures Valid()
      ensures r.Ok? && cache.Some? ==> Holds(cache.value, r.value) && scope in store.entries && store.entries[scope] == cache.value
      ensures CacheFrom(cache, old(cache))
      ensures r.Ok? ==> FoldsWalk(r.value, pages, vs, pageIdx, old(cache))
      decreases fuel, 3
    {
      pages, vs := [], [];
      var f := GetPage(pageIdx, now);
      if f.Rejected? {
        return Err(f.error), pages, vs;
      }
      ghost var ms;
      r, pages, vs, ms := ReducePage(fuel, pageIdx, f.page, now, old(cache));
    }

    /** The rest of `reduce` once page `pageIdx` is in: `page`, which came from the request for
        that index or from the cache `c0` the walk started from. The walk starts with `page`, whose
        value is its `PageValue` for the metadata `ms` its directories reported. */
    method ReducePage(fuel: nat, pageIdx: nat, page: RawPage, now: Time, ghost c0: Option<Cache<Option<Time>>>)
      returns (r: Result<Metadata, Error>, ghost pages: seq<RawPage>, ghost vs: seq<Metadata>, ghost ms: seq<Metadata>)
      requires Valid() && CacheFrom(cache, c0) && Sourced(Resolved(page), pageIdx, c0)
      modifies this, store
      ensures Valid()
      ensures r.Ok? && cache.Some? ==> Holds(cache.value, r.value) && scope in store.entries && store.entries[scope] == cache.value
      ensures CacheFrom(cache, c0)
      ensures r.Ok? ==> FoldsWalk(r.value, pages, vs, pageIdx, c0)
      ensures r.Ok? ==>
        && pages[0] == page && |ms| == |NormPage(Some(page)).value.dirs|
        && vs[0] == PageValue(NormPage(Some(page)).value, ms)
      decreases fuel, 2
    {
      pages, vs, ms := [], [], [];
      var p := NormPage(Some(page));
      if p.Err? {
        return Err(p.error), pages, vs, ms;
      }
      var dacc;
      dacc, ms := DirResults(fuel, p.value.dirs, now);
      if dacc.Err? {
        return Err(dacc.error), pages, vs, ms;
      }
      var v := Combine(dacc.value, FoldFiles(p.value.files, Zero));
      PageValueOfWalk(Some(page), ms, v);
      r, pages, vs := ReduceRest(fuel, pageIdx, page, v, now, c0);
      if r.Ok? {
        ghost var c3 := cache;
        SaveMetadata(r.value);
        CacheFromSamePages(cache, c3, c0);
      }
    }

    /** `rest === undefined ? cur : fn(cur, rest)`: the value `v` of page `pageIdx` alone when the
        page is not truncated, otherwise merged with `reduce` from the next page. */
    method ReduceRest(fuel: nat, pageIdx: nat, page: RawPage, v: Metadata, now: Time, ghost c0: Option<Cache<Option<Time>>>)
      returns (r: Result<Metadata, Error>, ghost pages: seq<RawPage>, ghost vs: seq<Metadata>)
      requires Valid() && CacheFrom(cache, c0) && Sourced(Resolved(page), pageIdx, c0) && IsPageValue(Some(page), v)
      modifies this, store
      ensures Valid()
      ensures CacheFrom(cache, c0)
      ensures r.Ok? ==> FoldsWalk(r.value, pages, vs, pageIdx, c0)
      ensures r.Ok? ==> pages[0] == page && vs[0] == v
      decreases fuel, 1
    {
      pages, vs := [page], [v];
      if !page.isTruncated {
        WalkedPagesOne(page, v, pageIdx, c0);
        r := Ok(v);
      } else if fuel == 0 {
        r := Err(DepthExhausted);
      } else {
        ghost var c2 := cache;
        var rest, restPages, restVs := Reduce(fuel - 1, pageIdx + 1, now);
        CacheFromTrans(cache, c2, c0);
        if rest.Err? {
          r := Err(rest.error);
        } else {
          FoldsWalkCons(page, v, rest.value, restPages, restVs, pageIdx, c2, c0);
          r, pages, vs := Ok(Combine(v, rest.value)), [page] + restPages, [v] + restVs;
        }
      }
    }

    /** `Promise.all(dirs.map(dirFn)).then(results => results.reduce(fn, init))`: the totals of
        each directory, through a fetcher of its own, counted as one child each and folded from
        `Zero`; the first failure rejects the whole. On success, `ms` holds the size and time each
        directory reported, and the result is their fold. */
    method DirResults(fuel: nat, dirs: seq<Dir>, now: Time) returns (r: Result<Metadata, Error>, ghost ms: seq<Metadata>)
      requires Valid()
      modifies store
      ensures r.Ok? ==> r.value.numChildren == |dirs|
      ensures r.Ok? ==> |ms| == |dirs| && r.value == FoldDirs(Zero, ms)
      decreases fuel, 1
    {
      var acc := Zero;
      var j := 0;
      ms := [];
      while j < |dirs|
        invariant 0 <= j <= |dirs|
        invariant acc.numChildren == j
        invariant |ms| == j && acc == FoldDirs(Zero, ms)
      {
        var v := DirTotals(fuel, dirs[j], now);
        if v.Err? {
          return Err(v.error), ms;
        }
        var m := Metadata(1, v.value.totalSize, v.value.lastModified);
        FoldDirsSnoc(Zero, ms, m);
        acc := Combine(acc, DirValue(m));
        ms := ms + [m];
        j := j + 1;
      }
      r := Ok(acc);
    }

    /** `computeMetadata`'s `dirFn`: what a fetcher for the directory computes. */
    method DirTotals(fuel: nat, dir: Dir, now: Time) returns (r: Result<Totals, Error>)
      requires Valid()
      modifies store
      decreases fuel, 0
    {
      if fuel == 0 {
        return Err(DepthExhausted);
      }
      var child := new S3Fetcher(store, service, bucket, Some(dir.prefix), None, DefaultTtl, now);
      var res, _, _ := child.ComputeMetadata(fuel - 1, now);
      r := res;
    }

    /** `fileMetadata()`: `undefined` without a cache; otherwise the files of the cached pages
        alone, folded from nothing: one child per file, their sizes summed, and the latest of their
        times (none when there is no file). */
    function FileMetadata(): (r: Result<Option<Metadata>, Error>)
      reads this
      ensures cache.None? ==> r == Ok(None)
      ensures cache.Some? ==> (r.Err? <==> PagesFiles(cache.value.pages).Err?) && (r.Err? ==> r == Err(PagesFiles(cache.value.pages).error))
      ensures cache.Some? && r.Ok? ==>
        && r.value.Some?
        && var m := r.value.value; var files := PagesFiles(cache.value.pages).value;
           && m.numChildren == |files| == FileCount(cache.value.pages)
           && m.totalSize == SumSizes(files)
           && (m.lastModified.None? <==> |files| == 0)
           && (forall k :: 0 <= k < |files| ==> MtimeLe(Some(files[k].lastModified), m.lastModified))
           && (m.lastModified.Some? ==> exists k :: 0 <= k < |files| && m.lastModified.value == files[k].lastModified)
    {
      if cache.None? then Ok(None)
      else
        var files :- PagesFiles(cache.value.pages);
        FoldFilesTotals(files, Zero);
        Ok(Some(FoldFiles(files, Zero)))
    }
  }

  /** What `computeMetadata` resolves to: on the cached shortcut the source returns only the size
      and the time, so the number of children is then absent. */
  datatype Totals = Totals(numChildren: Option<int>, totalSize: int, lastModified: Option<Time>)

  /** `computeMetadata`'s shortcut: the cache knows the size and the time. */
  predicate Shortcut(cache: Option<Cache<Option<Time>>>)
  {
    cache.Some? && cache.value.totalSize.Some? && cache.value.lastModified.Some?
  }

  /** The constructor with its `ttl` text: text without a digit throws once the stored cache has
      been read, before the TTL check; the store is then unchanged. */
  method Create(store: Store<Option<Time>>, service: Service, bucket: string, key: Option<string>, pageSize: Option<nat>,
                ttl: Option<string>, units: UnitTable, now: Time) returns (r: Result<S3Fetcher, Error>)
    modifies store
    ensures ParseTtl(ttl, units).Err? ==> r == Err(ParseTtl(ttl, units).error) && store.entries == old(store.entries)
    ensures ParseTtl(ttl, units).Ok? ==>
      && r.Ok? && fresh(r.value) && r.value.Valid() && r.value.store == store
      && r.value.ttl == ParseTtl(ttl, units).value && r.value.scope == ScopeOf(bucket, key)
      && r.value.cache == Open(old(store.entries), ScopeOf(bucket, key), r.value.ttl, now).cache
      && store.entries == Open(old(store.entries), ScopeOf(bucket, key), r.value.ttl, now).entries
  {
    var t := ParseTtl(ttl, units);
    if t.Err? {
      return Err(t.error);
    }
    var f := new S3Fetcher(store, service, bucket, key, pageSize, t.value, now);
    r := Ok(f);
  }
}
