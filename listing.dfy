/** What both revisions of the listing fetcher share: the raw pages of an S3 `ListObjectsV2`
    listing, their normalisation into directory and file rows, the page range and slice arithmetic
    of `get`, the chain of page requests that continuation tokens impose, the per-scope cache
    record, the merge of a fetched page into it, and the local store that holds the caches. */
module Listing {
  import opened Wrappers
  import opened Text

  /** Milliseconds since the epoch, or a span of milliseconds. */
  type Time = int

  function Min(a: int, b: int): int { if a < b then a else b }
  function Max(a: int, b: int): int { if a < b then b else a }

  // ---------------------------------------------------------------- raw pages and rows

  /** A `CommonPrefix` of a listing: a "directory" one level down. */
  datatype RawPrefix = RawPrefix(prefix: Option<string>)

  /** An `Object` of a listing; every field may be missing from the response. */
  datatype RawObject = RawObject(key: Option<string>, lastModified: Option<Time>, size: Option<int>)

  /** A `ListObjectsV2Output`: a page of a listing (`IsTruncated` missing reads as false). */
  datatype RawPage = RawPage(
    commonPrefixes: Option<seq<RawPrefix>>,
    contents: Option<seq<RawObject>>,
    isTruncated: bool,
    nextToken: Option<string>)

  datatype Dir = Dir(prefix: string)
  datatype File = File(key: string, lastModified: Time, size: int)
  datatype Page = Page(dirs: seq<Dir>, files: seq<File>)
  datatype Row = DirRow(dir: Dir) | FileRow(file: File)

  /** What the fetcher throws, or what its promises reject with. */
  datatype Error =
    | MissingPrefix                 // `Dir` of a prefix without `Prefix`
    | MissingObjectField            // `File` of an object without `Key`, `LastModified` or `Size`
    | TruncationMismatch(pageIdx: nat)  // `nextPage` refusing to continue after the previous page
    | InvalidArrayLength            // `Array(n)` with a negative `n` in `get`
    | TypeError                     // a property read on `undefined`
    | UnrecognizedTtl(ttl: string)  // the constructor's TTL text has no duration in it
    | DepthExhausted                // the model's bound on the depth of the directory tree
    | RequestFailed(code: string)   // `listObjectsV2` rejected by the service (access denied, network, ...)

  /** `Dir(prefix)`: the prefix without one trailing `/`; a missing `Prefix` throws. */
  function NormDir(p: RawPrefix): (r: Result<Dir, Error>)
    ensures r.Err? <==> p.prefix.None?
    ensures r.Ok? ==>
      || p.prefix.value == r.value.prefix + "/"
      || (p.prefix.value == r.value.prefix && (|r.value.prefix| == 0 || r.value.prefix[|r.value.prefix| - 1] != '/'))
  {
    if p.prefix.None? then Err(MissingPrefix)
    else
      var s := p.prefix.value;
      assert |s| > 0 && s[|s| - 1] == '/' ==> s == s[..|s| - 1] + "/";
      Ok(Dir(StripTrailingSlash(s)))
  }

  /** `File(object)`: the three fields, all of which must be present. */
  function NormFile(o: RawObject): (r: Result<File, Error>)
    ensures r.Err? <==> o.key.None? || o.lastModified.None? || o.size.None?
    ensures r.Ok? ==> r.value == File(o.key.value, o.lastModified.value, o.size.value)
  {
    if o.key.None? || o.lastModified.None? || o.size.None? then Err(MissingObjectField)
    else Ok(File(o.key.value, o.lastModified.value, o.size.value))
  }

  /** `prefixes.map(Dir)`: fails as soon as one prefix does. */
  function NormDirs(ps: seq<RawPrefix>): (r: Result<seq<Dir>, Error>)
    ensures r.Ok? <==> forall i :: 0 <= i < |ps| ==> NormDir(ps[i]).Ok?
    ensures r.Ok? ==> |r.value| == |ps| && forall i :: 0 <= i < |ps| ==> NormDir(ps[i]) == Ok(r.value[i])
  {
    if |ps| == 0 then Ok([])
    else
      var d :- NormDir(ps[0]);
      var rest :- NormDirs(ps[1..]);
      assert forall i :: 1 <= i < |ps| ==> ps[i] == ps[1..][i - 1];
      Ok([d] + rest)
  }

  /** `objects.map(File)`: fails as soon as one object does. */
  function NormFiles(os: seq<RawObject>): (r: Result<seq<File>, Error>)
    ensures r.Ok? <==> forall i :: 0 <= i < |os| ==> NormFile(os[i]).Ok?
    ensures r.Ok? ==> |r.value| == |os| && forall i :: 0 <= i < |os| ==> NormFile(os[i]) == Ok(r.value[i])
  {
    if |os| == 0 then Ok([])
    else
      var f :- NormFile(os[0]);
      var rest :- NormFiles(os[1..]);
      assert forall i :: 1 <= i < |os| ==> os[i] == os[1..][i - 1];
      Ok([f] + rest)
  }

  /** `Page(page)`: the directories, then the files, in listing order; an absent page or an absent
      array counts as empty. */
  function NormPage(page: Option<RawPage>): (r: Result<Page, Error>)
    ensures page.None? ==> r == Ok(Page([], []))
    ensures page.Some? ==>
      (r.Ok? <==> NormDirs(page.value.commonPrefixes.GetOr([])).Ok? && NormFiles(page.value.contents.GetOr([])).Ok?)
    ensures r.Ok? && page.Some? ==>
      r.value.dirs == NormDirs(page.value.commonPrefixes.GetOr([])).value &&
      r.value.files == NormFiles(page.value.contents.GetOr([])).value
  {
    if page.None? then Ok(Page([], []))
    else
      var dirs :- NormDirs(page.value.commonPrefixes.GetOr([]));
      var files :- NormFiles(page.value.contents.GetOr([]));
      Ok(Page(dirs, files))
  }

  /** `dirs.concat(files)`: the rows of a page. */
  function Rows(p: Page): (r: seq<Row>)
    ensures |r| == |p.dirs| + |p.files|
    ensures forall i :: 0 <= i < |p.dirs| ==> r[i] == DirRow(p.dirs[i])
    ensures forall i :: 0 <= i < |p.files| ==> r[|p.dirs| + i] == FileRow(p.files[i])
  {
    seq(|p.dirs|, i requires 0 <= i < |p.dirs| => DirRow(p.dirs[i])) +
    seq(|p.files|, i requires 0 <= i < |p.files| => FileRow(p.files[i]))
  }

  /** The sum of the sizes of some files. */
  function SumSizes(files: seq<File>): (r: int)
    ensures |files| == 0 ==> r == 0
    ensures (forall k :: 0 <= k < |files| ==> files[k].size >= 0) ==>
      r >= 0 && forall k :: 0 <= k < |files| ==> files[k].size <= r
  {
    if |files| == 0 then 0 else files[0].size + SumSizes(files[1..])
  }

  /** The number of entries of a raw page, as `nextPage` counts them. */
  function Count(page: RawPage): nat
  {
    |page.contents.GetOr([])| + |page.commonPrefixes.GetOr([])|
  }

  /** A page that normalises has as many rows as entries. */
  lemma RowsCount(page: RawPage)
    requires NormPage(Some(page)).Ok?
    ensures |Rows(NormPage(Some(page)).value)| == Count(page)
  {
  }

  // ---------------------------------------------------------------- `get`'s arithmetic

  /** `floor(a / b)` for a positive `b`. */
  function FloorDiv(a: int, b: int): (q: int)
    requires b > 0
    ensures b * q <= a < b * q + b
  {
    a / b
  }

  /** `ceil(a / b)` for a positive `b`. */
  function CeilDiv(a: int, b: int): (q: int)
    requires b > 0
    ensures b * q - b < a <= b * q
  {
    (a + b - 1) / b
  }

  /** An index argument of `slice` against a length: negative ones count from the end. */
  function SliceIndex(x: int, n: nat): (r: nat)
    ensures r <= n
    ensures x >= 0 ==> r == Min(x, n)
  {
    if x < 0 then Max(n + x, 0) else Min(x, n)
  }

  /** `s.slice(a, b)`. */
  function JsSlice<T>(s: seq<T>, a: int, b: int): (r: seq<T>)
    ensures a >= 0 && b >= 0 ==> |r| <= Max(0, b - a)
    ensures a >= 0 && b >= 0 ==> r == s[Min(a, |s|)..Max(Min(a, |s|), Min(b, |s|))]
  {
    var lo := SliceIndex(a, |s|);
    var hi := SliceIndex(b, |s|);
    if hi <= lo then [] else s[lo..hi]
  }

  /** The part of a page's rows that falls in `[start, end)`, for a page whose first row is row
      `pageStart` of the listing. */
  function Window(rows: seq<Row>, pageStart: int, start: int, end: int, ps: int): (r: seq<Row>)
    ensures forall k :: 0 <= k < |r| ==>
      && Max(start - pageStart, 0) + k < |rows| && r[k] == rows[Max(start - pageStart, 0) + k]
      && start <= pageStart + Max(start - pageStart, 0) + k
    ensures pageStart <= end && ps >= 0 ==>
      && |r| == Max(0, Min(Min(end - pageStart, ps), |rows|) - Max(start - pageStart, 0))
      && forall k :: 0 <= k < |r| ==>
           r[k] == rows[Max(start - pageStart, 0) + k]
           && pageStart + Max(start - pageStart, 0) + k < end && Max(start - pageStart, 0) + k < ps
  {
    JsSlice(rows, Max(start - pageStart, 0), Min(end - pageStart, ps))
  }

  /** What `getPage` hands back: `undefined` instead of a promise (for a negative index), or a
      promise that resolves to a page or rejects. */
  datatype Fetched = Undefined | Resolved(page: RawPage) | Rejected(error: Error)

  /** A settled page request as a `Fetched` value. */
  function FromChain(r: Result<RawPage, Error>): (f: Fetched)
    ensures f.Undefined? == false
    ensures r.Ok? <==> f.Resolved?
    ensures r.Ok? ==> f.page == r.value
    ensures r.Err? ==> f.error == r.error
  {
    if r.Ok? then Resolved(r.value) else Rejected(r.error)
  }

  /** What a promise settles to: the page (or `undefined`), or an error. */
  type PageOutcome = Result<Option<RawPage>, Error>

  function Settled(fs: seq<Fetched>): (r: seq<PageOutcome>)
    requires forall k :: 0 <= k < |fs| ==> !fs[k].Undefined?
    ensures |r| == |fs|
    ensures forall k :: 0 <= k < |fs| ==> (r[k].Ok? <==> fs[k].Resolved?)
    ensures forall k :: 0 <= k < |fs| && fs[k].Resolved? ==> r[k].value == Some(fs[k].page)
    ensures forall k :: 0 <= k < |fs| && fs[k].Rejected? ==> r[k].error == fs[k].error
  {
    seq(|fs|, k requires 0 <= k < |fs| && !fs[k].Undefined? =>
      if fs[k].Resolved? then Ok(Some(fs[k].page)) else Err(fs[k].error))
  }

  /** The slices of consecutive pages, the first starting at row `pageStart`, concatenated in page
      order; the first error in page order (a failed request, or a page that does not normalise)
      is the result instead. */
  function AssembleFrom(outcomes: seq<PageOutcome>, pageStart: int, start: int, end: int, ps: int)
    : Result<seq<Row>, Error>
  {
    if |outcomes| == 0 then Ok([])
    else
      var page :- outcomes[0];
      var p :- NormPage(page);
      var rest :- AssembleFrom(outcomes[1..], pageStart + ps, start, end, ps);
      Ok(Window(Rows(p), pageStart, start, end, ps) + rest)
  }

  /** `get`'s answer once its page requests settled: `.then` on an `undefined` request throws
      before anything else happens; otherwise the slices are assembled. */
  function Assemble(fs: seq<Fetched>, startPage: int, start: int, end: int, ps: int)
    : (r: Result<seq<Row>, Error>)
    ensures (exists k :: 0 <= k < |fs| && fs[k].Undefined?) ==> r == Err(TypeError)
  {
    if exists k :: 0 <= k < |fs| && fs[k].Undefined? then Err(TypeError)
    else AssembleFrom(Settled(fs), startPage * ps, start, end, ps)
  }

  /** The first row of the last of `n` consecutive pages, the first starting at row `pageStart`. */
  function LastStart(pageStart: int, n: nat, ps: int): (r: int)
    ensures ps >= 0 ==> r >= pageStart
    decreases n
  {
    if n <= 1 then pageStart else LastStart(pageStart + ps, n - 1, ps)
  }

  lemma {:induction false} LastStartIs(pageStart: int, n: nat, ps: int)
    requires n >= 1
    ensures LastStart(pageStart, n, ps) == pageStart + (n - 1) * ps
    decreases n
  {
    if n > 1 {
      LastStartIs(pageStart + ps, n - 1, ps);
      assert (n - 1) * ps == (n - 2) * ps + ps;
    }
  }

  /** Every page in range starts before `end`, so the slices are disjoint parts of
      `[max(start, pageStart), end)`. */
  lemma {:induction false} AssembleFromLength(outcomes: seq<PageOutcome>, pageStart: int, start: int, end: int, ps: int)
    requires ps > 0
    requires |outcomes| > 0 ==> LastStart(pageStart, |outcomes|, ps) < end
    ensures AssembleFrom(outcomes, pageStart, start, end, ps).Ok? ==>
      |AssembleFrom(outcomes, pageStart, start, end, ps).value| <= Max(0, end - Max(start, pageStart))
  {
    var r := AssembleFrom(outcomes, pageStart, start, end, ps);
    if |outcomes| > 0 && r.Ok? {
      var p := NormPage(outcomes[0].value).value;
      var rest := AssembleFrom(outcomes[1..], pageStart + ps, start, end, ps);
      assert |outcomes| > 1 ==> LastStart(pageStart, |outcomes|, ps) == LastStart(pageStart + ps, |outcomes| - 1, ps);
      AssembleFromLength(outcomes[1..], pageStart + ps, start, end, ps);
      var w := Window(Rows(p), pageStart, start, end, ps);
      assert r.value == w + rest.value;
      assert pageStart < end;
      assert |w| <= Max(0, Min(end - pageStart, ps) - Max(start - pageStart, 0));
      WindowLengths(|w|, |rest.value|, pageStart, start, end, ps);
    }
  }

  /** A window of a page starting before `end`, followed by at most the rows `[start, end)` past
      that page, stays within the rows `[start, end)` from the page's start. */
  lemma WindowLengths(a: int, b: int, pageStart: int, start: int, end: int, ps: int)
    requires ps > 0 && pageStart < end
    requires a <= Max(0, Min(end - pageStart, ps) - Max(start - pageStart, 0))
    requires b <= Max(0, end - Max(start, pageStart + ps))
    ensures a + b <= Max(0, end - Max(start, pageStart))
  {
  }

  /** The rows of a page that settled and normalises; none otherwise. */
  function PageRows(o: PageOutcome): seq<Row>
  {
    if o.Ok? && NormPage(o.value).Ok? then Rows(NormPage(o.value).value) else []
  }

  /** The rows of each page, in order. */
  function RowsOf(outcomes: seq<PageOutcome>): (r: seq<seq<Row>>)
    ensures |r| == |outcomes|
  {
    if |outcomes| == 0 then [] else [PageRows(outcomes[0])] + RowsOf(outcomes[1..])
  }

  function Flatten(pages: seq<seq<Row>>): seq<Row>
  {
    if |pages| == 0 then [] else pages[0] + Flatten(pages[1..])
  }

  /** The window of a page that starts before `end` and holds at most a page of rows. */
  lemma WindowSlice(rows: seq<Row>, pageStart: int, start: int, end: int, ps: int)
    requires pageStart < end && start <= end && |rows| <= ps
    ensures var lo := Min(Max(start, pageStart) - pageStart, |rows|);
      var hi := Min(end - pageStart, |rows|);
      lo <= hi && Window(rows, pageStart, start, end, ps) == rows[lo..hi]
  {
  }

  /** A slice of `a + b` that begins in `a` and runs to the end of `a` or beyond, and one that begins
      in `b`. */
  lemma SliceConcat(a: seq<Row>, b: seq<Row>, lo: nat, hi: nat)
    requires lo <= |a| && |a| <= hi <= |a| + |b|
    ensures (a + b)[lo..hi] == a[lo..] + b[..hi - |a|]
  {
  }

  lemma SliceBeyond(a: seq<Row>, b: seq<Row>, lo: nat, hi: nat)
    requires |a| <= lo <= hi <= |a| + |b|
    ensures (a + b)[lo..hi] == b[lo - |a|..hi - |a|]
  {
  }

  /** One step of `AssembleFrom` on a page that settled and normalises. */
  lemma AssembleFromCons(outcomes: seq<PageOutcome>, pageStart: int, start: int, end: int, ps: int)
    requires |outcomes| > 0 && outcomes[0].Ok?
    requires NormPage(outcomes[0].value).Ok?
    requires AssembleFrom(outcomes[1..], pageStart + ps, start, end, ps).Ok?
    ensures AssembleFrom(outcomes, pageStart, start, end, ps)
      == Ok(Window(Rows(NormPage(outcomes[0].value).value), pageStart, start, end, ps)
            + AssembleFrom(outcomes[1..], pageStart + ps, start, end, ps).value)
  {
  }

  /** A single page that settled and normalises, holding at most a page, starting before `end`. */
  lemma AssembleFromSingle(outcomes: seq<PageOutcome>, pageStart: int, start: int, end: int, ps: int)
    requires |outcomes| == 1 && outcomes[0].Ok? && NormPage(outcomes[0].value).Ok?
    requires pageStart < end && start <= end
    requires |Rows(NormPage(outcomes[0].value).value)| <= ps
    ensures var p0 := Rows(NormPage(outcomes[0].value).value);
      var lo := Min(Max(start, pageStart) - pageStart, |p0|);
      var hi := Min(end - pageStart, |p0|);
      lo <= hi && AssembleFrom(outcomes, pageStart, start, end, ps) == Ok(p0[lo..hi])
  {
    var p0 := Rows(NormPage(outcomes[0].value).value);
    WindowSlice(p0, pageStart, start, end, ps);
    assert AssembleFrom(outcomes[1..], pageStart + ps, start, end, ps) == Ok([]);
    AssembleFromCons(outcomes, pageStart, start, end, ps);
    var w := Window(p0, pageStart, start, end, ps);
    assert w + [] == w;
  }

  /** The window of a full first page followed by the slice of the rest is the slice of the whole. */
  lemma WindowThenTail(p0: seq<Row>, tail: seq<Row>, pageStart: int, start: int, end: int, ps: int)
    requires |p0| == ps > 0 && start <= end && end - pageStart > ps
    ensures var lo' := Min(Max(start, pageStart + ps) - (pageStart + ps), |tail|);
      var hi' := Min(end - (pageStart + ps), |tail|);
      var lo := Min(Max(start, pageStart) - pageStart, |p0 + tail|);
      var hi := Min(end - pageStart, |p0 + tail|);
      lo' <= hi' && lo <= hi
      && Window(p0, pageStart, start, end, ps) + tail[lo'..hi'] == (p0 + tail)[lo..hi]
  {
    var lo' := Min(Max(start, pageStart + ps) - (pageStart + ps), |tail|);
    var hi' := Min(end - (pageStart + ps), |tail|);
    var lo := Min(Max(start, pageStart) - pageStart, |p0 + tail|);
    var hi := Min(end - pageStart, |p0 + tail|);
    WindowSlice(p0, pageStart, start, end, ps);
    assert hi == ps + hi';
    if start < pageStart + ps {
      assert lo' == 0 && lo <= ps;
      assert Window(p0, pageStart, start, end, ps) == p0[lo..];
      SliceConcat(p0, tail, lo, hi);
    } else {
      assert lo == ps + lo';
      assert Window(p0, pageStart, start, end, ps) == [];
      SliceBeyond(p0, tail, lo, hi);
    }
  }

  /** The assembled slices of the pages, the first starting at row `pageStart`, are the rows
      `[start, end)` of the pages' concatenation. */
  predicate IsWindow(outcomes: seq<PageOutcome>, pageStart: int, start: int, end: int, ps: int)
  {
    var all := Flatten(RowsOf(outcomes));
    var lo := Min(Max(start, pageStart) - pageStart, |all|);
    var hi := Min(end - pageStart, |all|);
    lo <= hi && AssembleFrom(outcomes, pageStart, start, end, ps) == Ok(all[lo..hi])
  }

  /** The requirements of `AssembleFromWindow`: every page settled and normalises, and holds a
      full page of rows, except the last, which holds at most a page. */
  predicate FullPages(outcomes: seq<PageOutcome>, ps: int)
  {
    (forall k :: 0 <= k < |outcomes| ==> outcomes[k].Ok? && NormPage(outcomes[k].value).Ok? && |PageRows(outcomes[k])| <= ps)
    && (forall k :: 0 <= k < |outcomes| - 1 ==> |PageRows(outcomes[k])| == ps)
  }

  lemma FullPagesRest(outcomes: seq<PageOutcome>, ps: int)
    requires |outcomes| > 1 && FullPages(outcomes, ps)
    ensures FullPages(outcomes[1..], ps)
    ensures |PageRows(outcomes[0])| == ps
  {
    var rest := outcomes[1..];
    forall k | 0 <= k < |rest| ensures rest[k] == outcomes[k + 1] {
    }
  }

  /** The step of `AssembleFromWindow`: a full first page followed by pages whose slices are the
      window of their concatenation. */
  lemma AssembleFromWindowStep(outcomes: seq<PageOutcome>, pageStart: int, start: int, end: int, ps: int)
    requires ps > 0 && start <= end && end - pageStart > ps && |outcomes| > 1
    requires outcomes[0].Ok? && NormPage(outcomes[0].value).Ok?
    requires |PageRows(outcomes[0])| == ps
    requires IsWindow(outcomes[1..], pageStart + ps, start, end, ps)
    ensures IsWindow(outcomes, pageStart, start, end, ps)
  {
    var rows := RowsOf(outcomes);
    var p0 := PageRows(outcomes[0]);
    assert rows[0] == p0 && rows[1..] == RowsOf(outcomes[1..]);
    var tail := Flatten(RowsOf(outcomes[1..]));
    assert Flatten(rows) == p0 + tail;
    AssembleFromCons(outcomes, pageStart, start, end, ps);
    WindowThenTail(p0, tail, pageStart, start, end, ps);
  }

  /** Pages that settled, normalise, hold a full page of rows each except the last (which holds at
      most a page): the assembled slices are the rows `[start, end)` of the pages' concatenation,
      counted from the first page's first row. */
  lemma {:induction false} AssembleFromWindow(outcomes: seq<PageOutcome>, pageStart: int, start: int, end: int, ps: int)
    requires ps > 0 && start <= end && |outcomes| > 0
    requires LastStart(pageStart, |outcomes|, ps) < end
    requires FullPages(outcomes, ps)
    ensures IsWindow(outcomes, pageStart, start, end, ps)
  {
    if |outcomes| == 1 {
      AssembleFromWindowLast(outcomes, pageStart, start, end, ps);
    } else {
      FullPagesRest(outcomes, ps);
      assert LastStart(pageStart, |outcomes|, ps) == LastStart(pageStart + ps, |outcomes| - 1, ps);
      AssembleFromWindow(outcomes[1..], pageStart + ps, start, end, ps);
      AssembleFromWindowStep(outcomes, pageStart, start, end, ps);
    }
  }

  /** `AssembleFromWindow` on the last page alone. */
  lemma AssembleFromWindowLast(outcomes: seq<PageOutcome>, pageStart: int, start: int, end: int, ps: int)
    requires ps > 0 && start <= end && |outcomes| == 1
    requires pageStart < end
    requires FullPages(outcomes, ps)
    ensures IsWindow(outcomes, pageStart, start, end, ps)
  {
    var rows := RowsOf(outcomes);
    assert rows == [PageRows(outcomes[0])];
    assert Flatten(rows) == rows[0] + Flatten(rows[1..]);
    assert Flatten(rows[1..]) == [];
    assert Flatten(rows) == Rows(NormPage(outcomes[0].value).value);
    AssembleFromSingle(outcomes, pageStart, start, end, ps);
  }

  // ---------------------------------------------------------------- the chain of page requests

  /** The listing service: the page with a given index of the listing of a bucket under a prefix,
      fetched with a page size, or the error the request was rejected with. */
  type Service = (string, string, nat, nat) -> Result<RawPage, Error>

  /** What `nextPage` demands of the previous page before asking for the next one: that it was
      truncated and carries the token to continue from. */
  predicate CanContinue(last: RawPage)
  {
    last.isTruncated && last.nextToken.Some? && last.nextToken.value != ""
  }

  /** The same test as written in both revisions: it refuses when the previous page IS truncated. */
  predicate CanContinueAsWritten(last: RawPage)
  {
    !(last.isTruncated || !(last.nextToken.Some? && last.nextToken.value != ""))
  }

  /** A page as S3 sends them: a continuation token exactly when the page is truncated. */
  predicate Conformant(last: RawPage)
  {
    last.isTruncated <==> (last.nextToken.Some? && last.nextToken.value != "")
  }

  /** As written, the test refuses every page S3 can send, so no listing gets past its first page;
      the corrected test continues exactly after the truncated ones. */
  lemma GuardAsWrittenNeverContinues(last: RawPage)
    requires Conformant(last)
    ensures !CanContinueAsWritten(last)
    ensures CanContinue(last) <==> last.isTruncated
  {
  }

  /** A truncated first page with a token: as written the second page is refused. */
  lemma GuardAsWrittenRefusesSecondPage()
    ensures !CanContinueAsWritten(RawPage(None, None, true, Some("t")))
    ensures CanContinue(RawPage(None, None, true, Some("t")))
  {
  }

  /** What the request for page `i` settles to when pages are requested one after the other from
      the first: a rejected request, or a refusal to continue, propagates to every later page. */
  function Chain(svc: Service, bucket: string, prefix: string, ps: nat, i: nat): (r: Result<RawPage, Error>)
    ensures r.Ok? ==> r == svc(bucket, prefix, ps, i)
    ensures svc(bucket, prefix, ps, i).Err? ==> r.Err?
  {
    if i == 0 then svc(bucket, prefix, ps, 0)
    else
      var prev := Chain(svc, bucket, prefix, ps, i - 1);
      if prev.Err? then prev
      else if !CanContinue(prev.value) then Err(TruncationMismatch(i))
      else svc(bucket, prefix, ps, i)
  }

  /** Page `i` is obtained exactly when its own request and every earlier one succeeded, and every
      earlier page was truncated with a token. */
  lemma {:induction false} ChainOkIff(svc: Service, bucket: string, prefix: string, ps: nat, i: nat)
    ensures Chain(svc, bucket, prefix, ps, i).Ok? <==>
      && svc(bucket, prefix, ps, i).Ok?
      && forall j :: 0 <= j < i ==> svc(bucket, prefix, ps, j).Ok? && CanContinue(svc(bucket, prefix, ps, j).value)
  {
    if i > 0 {
      ChainOkIff(svc, bucket, prefix, ps, i - 1);
    }
  }

  /** A failed page request settles to the first thing that went wrong: the service's own error for
      the first rejected request, or the refusal to continue after the first page that cannot be
      continued from. */
  lemma {:induction false} ChainErrCause(svc: Service, bucket: string, prefix: string, ps: nat, i: nat)
    requires Chain(svc, bucket, prefix, ps, i).Err?
    ensures exists j :: (
      && 0 <= j <= i
      && (forall m :: 0 <= m < j ==> svc(bucket, prefix, ps, m).Ok? && CanContinue(svc(bucket, prefix, ps, m).value))
      && (|| Chain(svc, bucket, prefix, ps, i) == svc(bucket, prefix, ps, j)
          || (j < i && svc(bucket, prefix, ps, j).Ok? && !CanContinue(svc(bucket, prefix, ps, j).value)
              && Chain(svc, bucket, prefix, ps, i) == Err(TruncationMismatch(j + 1)))))
  {
    if i == 0 {
      assert Chain(svc, bucket, prefix, ps, i) == svc(bucket, prefix, ps, 0);
    } else if Chain(svc, bucket, prefix, ps, i - 1).Err? {
      ChainErrCause(svc, bucket, prefix, ps, i - 1);
    } else {
      ChainOkIff(svc, bucket, prefix, ps, i - 1);
      if !CanContinue(Chain(svc, bucket, prefix, ps, i - 1).value) {
        assert Chain(svc, bucket, prefix, ps, i) == Err(TruncationMismatch((i - 1) + 1));
      } else {
        assert Chain(svc, bucket, prefix, ps, i) == svc(bucket, prefix, ps, i);
      }
    }
  }

  /** The `Prefix` a listing is requested under: the key with a `/` after it (none for no key). */
  function ListPrefix(key: string): (r: string)
    ensures key == "" ==> r == ""
    ensures key != "" ==> |r| > 0 && r[|r| - 1] == '/' && key <= r && |r| <= |key| + 1
  {
    if key == "" then ""
    else if key[|key| - 1] == '/' then key
    else key + "/"
  }

  // ---------------------------------------------------------------- the cache and its store

  /** Which cache a fetcher uses: a bucket and a key, `""` meaning the bucket's root (the source's
      `{bucket}` cache key, used for a missing and for an empty key alike). */
  datatype Scope = Scope(bucket: string, key: string)

  /** The scope of `new Fetcher({bucket, key})`: the key without one trailing `/`. */
  function ScopeOf(bucket: string, key: Option<string>): (r: Scope)
    ensures r.bucket == bucket
    ensures key.None? ==> r.key == ""
    ensures key.Some? ==> r.key == StripTrailingSlash(key.value)
  {
    Scope(bucket, StripTrailingSlash(key.GetOr("")))
  }

  /** A scope's cache: the raw pages fetched so far (`None` for a page never fetched below the
      last one), when the oldest of them was fetched, and the metadata known so far. `M` is how a
      revision records the latest modification time. */
  datatype Cache<M> = Cache(
    pages: seq<Option<RawPage>>,
    timestamp: Time,
    numChildren: Option<int>,
    totalSize: Option<int>,
    lastModified: M)

  /** The browser's local storage, as far as the fetchers use it: one cache per scope. */
  class Store<M> {
    var entries: map<Scope, Cache<M>>

    constructor(entries: map<Scope, Cache<M>>)
      ensures this.entries == entries
    {
      this.entries := entries;
    }
  }

  /** `saveCache()`'s effect on the store: the scope's entry written, or removed without a cache. */
  function Saved<M>(entries: map<Scope, Cache<M>>, scope: Scope, cache: Option<Cache<M>>): (r: map<Scope, Cache<M>>)
    ensures cache.None? ==> scope !in r
    ensures cache.Some? ==> scope in r && r[scope] == cache.value
    ensures forall s :: s != scope ==> (s in r <==> s in entries) && (s in r ==> r[s] == entries[s])
  {
    if cache.None? then entries - {scope} else entries[scope := cache.value]
  }

  /** A cache has expired once its timestamp plus the TTL is strictly before now. */
  predicate Expired<M>(c: Cache<M>, ttl: int, now: Time)
  {
    c.timestamp + ttl < now
  }

  /** `checkCacheTtl()`'s effect on the cache: dropped once it has expired, otherwise untouched. */
  function Checked<M>(cache: Option<Cache<M>>, ttl: int, now: Time): (r: Option<Cache<M>>)
    ensures r.Some? <==> cache.Some? && !Expired(cache.value, ttl, now)
    ensures r.Some? ==> r == cache
  {
    if cache.Some? && Expired(cache.value, ttl, now) then None else cache
  }

  /** Checking twice at the same instant is checking once, and a cache that survives a check
      survives every earlier one. */
  lemma CheckedIdempotent<M>(cache: Option<Cache<M>>, ttl: int, now: Time, earlier: Time)
    requires earlier <= now
    ensures Checked(Checked(cache, ttl, now), ttl, now) == Checked(cache, ttl, now)
    ensures Checked(cache, ttl, now).Some? ==> Checked(cache, ttl, earlier) == cache
  {
  }

  /** A fetcher's cache together with the store. */
  datatype CacheState<M> = CacheState(cache: Option<Cache<M>>, entries: map<Scope, Cache<M>>)

  /** What the constructor of a fetcher for a scope ends with: the stored cache unless it has
      expired, in which case `checkCacheTtl` dropped it from the store as well. */
  function Open<M>(entries: map<Scope, Cache<M>>, scope: Scope, ttl: int, now: Time): (r: CacheState<M>)
    ensures r.cache.Some? <==> scope in entries && !Expired(entries[scope], ttl, now)
    ensures r.cache.Some? ==> r.cache.value == entries[scope] && r.entries == entries
    ensures r.cache.None? ==> r.entries == entries - {scope}
  {
    if scope !in entries then CacheState(None, entries)
    else if Expired(entries[scope], ttl, now) then CacheState(None, entries - {scope})
    else CacheState(Some(entries[scope]), entries)
  }

  /** `pages[idx] = page` on a JavaScript array: the array grows with holes up to `idx`. */
  function SetSlot(pages: seq<Option<RawPage>>, idx: nat, page: RawPage): (r: seq<Option<RawPage>>)
    ensures |r| == Max(|pages|, idx + 1)
    ensures r[idx] == Some(page)
    ensures forall i :: 0 <= i < |r| && i != idx ==> r[i] == if i < |pages| then pages[i] else None
  {
    if idx < |pages| then pages[idx := Some(page)]
    else pages + seq(idx - |pages|, _ => None) + [Some(page)]
  }

  /** `nextPage`'s update of the cache with page `idx`, fetched at `now` with page size `ps`: the
      page is stored at its index, the timestamp becomes the older of the two, and a last page
      (not truncated) fixes the number of children. A new cache starts with the page alone and
      `absent` for the modification time. */
  function MergePage<M>(cache: Option<Cache<M>>, idx: nat, page: RawPage, now: Time, ps: nat, absent: M): (r: Cache<M>)
    ensures r.pages == SetSlot(if cache.Some? then cache.value.pages else [], idx, page)
    ensures r.timestamp <= now
    ensures cache.Some? ==> r.timestamp == Min(cache.value.timestamp, now)
    ensures cache.None? ==> r.timestamp == now
    ensures !page.isTruncated ==> r.numChildren == Some(idx * ps + Count(page))
    ensures page.isTruncated ==> r.numChildren == if cache.Some? then cache.value.numChildren else None
    ensures r.totalSize == if cache.Some? then cache.value.totalSize else None
    ensures r.lastModified == if cache.Some? then cache.value.lastModified else absent
  {
    var base :=
      if cache.None? then Cache(SetSlot([], idx, page), now, None, None, absent)
      else cache.value.(pages := SetSlot(cache.value.pages, idx, page),
                        timestamp := if now < cache.value.timestamp then now else cache.value.timestamp);
    if !page.isTruncated then base.(numChildren := Some(idx * ps + Count(page))) else base
  }

  /** Merging never makes a cache younger, and it leaves every other fetched page where it was. */
  lemma MergeKeepsOthers<M>(c: Cache<M>, idx: nat, page: RawPage, now: Time, ps: nat, absent: M)
    ensures MergePage(Some(c), idx, page, now, ps, absent).timestamp <= c.timestamp
    ensures forall i :: 0 <= i < |c.pages| && i != idx ==> MergePage(Some(c), idx, page, now, ps, absent).pages[i] == c.pages[i]
  {
  }

  // ---------------------------------------------------------------- the TTL text

  /** How many milliseconds a unit name stands for in `moment.duration(n, unit)`; 0 for a name
      `moment` does not know. */
  type UnitTable = string -> nat

  /** The index of the first decimal digit of `s`, or `|s|`. */
  function DigitRunStart(s: string): (r: nat)
    ensures r <= |s|
    ensures forall i :: 0 <= i < r ==> !IsDigit(s[i])
    ensures r < |s| ==> IsDigit(s[r])
  {
    if |s| == 0 || IsDigit(s[0]) then 0 else 1 + DigitRunStart(s[1..])
  }

  /** The characters a regular expression's `.` does not match. */
  predicate IsLineTerminator(c: char)
  {
    c == '\n' || c == '\r' || c == '\U{2028}' || c == '\U{2029}'
  }

  /** What `.*` matches at the front of `s`: everything up to the first line terminator. */
  function LineRest(s: string): (r: string)
    ensures r <= s
    ensures forall i :: 0 <= i < |r| ==> !IsLineTerminator(r[i])
    ensures |r| < |s| ==> IsLineTerminator(s[|r|])
  {
    if |s| == 0 || IsLineTerminator(s[0]) then [] else [s[0]] + LineRest(s[1..])
  }

  lemma {:induction false} DigitRunStartAfter(p: string, t: string)
    requires forall i :: 0 <= i < |p| ==> !IsDigit(p[i])
    requires |t| > 0 && IsDigit(t[0])
    ensures DigitRunStart(p + t) == |p|
    decreases |p|
  {
    if |p| > 0 {
      assert (p + t)[1..] == p[1..] + t;
      DigitRunStartAfter(p[1..], t);
    }
  }

  lemma {:induction false} LeadingDigitsOf(d: string, u: string)
    requires forall i :: 0 <= i < |d| ==> IsDigit(d[i])
    requires |u| == 0 || !IsDigit(u[0])
    ensures LeadingDigits(d + u) == |d|
    decreases |d|
  {
    if |d| > 0 {
      assert (d + u)[1..] == d[1..] + u;
      LeadingDigitsOf(d[1..], u);
    }
  }

  /** `ttl.match(/(?<n>\d+)(?<unit>.*)/)?.groups` read through `parseInt(groups.n)`: the value of the
      first run of digits and what follows that run on its line; `None` when there is no digit. */
  function MatchTtl(ttl: string): (r: Option<(nat, string)>)
    ensures r.None? <==> forall i :: 0 <= i < |ttl| ==> !IsDigit(ttl[i])
  {
    var i := DigitRunStart(ttl);
    if i == |ttl| then None
    else
      var rest := ttl[i..];
      var n := LeadingDigits(rest);
      Some((DigitsValue(rest[..n]), LineRest(rest[n..])))
  }

  /** Text without digits, then an amount, then a unit name on the same line: the match is the
      amount and the unit name. */
  lemma MatchTtlOf(p: string, n: nat, u: string)
    requires forall i :: 0 <= i < |p| ==> !IsDigit(p[i])
    requires forall i :: 0 <= i < |u| ==> !IsLineTerminator(u[i])
    requires |u| == 0 || !IsDigit(u[0])
    ensures MatchTtl(p + NatToString(n) + u) == Some((n, u))
  {
    var d := NatToString(n);
    var s := p + d + u;
    assert s == p + (d + u);
    DigitRunStartAfter(p, d + u);
    var rest := s[|p|..];
    assert rest == d + u;
    LeadingDigitsOf(d, u);
    assert rest[..|d|] == d;
    assert rest[|d|..] == u;
    assert LineRest(u) == u;
  }

  /** One day, the TTL when none is given. */
  const DefaultTtl: Time := 86400000

  /** `pageSize || 1000`. */
  function PageSizeOf(pageSize: Option<nat>): (r: nat)
    ensures r > 0
    ensures pageSize.Some? && pageSize.value > 0 ==> r == pageSize.value
    ensures pageSize.None? || pageSize == Some(0) ==> r == 1000
  {
    if pageSize.Some? && pageSize.value > 0 then pageSize.value else 1000
  }

  // ---------------------------------------------------------------- reading the cache

  /** A cache hit in `getPage`: the cache survives the TTL check and holds the page. */
  predicate CacheHit<M>(cache: Option<Cache<M>>, ttl: Time, idx: int, now: Time)
  {
    && cache.Some? && !Expired(cache.value, ttl, now)
    && 0 <= idx < |cache.value.pages| && cache.value.pages[idx].Some?
  }

  /** The page a cache holds at index `i`, if any. */
  function Slot<M>(cache: Option<Cache<M>>, i: int): (r: Option<RawPage>)
    ensures r.Some? <==> cache.Some? && 0 <= i < |cache.value.pages| && cache.value.pages[i].Some?
    ensures r.Some? ==> cache.value.pages[i] == r
  {
    if cache.Some? && 0 <= i < |cache.value.pages| then cache.value.pages[i] else None
  }

  /** Once a page request failed, every later one fails with the same error. */
  lemma {:induction false} ChainErrPersists(svc: Service, bucket: string, prefix: string, ps: nat, i: nat, j: nat)
    requires i <= j && Chain(svc, bucket, prefix, ps, i).Err?
    ensures Chain(svc, bucket, prefix, ps, j) == Chain(svc, bucket, prefix, ps, i)
    decreases j - i
  {
    if i < j {
      ChainErrPersists(svc, bucket, prefix, ps, i, j - 1);
    }
  }

  /** `get`'s arithmetic: the requested pages end before `end`, and the first starts no later than
      `start`, so at most `end - start` rows come back. */
  lemma GetLength(fs: seq<Fetched>, startPage: int, endPage: int, start: int, end: int, ps: nat)
    requires ps > 0 && startPage == FloorDiv(start, ps) && endPage == CeilDiv(end, ps)
    requires |fs| == endPage - startPage
    ensures var r := Assemble(fs, startPage, start, end, ps); r.Ok? ==> |r.value| <= Max(0, end - start)
  {
    if !exists k :: 0 <= k < |fs| && fs[k].Undefined? {
      if |fs| > 0 {
        LastPageStartsBeforeEnd(startPage, endPage, end, ps);
      }
      AssembleFromLength(Settled(fs), startPage * ps, start, end, ps);
    }
  }

  /** `get` over full pages: when every page of `[floor(start / ps), ceil(end / ps))` came back
      and holds a full page of rows (the last at most one), the result is the rows `[start, end)` of
      the listing those pages make up, cut to the rows that exist. */
  lemma AssembleWindow(fs: seq<Fetched>, startPage: int, endPage: int, start: int, end: int, ps: nat)
    requires ps > 0 && startPage == FloorDiv(start, ps) && endPage == CeilDiv(end, ps)
    requires start <= end && |fs| == endPage - startPage > 0
    requires forall k :: 0 <= k < |fs| ==> fs[k].Resolved?
    requires FullPages(Settled(fs), ps)
    ensures IsWindow(Settled(fs), startPage * ps, start, end, ps)
    ensures Assemble(fs, startPage, start, end, ps) == AssembleFrom(Settled(fs), startPage * ps, start, end, ps)
  {
    LastPageStartsBeforeEnd(startPage, endPage, end, ps);
    AssembleFromWindow(Settled(fs), startPage * ps, start, end, ps);
  }

  /** The last of the pages `[startPage, endPage)` starts before `end` when `endPage` is
      `ceil(end / ps)`. */
  lemma LastPageStartsBeforeEnd(startPage: int, endPage: int, end: int, ps: int)
    requires ps > 0 && endPage == CeilDiv(end, ps) && startPage < endPage
    ensures LastStart(startPage * ps, endPage - startPage, ps) < end
  {
    LastStartIs(startPage * ps, endPage - startPage, ps);
    assert startPage * ps + (endPage - startPage - 1) * ps == (endPage - 1) * ps;
    assert (endPage - 1) * ps == ps * endPage - ps;
  }

  /** The number of rows of the pages from `i` on, directories and files (a page that does not
      normalise counts none). */
  function RowsFrom(pages: seq<Option<RawPage>>, i: nat): nat
    requires i <= |pages|
    decreases |pages| - i
  {
    if i == |pages| then 0
    else
      var p := NormPage(pages[i]);
      (if p.Ok? then |p.value.dirs| + |p.value.files| else 0) + RowsFrom(pages, i + 1)
  }

  // ---------------------------------------------------------------- `dirs` and `clearCache` as functions

  /** The first page (holes skipped) that does not normalise, as `pages.map(Page)` meets it. */
  function PagesError(pages: seq<Option<RawPage>>): (r: Option<Error>)
    ensures r.None? <==> forall k :: 0 <= k < |pages| && pages[k].Some? ==> NormPage(pages[k]).Ok?
  {
    if |pages| == 0 then None
    else if pages[0].Some? && NormPage(pages[0]).Err? then Some(NormPage(pages[0]).error)
    else
      var r := PagesError(pages[1..]);
      assert forall k :: 1 <= k < |pages| ==> pages[k] == pages[1..][k - 1];
      r
  }

  /** The entries of `dirs()`: one per directory of every page in order, and an `undefined` one for
      each hole (the spread of a sparse array). */
  function DirSlots(pages: seq<Option<RawPage>>): (r: seq<Option<Dir>>)
    requires PagesError(pages).None?
  {
    if |pages| == 0 then []
    else
      var here := if pages[0].None? then [None]
        else var ds := NormPage(pages[0]).value.dirs; seq(|ds|, k requires 0 <= k < |ds| => Some(ds[k]));
      here + DirSlots(pages[1..])
  }

  /** `dirs()` has an `undefined` entry exactly when the cache has a hole among its pages. */
  lemma {:induction false} DirSlotsHoles(pages: seq<Option<RawPage>>)
    requires PagesError(pages).None?
    ensures (exists i :: 0 <= i < |pages| && pages[i].None?) <==>
      exists k :: 0 <= k < |DirSlots(pages)| && DirSlots(pages)[k].None?
  {
    if |pages| > 0 {
      var tail := pages[1..];
      DirSlotsHoles(tail);
      var r := DirSlots(pages);
      var rest := DirSlots(tail);
      var n := |r| - |rest|;
      assert r[n..] == rest;
      if pages[0].None? {
        assert r[0].None?;
      } else {
        assert forall k :: 0 <= k < n ==> r[k].Some?;
        if exists k :: 0 <= k < |r| && r[k].None? {
          var k :| 0 <= k < |r| && r[k].None?;
          assert rest[k - n].None?;
          var i :| 0 <= i < |tail| && tail[i].None?;
          assert pages[i + 1].None?;
        }
        if exists i :: 0 <= i < |pages| && pages[i].None? {
          var i :| 0 <= i < |pages| && pages[i].None?;
          assert tail[i - 1].None?;
          var k :| 0 <= k < |rest| && rest[k].None?;
          assert r[n + k].None?;
        }
      }
    }
  }

  /** The caches of the fetchers `dirs()` makes, opened one after the other, and the store after. */
  datatype Opened<M> = Opened(caches: seq<Option<Cache<M>>>, entries: map<Scope, Cache<M>>)

  /** The cache the fetcher for one entry of `dirs()` opens, and the store after: nothing for a hole. */
  function OpenSlot<M>(bucket: string, slot: Option<Dir>, entries: map<Scope, Cache<M>>, now: Time): (r: CacheState<M>)
    ensures r.cache.Some? ==>
      && slot.Some? && ScopeOf(bucket, Some(slot.value.prefix)) in entries
      && r.cache.value == entries[ScopeOf(bucket, Some(slot.value.prefix))] && r.entries == entries
    ensures r.entries.Keys <= entries.Keys && forall s :: s in r.entries ==> r.entries[s] == entries[s]
    ensures slot.Some? && r.cache.None? ==> ScopeOf(bucket, Some(slot.value.prefix)) !in r.entries
  {
    if slot.None? then CacheState(None, entries)
    else Open(entries, ScopeOf(bucket, Some(slot.value.prefix)), DefaultTtl, now)
  }

  function OpenAll<M>(bucket: string, slots: seq<Option<Dir>>, entries: map<Scope, Cache<M>>, now: Time): (r: Opened<M>)
    ensures |r.caches| == |slots|
    ensures r.entries.Keys <= entries.Keys && forall s :: s in r.entries ==> r.entries[s] == entries[s]
  {
    if |slots| == 0 then Opened([], entries)
    else
      var o := OpenSlot(bucket, slots[0], entries, now);
      var rest := OpenAll(bucket, slots[1..], o.entries, now);
      Opened([o.cache] + rest.caches, rest.entries)
  }

  /** What `clearCache()` threw, if anything, the fetcher's cache and the store afterwards. */
  datatype Cleared<M> = Cleared(thrown: Option<Error>, cache: Option<Cache<M>>, entries: map<Scope, Cache<M>>)

  /** `clearCache()` of the fetcher for `scope` holding `cache`: nothing without a cache; otherwise
      the fetchers of its directories are made (when the number of children is known) and cleared
      in order, then the cache is dropped and removed from the store. An `undefined` entry of
      `dirs()` throws a `TypeError`. */
  function ClearF<M>(scope: Scope, fuel: nat, cache: Option<Cache<M>>, entries: map<Scope, Cache<M>>, now: Time): (r: Cleared<M>)
    ensures cache.None? ==> r == Cleared(None, cache, entries)
    ensures r.thrown.None? && cache.Some? ==> r.cache.None? && scope !in r.entries
    ensures r.thrown.Some? ==> r.cache == cache
    decreases fuel, 1
  {
    if cache.None? then Cleared(None, cache, entries)
    else if cache.value.numChildren.None? then Cleared(None, None, Saved(entries, scope, None))
    else if PagesError(cache.value.pages).Some? then Cleared(PagesError(cache.value.pages), cache, entries)
    else
      var slots := DirSlots(cache.value.pages);
      var o := OpenAll(scope.bucket, slots, entries, now);
      var c := ClearChildren(scope.bucket, fuel, slots, o.caches, 0, o.entries, now);
      if c.thrown.Some? then Cleared(c.thrown, cache, c.entries)
      else Cleared(None, None, Saved(c.entries, scope, None))
  }

  /** `dirs.forEach(dir => dir.clearCache())` from entry `k`: the first throw ends it. */
  function ClearChildren<M>(bucket: string, fuel: nat, slots: seq<Option<Dir>>, caches: seq<Option<Cache<M>>>, k: nat,
                         entries: map<Scope, Cache<M>>, now: Time): (r: Cleared<M>)
    requires k <= |slots| == |caches|
    ensures r.cache.None?
    decreases fuel, 0, |slots| - k
  {
    if k == |slots| then Cleared(None, None, entries)
    else if slots[k].None? then Cleared(Some(TypeError), None, entries)
    else if fuel == 0 then Cleared(Some(DepthExhausted), None, entries)
    else
      var c := ClearF(ScopeOf(bucket, Some(slots[k].value.prefix)), fuel - 1, caches[k], entries, now);
      if c.thrown.Some? then Cleared(c.thrown, None, c.entries)
      else ClearChildren(bucket, fuel, slots, caches, k + 1, c.entries, now)
  }

  /** The store entries that survive a step, unchanged. */
  predicate Shrunk<M(==)>(after: map<Scope, Cache<M>>, before: map<Scope, Cache<M>>)
  {
    after.Keys <= before.Keys && forall s :: s in after ==> after[s] == before[s]
  }

  /** Clearing only ever removes entries from the store: it never writes one. */
  lemma {:induction false} ClearShrinks<M>(scope: Scope, fuel: nat, cache: Option<Cache<M>>, entries: map<Scope, Cache<M>>, now: Time)
    ensures Shrunk(ClearF(scope, fuel, cache, entries, now).entries, entries)
    decreases fuel, 1
  {
    if cache.Some? && cache.value.numChildren.Some? && PagesError(cache.value.pages).None? {
      var slots := DirSlots(cache.value.pages);
      var o := OpenAll(scope.bucket, slots, entries, now);
      ClearChildrenShrinks(scope.bucket, fuel, slots, o.caches, 0, o.entries, now);
    }
  }

  lemma {:induction false} ClearChildrenShrinks<M>(bucket: string, fuel: nat, slots: seq<Option<Dir>>, caches: seq<Option<Cache<M>>>,
                                                k: nat, entries: map<Scope, Cache<M>>, now: Time)
    requires k <= |slots| == |caches|
    ensures Shrunk(ClearChildren(bucket, fuel, slots, caches, k, entries, now).entries, entries)
    decreases fuel, 0, |slots| - k
  {
    if k < |slots| && slots[k].Some? && fuel > 0 {
      var c := ClearF(ScopeOf(bucket, Some(slots[k].value.prefix)), fuel - 1, caches[k], entries, now);
      ClearShrinks(ScopeOf(bucket, Some(slots[k].value.prefix)), fuel - 1, caches[k], entries, now);
      if c.thrown.None? {
        ClearChildrenShrinks(bucket, fuel, slots, caches, k + 1, c.entries, now);
      }
    }
  }
}
