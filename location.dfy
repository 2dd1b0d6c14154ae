/** What the viewer derives from where it is served and from the route's path: the bucket, the
    key, the key's ancestors, the bucket's endpoint and the in-app URL of a key. The hostname
    parsing itself happens before, and its outcome is an input here. */
module Location {
  import opened Wrappers
  import opened Text
  import Utils

  /** `S3LocationInfo`, without the pathname (the derivations never read it). `urlMetadataBucket` is
      the bucket named in an S3 hostname; `urlBucket` the bucket known from the URL at all. */
  datatype LocationInfo = LocationInfo(
    host: string,
    hostname: string,
    urlMetadataBucket: Option<string>,
    isS3Domain: bool,
    urlBucket: Option<string>,
    urlPathPrefix: Option<string>)

  /** JavaScript truthiness of an optional string: present and non-empty. */
  predicate Truthy(s: Option<string>) {
    s.Some? && s.value != ""
  }

  /** How a possibly `undefined` bucket reads inside a template string. */
  function Show(bucket: Option<string>): string {
    if bucket.Some? then bucket.value else "undefined"
  }

  /** `path`: the route's path with one trailing `/` and then one leading `/` removed. */
  function Path(param: Option<string>): (r: string)
    ensures param.None? ==> r == ""
    ensures var s := param.GetOr("");
      && |s| - 2 <= |r| <= |s|
      && exists a :: 0 <= a <= 1 && a + |r| <= |s| && r == s[a..][..|r|]
  {
    var s := param.GetOr("");
    var t := StripTrailingSlash(s);
    var a := if |t| > 0 && t[0] == '/' then 1 else 0;
    var r := StripLeadingSlash(t);
    assert r == s[a..][..|r|];
    r
  }

  /** A path wrapped in slashes is the path; a path with neither is itself. */
  lemma PathUnwraps(p: string)
    ensures Path(Some("/" + p + "/")) == p
    ensures (|p| == 0 || (p[0] != '/' && p[|p| - 1] != '/')) ==> Path(Some(p)) == p
  {
    var s := "/" + p + "/";
    assert s[..|s| - 1] == "/" + p;
    assert ("/" + p)[1..] == p;
  }

  /** `pathPieces`: the pieces of the URL's path prefix, then those of the path. */
  function PathPieces(urlPathPrefix: Option<string>, path: string): (r: seq<string>)
    ensures forall i :: 0 <= i < |r| ==> '/' !in r[i]
  {
    var pre := if Truthy(urlPathPrefix) then Split(urlPathPrefix.value, '/') else [];
    var post := if path != "" then Split(path, '/') else [];
    assert forall i :: 0 <= i < |pre| ==> '/' !in (pre + post)[i];
    assert forall i :: |pre| <= i < |pre| + |post| ==> (pre + post)[i] == post[i - |pre|];
    pre + post
  }

  /** The pieces join back into the prefix and the path, one `/` between them. */
  lemma PathPiecesJoin(urlPathPrefix: Option<string>, path: string)
    ensures !Truthy(urlPathPrefix) ==> Join(PathPieces(urlPathPrefix, path), '/') == path
    ensures Truthy(urlPathPrefix) ==>
      Join(PathPieces(urlPathPrefix, path), '/') ==
        if path == "" then urlPathPrefix.value else urlPathPrefix.value + "/" + path
  {
    if Truthy(urlPathPrefix) {
      var pre := Split(urlPathPrefix.value, '/');
      JoinSplit(urlPathPrefix.value, '/');
      if path != "" {
        JoinSplit(path, '/');
        JoinAppend(pre, Split(path, '/'), '/');
      } else {
        assert pre + [] == pre;
      }
    } else if path != "" {
      JoinSplit(path, '/');
      assert [] + Split(path, '/') == Split(path, '/');
    }
  }

  /** The bucket as finally resolved (`undefined` when it has to come from an empty path), the key
      pieces, and whether the bucket is the URL's first path segment (`bucketUrlRoot`). */
  datatype Resolved = Resolved(bucket: Option<string>, keyPieces: seq<string>, bucketUrlRoot: bool)

  /** `keyPieces`, `bucketUrlRoot` and the bucket inference: when the URL does not name the bucket,
      the first path piece is the bucket and the rest is the key. */
  function Resolve(urlBucket: Option<string>, pathPieces: seq<string>): (r: Resolved)
    ensures r.bucketUrlRoot <==> !Truthy(urlBucket)
    ensures Truthy(urlBucket) ==> r.bucket == urlBucket && r.keyPieces == pathPieces
    ensures !Truthy(urlBucket) && |pathPieces| > 0 ==>
      r.bucket.Some? && pathPieces == [r.bucket.value] + r.keyPieces
    ensures !Truthy(urlBucket) && |pathPieces| == 0 ==> r.bucket.None? && r.keyPieces == []
  {
    if Truthy(urlBucket) then Resolved(urlBucket, pathPieces, false)
    else if |pathPieces| == 0 then Resolved(None, [], true)
    else Resolved(Some(pathPieces[0]), pathPieces[1..], true)
  }

  /** `useS3Location` throws when the hostname names a bucket other than the resolved one. */
  datatype LocationError = BucketMismatch(bucket: Option<string>, hostBucket: string)

  /** `endpoint`: the host itself when it names the bucket, the host then the bucket for a path-style
      S3 URL, and the bucket's virtual-hosted S3 domain otherwise. */
  function Endpoint(info: LocationInfo, bucket: Option<string>): (r: Result<string, LocationError>)
    ensures r.Err? <==> info.isS3Domain && Truthy(info.urlMetadataBucket) && info.urlMetadataBucket != bucket
    ensures r.Ok? && info.isS3Domain && Truthy(info.urlMetadataBucket) ==>
      r.value == "https://" + info.host && bucket == info.urlMetadataBucket
    ensures info.isS3Domain && !Truthy(info.urlMetadataBucket) ==>
      r == Ok("https://" + info.host + "/" + Show(bucket))
    ensures !info.isS3Domain ==> r == Ok("https://" + Show(bucket) + ".s3.amazonaws.com")
  {
    if info.isS3Domain then
      if Truthy(info.urlMetadataBucket) then
        if Some(info.urlMetadataBucket.value) != bucket then
          Err(BucketMismatch(bucket, info.urlMetadataBucket.value))
        else Ok("https://" + info.host)
      else Ok("https://" + info.host + "/" + Show(bucket))
    else Ok("https://" + Show(bucket) + ".s3.amazonaws.com")
  }

  /** An entry of the breadcrumb trail: a key and the name shown for it (the first entry's name is
      the bucket, possibly `undefined`). */
  datatype Ancestor = Ancestor(key: string, name: Option<string>)

  /** `ancestors`: the fold over the key pieces that starts at the bucket and appends each piece to
      the previous key (with no `/` after an empty key). */
  function Ancestors(bucket: Option<string>, pieces: seq<string>): (r: seq<Ancestor>)
    ensures |r| == |pieces| + 1
    ensures r[0] == Ancestor("", bucket)
  {
    if |pieces| == 0 then [Ancestor("", bucket)]
    else
      var prvs := Ancestors(bucket, pieces[..|pieces| - 1]);
      var parent := prvs[|prvs| - 1].key;
      var nxt := pieces[|pieces| - 1];
      prvs + [Ancestor(if parent != "" then parent + "/" + nxt else nxt, Some(nxt))]
  }

  /** The pieces without their leading empty ones. */
  function DropLeadingEmpty(ps: seq<string>): (r: seq<string>)
    ensures |r| == 0 || r[0] != ""
    ensures exists n :: 0 <= n <= |ps| && r == ps[n..]
  {
    if |ps| > 0 && ps[0] == "" then
      var r := DropLeadingEmpty(ps[1..]);
      var n :| 0 <= n <= |ps[1..]| && r == ps[1..][n..];
      assert r == ps[n + 1..];
      r
    else
      assert ps == ps[0..];
      ps
  }

  lemma {:induction false} DropLeadingEmptyAppend(ps: seq<string>, p: string)
    ensures DropLeadingEmpty(ps + [p]) ==
      if DropLeadingEmpty(ps) == [] then (if p == "" then [] else [p]) else DropLeadingEmpty(ps) + [p]
  {
    if |ps| > 0 {
      assert (ps + [p])[1..] == ps[1..] + [p];
      if ps[0] == "" {
        DropLeadingEmptyAppend(ps[1..], p);
      }
    } else {
      assert ps + [p] == [p];
      assert [p][1..] == [];
    }
  }

  lemma JoinNonEmpty(ps: seq<string>, d: char)
    requires |ps| > 0 && ps[0] != ""
    ensures Join(ps, d) != ""
  {
    if |ps| > 1 {
      assert Join(ps, d)[0] == ps[0][0];
    }
  }

  /** The trail of a prefix of the pieces is a prefix of the trail. */
  lemma {:induction false} AncestorsPrefix(bucket: Option<string>, pieces: seq<string>, i: nat)
    requires i <= |pieces|
    ensures Ancestors(bucket, pieces[..i]) == Ancestors(bucket, pieces)[..i + 1]
    decreases |pieces| - i
  {
    if i == |pieces| {
      assert pieces[..i] == pieces;
    } else {
      var init := pieces[..|pieces| - 1];
      AncestorsPrefix(bucket, init, i);
      assert init[..i] == pieces[..i];
      assert Ancestors(bucket, pieces)[..|pieces|] == Ancestors(bucket, init);
    }
  }

  /** The last key of the trail is the pieces joined with `/` once the leading empty pieces are
      dropped. */
  lemma {:induction false} LastAncestorKey(bucket: Option<string>, pieces: seq<string>)
    ensures Ancestors(bucket, pieces)[|pieces|].key == Join(DropLeadingEmpty(pieces), '/')
  {
    if |pieces| > 0 {
      var init := pieces[..|pieces| - 1];
      var p := pieces[|pieces| - 1];
      LastAncestorKey(bucket, init);
      assert pieces == init + [p];
      var q := DropLeadingEmpty(init);
      DropLeadingEmptyAppend(init, p);
      if q != [] {
        JoinNonEmpty(q, '/');
        JoinAppend(q, [p], '/');
      }
    }
  }

  /** Entry `i` of the trail is named after piece `i - 1`, and its key is the first `i` pieces
      joined with `/` once the leading empty pieces are dropped. */
  lemma AncestorKeys(bucket: Option<string>, pieces: seq<string>, i: nat)
    requires i <= |pieces|
    ensures 1 <= i ==> Ancestors(bucket, pieces)[i].name == Some(pieces[i - 1])
    ensures Ancestors(bucket, pieces)[i].key == Join(DropLeadingEmpty(pieces[..i]), '/')
  {
    AncestorsPrefix(bucket, pieces, i);
    LastAncestorKey(bucket, pieces[..i]);
    assert Ancestors(bucket, pieces)[i] == Ancestors(bucket, pieces[..i])[i];
  }

  /** When the key does not start with an empty piece, the last entry of the trail is the key. */
  lemma LastAncestorIsKey(bucket: Option<string>, pieces: seq<string>)
    requires |pieces| == 0 || pieces[0] != ""
    ensures Ancestors(bucket, pieces)[|pieces|].key == Join(pieces, '/')
  {
    LastAncestorKey(bucket, pieces);
  }

  /** Everything `useS3Location` derives, for one location and one route path. */
  datatype State = State(
    bucket: Option<string>,
    endpoint: string,
    key: string,
    keyPieces: seq<string>,
    bucketUrlRoot: bool,
    ancestors: seq<Ancestor>,
    urlPathPrefix: Option<string>)

  /** `useS3Location(info)` under a route whose `*` parameter is `param`. */
  function UseS3Location(info: LocationInfo, param: Option<string>): (r: Result<State, LocationError>)
    ensures r.Ok? ==> r.value.key == Join(r.value.keyPieces, '/')
    ensures r.Ok? ==> |r.value.ancestors| == |r.value.keyPieces| + 1
    ensures r.Ok? ==> r.value.ancestors[0] == Ancestor("", r.value.bucket)
    ensures r.Ok? ==> forall i :: 0 <= i < |r.value.keyPieces| ==> '/' !in r.value.keyPieces[i]
  {
    var pieces := PathPieces(info.urlPathPrefix, Path(param));
    var res := Resolve(info.urlBucket, pieces);
    var endpoint :- Endpoint(info, res.bucket);
    Ok(State(res.bucket, endpoint, Join(res.keyPieces, '/'), res.keyPieces, res.bucketUrlRoot,
             Ancestors(res.bucket, res.keyPieces), info.urlPathPrefix))
  }

  /** The key's pieces are the pieces of the key: splitting the key gives them back. */
  lemma KeySplitsToPieces(info: LocationInfo, param: Option<string>)
    requires UseS3Location(info, param).Ok?
    requires |UseS3Location(info, param).value.keyPieces| > 0
    ensures var st := UseS3Location(info, param).value; Split(st.key, '/') == st.keyPieces
  {
    var st := UseS3Location(info, param).value;
    SplitJoin(st.keyPieces, '/');
  }

  /** `keyUrl(key)`: the in-app URL of a key. */
  function KeyUrl(st: State, key: string): (r: string)
    ensures st.bucketUrlRoot ==> r == "/" + Show(st.bucket) + "/" + key
    ensures !st.bucketUrlRoot && Truthy(st.urlPathPrefix) ==>
      r == "/" + Utils.StripPrefix(Split(st.urlPathPrefix.value, '/'), key)
    ensures !st.bucketUrlRoot && !Truthy(st.urlPathPrefix) ==> r == "/" + key
  {
    if st.bucketUrlRoot then "/" + Show(st.bucket) + "/" + key
    else if Truthy(st.urlPathPrefix) then "/" + Utils.StripPrefix(Split(st.urlPathPrefix.value, '/'), key)
    else "/" + key
  }

  /** Following the URL of a key leads back to that key, when the bucket is the first path segment:
      the route's `*` parameter is the URL without its leading `/`. */
  lemma KeyUrlRoundTripBucketRoot(info: LocationInfo, param: Option<string>, key: string)
    requires UseS3Location(info, param).Ok?
    requires UseS3Location(info, param).value.bucketUrlRoot
    requires !Truthy(info.urlPathPrefix)
    requires var b := UseS3Location(info, param).value.bucket; b.Some? && b.value != "" && '/' !in b.value
    requires |key| == 0 || key[|key| - 1] != '/'
    ensures var st := UseS3Location(info, param).value;
      var there := UseS3Location(info, Some(KeyUrl(st, key)[1..]));
      there.Ok? && there.value.bucket == st.bucket && there.value.key == key
  {
    if key == "" {
      BucketUrlRoundTrip(info, param);
    } else {
      KeyUrlRoundTripUnderBucket(info, param, key);
    }
  }

  /** The bucket's own URL leads back to the bucket and the empty key. */
  lemma BucketUrlRoundTrip(info: LocationInfo, param: Option<string>)
    requires UseS3Location(info, param).Ok?
    requires UseS3Location(info, param).value.bucketUrlRoot
    requires !Truthy(info.urlPathPrefix)
    requires var b := UseS3Location(info, param).value.bucket; b.Some? && b.value != "" && '/' !in b.value
    ensures var st := UseS3Location(info, param).value;
      var there := UseS3Location(info, Some(KeyUrl(st, "")[1..]));
      there.Ok? && there.value.bucket == st.bucket && there.value.key == ""
  {
    var st := UseS3Location(info, param).value;
    var b := st.bucket.value;
    var u := KeyUrl(st, "")[1..];
    assert u == b + "/" + "";
    assert Path(Some(u)) == b;
    SplitPiece(b, '/');
    assert PathPieces(info.urlPathPrefix, b) == [] + [b];
  }

  /** A non-empty key's URL leads back to the bucket and the key. */
  lemma KeyUrlRoundTripUnderBucket(info: LocationInfo, param: Option<string>, key: string)
    requires UseS3Location(info, param).Ok?
    requires UseS3Location(info, param).value.bucketUrlRoot
    requires !Truthy(info.urlPathPrefix)
    requires var b := UseS3Location(info, param).value.bucket; b.Some? && b.value != "" && '/' !in b.value
    requires |key| > 0 && key[|key| - 1] != '/'
    ensures var st := UseS3Location(info, param).value;
      var there := UseS3Location(info, Some(KeyUrl(st, key)[1..]));
      there.Ok? && there.value.bucket == st.bucket && there.value.key == key
  {
    var st := UseS3Location(info, param).value;
    var b := st.bucket.value;
    var u := KeyUrl(st, key)[1..];
    assert u == b + "/" + key;
    assert Path(Some(u)) == u by {
      assert u[|u| - 1] == key[|key| - 1];
      assert u[0] == b[0];
    }
    SplitPrepend(b, key, '/');
    assert b + "/" + key == b + ['/'] + key;
    var pieces := PathPieces(info.urlPathPrefix, u);
    assert pieces == [] + ([b] + Split(key, '/'));
    var res := Resolve(info.urlBucket, pieces);
    assert res.bucket == Some(b) && res.keyPieces == Split(key, '/');
    JoinSplit(key, '/');
  }

  /** Following the URL of a key leads back to that key on a host that names the bucket and serves
      from the root, when the key has no `/` at either end. */
  lemma KeyUrlRoundTripPlain(info: LocationInfo, param: Option<string>, key: string)
    requires UseS3Location(info, param).Ok?
    requires !UseS3Location(info, param).value.bucketUrlRoot
    requires !Truthy(info.urlPathPrefix)
    requires |key| == 0 || (key[0] != '/' && key[|key| - 1] != '/')
    ensures var st := UseS3Location(info, param).value;
      var there := UseS3Location(info, Some(KeyUrl(st, key)[1..]));
      there.Ok? && there.value.bucket == st.bucket && there.value.key == key
  {
    var st := UseS3Location(info, param).value;
    assert KeyUrl(st, key) == "/" + key;
    assert KeyUrl(st, key)[1..] == key;
    PathUnwraps(key);
    assert Path(Some(key)) == key;
    PathPiecesJoin(info.urlPathPrefix, key);
    var res := Resolve(info.urlBucket, PathPieces(info.urlPathPrefix, key));
    assert res.bucket == st.bucket;
  }
}
