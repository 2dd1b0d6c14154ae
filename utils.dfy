/** Path helpers of the viewer: the last segment of a path, and a key with a leading run of
    `/`-pieces removed. */
module Utils {
  import opened Text

  /** `basename(path)`: the text after the last `/`, or the whole path when it has none. */
  function Basename(path: string): (r: string)
    ensures '/' !in r
    ensures '/' !in path ==> r == path
    ensures '/' in path ==> |r| < |path| && path == path[..|path| - |r| - 1] + "/" + r
  {
    var idx := LastIndexOf(path, '/');
    if idx == -1 then path
    else
      assert path == path[..idx] + "/" + path[idx + 1..];
      path[idx + 1..]
  }

  /** `stripPrefix(prefix, k)`: when the leading `/`-pieces of `k` are `prefix`, the remaining
      pieces joined again; otherwise `k` itself. */
  function StripPrefix(prefix: seq<string>, k: string): (r: string)
    ensures !(prefix <= Split(k, '/')) ==> r == k
    ensures |prefix| > |Split(k, '/')| ==> r == k
  {
    var pcs := Split(k, '/');
    var head := if |prefix| <= |pcs| then pcs[..|prefix|] else pcs;
    if prefix != head then k else Join(pcs[|prefix|..], '/')
  }

  /** The empty prefix leaves every key unchanged: this rests on splitting and joining again
      being the identity. */
  lemma StripEmptyPrefix(k: string)
    ensures StripPrefix([], k) == k
  {
    JoinSplit(k, '/');
    assert Split(k, '/')[0..] == Split(k, '/');
  }

  /** Stripping `p` from the key made of the pieces `p` then `rest` leaves the key made of `rest`. */
  lemma StripPrefixOfJoin(p: seq<string>, rest: seq<string>)
    requires forall i :: 0 <= i < |p| ==> '/' !in p[i]
    requires forall i :: 0 <= i < |rest| ==> '/' !in rest[i]
    ensures StripPrefix(p, Join(p + rest, '/')) == Join(rest, '/')
  {
    var all := p + rest;
    if |all| == 0 {
      assert p == [] && rest == [];
      StripEmptyPrefix("");
    } else {
      forall i | 0 <= i < |all| ensures '/' !in all[i] {
        if i < |p| { assert all[i] == p[i]; } else { assert all[i] == rest[i - |p|]; }
      }
      SplitJoin(all, '/');
      assert all[..|p|] == p;
      assert all[|p|..] == rest;
    }
  }
}
