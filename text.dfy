/** The JavaScript string operations the core relies on, over `seq<char>`: `split`/`join` with a
    one-character separator, `lastIndexOf`, the one-character `replace(/\/$/, '')` and
    `replace(/^\//, '')` rewrites, `Number.prototype.toString` on integers and `parseInt` without a radix. */
module Text {
  import opened Wrappers

  /** `s.split(d)`: the pieces between occurrences of `d`; `""` splits into `[""]`. */
  function Split(s: string, d: char): (r: seq<string>)
    ensures |r| >= 1
    ensures forall i :: 0 <= i < |r| ==> d !in r[i]
  {
    if s == [] then [[]]
    else
      var rest := Split(s[1..], d);
      if s[0] == d then [[]] + rest
      else [[s[0]] + rest[0]] + rest[1..]
  }

  /** `ps.join(d)`: the pieces with one `d` between neighbours. */
  function Join(ps: seq<string>, d: char): (r: string)
    ensures |ps| == 0 ==> r == []
    ensures |ps| == 1 ==> r == ps[0]
    ensures |ps| > 1 ==> |ps[0]| < |r| && r[..|ps[0]|] == ps[0] && r[|ps[0]|] == d
  {
    if |ps| == 0 then []
    else if |ps| == 1 then ps[0]
    else ps[0] + [d] + Join(ps[1..], d)
  }

  /** Joining the pieces of a split gives back the string. */
  lemma {:induction false} JoinSplit(s: string, d: char)
    ensures Join(Split(s, d), d) == s
  {
    if s != [] {
      var rest := Split(s[1..], d);
      JoinSplit(s[1..], d);
      if s[0] == d {
        assert Split(s, d) == [[]] + rest;
        assert ([[]] + rest)[1..] == rest;
      } else {
        var r := [[s[0]] + rest[0]] + rest[1..];
        assert Split(s, d) == r;
        if |rest| == 1 {
          assert Join(rest, d) == rest[0];
        } else {
          assert Join(rest, d) == rest[0] + [d] + Join(rest[1..], d);
          assert r[1..] == rest[1..];
        }
      }
    }
  }

  /** Splitting a join of pieces that do not contain the separator gives back the pieces. */
  lemma {:induction false} SplitJoin(ps: seq<string>, d: char)
    requires |ps| >= 1
    requires forall i :: 0 <= i < |ps| ==> d !in ps[i]
    ensures Split(Join(ps, d), d) == ps
  {
    if |ps| == 1 {
      SplitPiece(ps[0], d);
    } else {
      SplitJoin(ps[1..], d);
      SplitPrepend(ps[0], Join(ps[1..], d), d);
      assert [ps[0]] + ps[1..] == ps;
    }
  }

  /** A piece without the separator splits into itself. */
  lemma {:induction false} SplitPiece(p: string, d: char)
    requires d !in p
    ensures Split(p, d) == [p]
  {
    if p != [] {
      SplitPiece(p[1..], d);
      assert [p[0]] + p[1..] == p;
    }
  }

  /** Splitting `p + [d] + t` splits off `p` in front of the pieces of `t`. */
  lemma {:induction false} SplitPrepend(p: string, t: string, d: char)
    requires d !in p
    ensures Split(p + [d] + t, d) == [p] + Split(t, d)
  {
    if p == [] {
      assert [] + [d] + t == [d] + t;
      assert ([d] + t)[1..] == t;
    } else {
      SplitPrepend(p[1..], t, d);
      var s := p + [d] + t;
      assert s[0] == p[0] && s[1..] == p[1..] + [d] + t;
      assert [p[0]] + p[1..] == p;
    }
  }

  /** Joining two non-empty runs of pieces puts one separator between their joins. */
  lemma {:induction false} JoinAppend(a: seq<string>, b: seq<string>, d: char)
    requires |a| >= 1 && |b| >= 1
    ensures Join(a + b, d) == Join(a, d) + [d] + Join(b, d)
  {
    if |a| > 1 {
      JoinAppend(a[1..], b, d);
      assert (a + b)[1..] == a[1..] + b;
    }
  }

  /** `s.lastIndexOf(c)`: the index of the last `c`, or -1. */
  function LastIndexOf(s: string, c: char): (r: int)
    ensures -1 <= r < |s|
    ensures r >= 0 ==> s[r] == c && forall j :: r < j < |s| ==> s[j] != c
    ensures r == -1 <==> c !in s
  {
    if s == [] then -1
    else if s[|s| - 1] == c then |s| - 1
    else
      assert s == s[..|s| - 1] + [s[|s| - 1]];
      LastIndexOf(s[..|s| - 1], c)
  }

  /** `s.replace(/\/$/, '')`: one trailing `/` removed. */
  function StripTrailingSlash(s: string): (r: string)
    ensures |s| > 0 && s[|s| - 1] == '/' ==> r == s[..|s| - 1]
    ensures (|s| == 0 || s[|s| - 1] != '/') ==> r == s
  {
    if |s| > 0 && s[|s| - 1] == '/' then s[..|s| - 1] else s
  }

  /** `s.replace(/^\//, '')`: one leading `/` removed. */
  function StripLeadingSlash(s: string): (r: string)
    ensures |s| > 0 && s[0] == '/' ==> r == s[1..]
    ensures (|s| == 0 || s[0] != '/') ==> r == s
  {
    if |s| > 0 && s[0] == '/' then s[1..] else s
  }

  predicate IsDigit(c: char) {
    '0' <= c <= '9'
  }

  function DigitValue(c: char): nat
    requires IsDigit(c)
  {
    (c as int) - ('0' as int)
  }

  function DigitChar(d: nat): (c: char)
    requires d < 10
    ensures IsDigit(c) && DigitValue(c) == d
  {
    (('0' as int) + d) as char
  }

  /** The value of a string of decimal digits, most significant first. */
  function DigitsValue(s: string): nat
    requires forall i :: 0 <= i < |s| ==> IsDigit(s[i])
  {
    if s == [] then 0 else DigitsValue(s[..|s| - 1]) * 10 + DigitValue(s[|s| - 1])
  }

  /** `n.toString()` for a non-negative integer: decimal digits, no leading zero. */
  function NatToString(n: nat): (r: string)
    ensures |r| >= 1
    ensures forall i :: 0 <= i < |r| ==> IsDigit(r[i])
    ensures DigitsValue(r) == n
    ensures r[0] == '0' <==> n == 0
  {
    if n < 10 then [DigitChar(n)]
    else
      var r := NatToString(n / 10) + [DigitChar(n % 10)];
      assert r[..|r| - 1] == NatToString(n / 10);
      r
  }

  /** `i.toString()` for an integer: a `-` before the digits of a negative number. */
  function IntToString(i: int): (r: string)
    ensures |r| >= 1
    ensures r[0] == '-' <==> i < 0
    ensures forall k :: (if i < 0 then 1 else 0) <= k < |r| ==> IsDigit(r[k])
    ensures i < 0 ==> r[1..] == NatToString(-i)
    ensures i >= 0 ==> r == NatToString(i)
  {
    if i < 0 then "-" + NatToString(-i) else NatToString(i)
  }

  /** The white space `parseInt` skips before the number: the white space and line terminators
      of ECMAScript (tab, line feed, vertical tab, form feed, carriage return, space, no-break space, the byte order mark, the
      other space separators of Unicode category Zs, and the line and paragraph separators). */
  predicate IsSpace(c: char) {
    var k := c as int;
    || 0x09 <= k <= 0x0D || k == 0x20 || k == 0xA0 || k == 0x1680 || 0x2000 <= k <= 0x200A
    || k == 0x2028 || k == 0x2029 || k == 0x202F || k == 0x205F || k == 0x3000 || k == 0xFEFF
  }

  function TrimStart(s: string): (r: string)
    ensures |r| <= |s| && r == s[|s| - |r|..]
    ensures |r| > 0 ==> !IsSpace(r[0])
    ensures |s| == 0 || !IsSpace(s[0]) ==> r == s
  {
    if |s| > 0 && IsSpace(s[0]) then TrimStart(s[1..]) else s
  }

  /** The length of the run of decimal digits at the front of `s`. */
  function LeadingDigits(s: string): (n: nat)
    ensures n <= |s|
    ensures forall i :: 0 <= i < n ==> IsDigit(s[i])
    ensures n < |s| ==> !IsDigit(s[n])
  {
    if |s| > 0 && IsDigit(s[0]) then 1 + LeadingDigits(s[1..]) else 0
  }

  predicate IsHexDigit(c: char) {
    IsDigit(c) || 'a' <= c <= 'f' || 'A' <= c <= 'F'
  }

  function HexDigitValue(c: char): (d: nat)
    requires IsHexDigit(c)
    ensures d < 16
    ensures IsDigit(c) ==> d == DigitValue(c)
  {
    if IsDigit(c) then DigitValue(c)
    else if 'a' <= c <= 'f' then (c as int) - ('a' as int) + 10
    else (c as int) - ('A' as int) + 10
  }

  /** The value of a string of hexadecimal digits, most significant first. */
  function HexValue(s: string): nat
    requires forall i :: 0 <= i < |s| ==> IsHexDigit(s[i])
  {
    if s == [] then 0 else HexValue(s[..|s| - 1]) * 16 + HexDigitValue(s[|s| - 1])
  }

  /** The length of the run of hexadecimal digits at the front of `s`. */
  function LeadingHexDigits(s: string): (n: nat)
    ensures n <= |s|
    ensures forall i :: 0 <= i < n ==> IsHexDigit(s[i])
    ensures n < |s| ==> !IsHexDigit(s[n])
  {
    if |s| > 0 && IsHexDigit(s[0]) then 1 + LeadingHexDigits(s[1..]) else 0
  }

  /** `0x` or `0X`: without a radix, `parseInt` then reads the rest in base sixteen. */
  predicate HasHexPrefix(u: string) {
    |u| >= 2 && u[0] == '0' && (u[1] == 'x' || u[1] == 'X')
  }

  /** `s` after one leading sign. */
  function Unsigned(t: string): (u: string)
    ensures |t| > 0 && (t[0] == '-' || t[0] == '+') ==> u == t[1..]
    ensures (|t| == 0 || (t[0] != '-' && t[0] != '+')) ==> u == t
  {
    if |t| > 0 && (t[0] == '-' || t[0] == '+') then t[1..] else t
  }

  /** The magnitude `parseInt` reads after the sign: the value of the longest run of hexadecimal
      digits after a `0x`/`0X` prefix, otherwise of the longest run of decimal digits; `None` when
      that run is empty. */
  function Magnitude(u: string): (r: Option<nat>)
    ensures r.Some? <==> if HasHexPrefix(u) then |u| > 2 && IsHexDigit(u[2]) else |u| > 0 && IsDigit(u[0])
  {
    if HasHexPrefix(u) then
      var n := LeadingHexDigits(u[2..]);
      if n == 0 then None else Some(HexValue(u[2..][..n]))
    else
      var n := LeadingDigits(u);
      if n == 0 then None else Some(DigitsValue(u[..n]))
  }

  /** `parseInt(s)` without a radix: leading white space skipped, an optional sign, then a
      hexadecimal run after `0x`/`0X` or else a decimal run, each as long as it goes; `None` stands
      for `NaN` (no digit where the run should start). `-0` is the integer 0. */
  function ParseInt(s: string): (r: Option<int>)
    ensures r.Some? <==> Magnitude(Unsigned(TrimStart(s))).Some?
    ensures r.Some? ==> r.value <= 0 || TrimStart(s)[0] != '-'
    ensures r.Some? ==> r.value >= 0 || TrimStart(s)[0] == '-'
    ensures r.Some? && TrimStart(s)[0] == '-' ==> r.value == -(Magnitude(Unsigned(TrimStart(s))).value as int)
    ensures r.Some? && TrimStart(s)[0] != '-' ==> r.value == Magnitude(Unsigned(TrimStart(s))).value
  {
    ParseTrimmed(TrimStart(s))
  }

  /** `parseInt` once the white space is skipped: the sign, then the magnitude. */
  function ParseTrimmed(t: string): Option<int>
  {
    var neg := |t| > 0 && t[0] == '-';
    var m := Magnitude(Unsigned(t));
    if m.None? then None
    else Some(if neg then -(m.value as int) else m.value)
  }

  /** White space in front does not change what `parseInt` reads. */
  lemma ParseIntSkipsSpace(c: char, s: string)
    requires IsSpace(c)
    ensures ParseInt([c] + s) == ParseInt(s)
  {
    TrimStartSkips(c, s);
  }

  lemma TrimStartSkips(c: char, s: string)
    requires IsSpace(c)
    ensures TrimStart([c] + s) == TrimStart(s)
  {
    assert ([c] + s)[1..] == s;
  }

  /** Without white space or a `-` in front, `parseInt` is the magnitude after the sign. */
  lemma ParseIntOfTrimmed(t: string, v: nat)
    requires TrimStart(t) == t && (|t| == 0 || t[0] != '-') && Magnitude(Unsigned(t)) == Some(v)
    ensures ParseInt(t) == Some(v)
  {
    var r := ParseInt(t);
    assert r.Some? && r.value == v;
  }

  /** Without white space in front, `parseInt` after a `-` is minus the magnitude after it. */
  lemma ParseIntOfNegTrimmed(t: string, u: string, v: nat)
    requires TrimStart(t) == t && |t| > 0 && t[0] == '-' && Unsigned(t) == u && Magnitude(u) == Some(v)
    ensures ParseInt(t) == Some(-(v as int))
  {
    var r := ParseInt(t);
    assert r.Some? && r.value == -(v as int);
  }

  /** A `0x` or `0X` prefix, a run of hexadecimal digits and anything that does not continue the
      run parse to the value of the run. */
  lemma ParseIntOfHex(s: string, d: string, u: string)
    requires HasHexPrefix(s) && s[2..] == d + u
    requires |d| > 0 && forall i :: 0 <= i < |d| ==> IsHexDigit(d[i])
    requires |u| == 0 || !IsHexDigit(u[0])
    ensures ParseInt(s) == Some(HexValue(d))
  {
    MagnitudeOfHex(s, d, u);
    HexTrimmed(s);
    ParseIntOfTrimmed(s, HexValue(d));
  }

  /** The same after a `-`: minus the value of the run. */
  lemma ParseIntOfNegativeHex(s: string, d: string, u: string)
    requires HasHexPrefix(s) && s[2..] == d + u
    requires |d| > 0 && forall i :: 0 <= i < |d| ==> IsHexDigit(d[i])
    requires |u| == 0 || !IsHexDigit(u[0])
    ensures ParseInt("-" + s) == Some(-(HexValue(d) as int))
  {
    MagnitudeOfHex(s, d, u);
    HexNegated(s);
    ParseIntOfNegTrimmed("-" + s, s, HexValue(d));
  }

  /** The magnitude after `0x` is the value of the run of hexadecimal digits. */
  lemma MagnitudeOfHex(s: string, d: string, u: string)
    requires HasHexPrefix(s) && s[2..] == d + u
    requires |d| > 0 && forall i :: 0 <= i < |d| ==> IsHexDigit(d[i])
    requires |u| == 0 || !IsHexDigit(u[0])
    ensures Magnitude(s) == Some(HexValue(d))
  {
    LeadingHexDigitsOf(d, u);
    assert (d + u)[..|d|] == d;
  }

  lemma HexTrimmed(s: string)
    requires |s| > 0 && s[0] == '0'
    ensures TrimStart(s) == s && Unsigned(s) == s && s[0] != '-'
  {
  }

  lemma HexNegated(s: string)
    requires |s| > 0 && s[0] == '0'
    ensures TrimStart("-" + s) == "-" + s && Unsigned("-" + s) == s
  {
    assert ("-" + s)[1..] == s;
  }

  lemma {:induction false} LeadingHexDigitsOf(d: string, u: string)
    requires forall i :: 0 <= i < |d| ==> IsHexDigit(d[i])
    requires |u| == 0 || !IsHexDigit(u[0])
    ensures LeadingHexDigits(d + u) == |d|
  {
    if |d| > 0 {
      LeadingHexDigitsOf(d[1..], u);
      assert (d + u)[1..] == d[1..] + u;
    }
  }

  /** Printing an integer and parsing it back gives the integer. */
  lemma ParseIntOfIntToString(i: int)
    ensures ParseInt(IntToString(i)) == Some(i)
  {
    if i < 0 {
      ParseIntOfNegative(-i);
    } else {
      ParseIntOfNatToString(i);
    }
  }

  lemma ParseIntOfNatToString(n: nat)
    ensures ParseInt(NatToString(n)) == Some(n)
  {
    NatToStringNoHexPrefix(n);
    ParseIntOfDigits(NatToString(n));
  }

  lemma ParseIntOfNegative(n: nat)
    requires n > 0
    ensures ParseInt("-" + NatToString(n)) == Some(-(n as int))
  {
    NatToStringNoHexPrefix(n);
    ParseIntOfNegativeDigits(NatToString(n), n);
  }

  /** A printed number has no leading zero, so it never starts with `0x`. */
  lemma NatToStringNoHexPrefix(n: nat)
    ensures !HasHexPrefix(NatToString(n))
  {
    if n < 10 {
      assert |NatToString(n)| == 1;
    }
  }

  /** A run of digits not starting with `0x` parses to its value. */
  lemma ParseIntOfDigits(d: string)
    requires |d| > 0 && forall i :: 0 <= i < |d| ==> IsDigit(d[i])
    requires !HasHexPrefix(d)
    ensures ParseInt(d) == Some(DigitsValue(d))
  {
    MagnitudeOfDigits(d);
    TrimmedDigits(d);
    ParseIntOfTrimmed(d, DigitsValue(d));
  }

  /** The magnitude of a run of digits not starting with `0x` is its value. */
  lemma MagnitudeOfDigits(d: string)
    requires |d| > 0 && forall i :: 0 <= i < |d| ==> IsDigit(d[i])
    requires !HasHexPrefix(d)
    ensures Magnitude(d) == Some(DigitsValue(d))
  {
    AllDigitsLeading(d);
    assert d[..|d|] == d;
  }

  /** A run of decimal digits, not starting `0x`, and anything that does not continue the run
      parse to the value of the run: `parseInt("12abc")` is 12. */
  lemma ParseIntOfLeadingDigits(s: string, d: string, u: string)
    requires s == d + u && !HasHexPrefix(s)
    requires |d| > 0 && forall i :: 0 <= i < |d| ==> IsDigit(d[i])
    requires |u| == 0 || !IsDigit(u[0])
    ensures ParseInt(s) == Some(DigitsValue(d))
  {
    LeadingDigitsOf(d, u);
    assert s[..|d|] == d;
    assert Magnitude(s) == Some(DigitsValue(d));
    TrimmedDigits(s);
    ParseIntOfTrimmed(s, DigitsValue(d));
  }

  lemma {:induction false} LeadingDigitsOf(d: string, u: string)
    requires forall i :: 0 <= i < |d| ==> IsDigit(d[i])
    requires |u| == 0 || !IsDigit(u[0])
    ensures LeadingDigits(d + u) == |d|
  {
    if |d| > 0 {
      LeadingDigitsOf(d[1..], u);
      assert (d + u)[1..] == d[1..] + u;
    }
  }

  /** A `+` before a number changes nothing: `parseInt("+7")` is 7. */
  lemma ParseIntOfPlus(s: string)
    requires |s| > 0 && IsDigit(s[0])
    ensures ParseInt("+" + s) == ParseInt(s)
  {
    var t := "+" + s;
    assert t[0] == '+' && t[1..] == s;
    assert !IsSpace(t[0]);
    TrimmedDigits(s);
    assert ParseTrimmed(t) == ParseTrimmed(s);
  }

  /** A `-` before a digit is not white space, and it is the sign. */
  lemma NegatedDigits(d: string)
    requires |d| > 0 && IsDigit(d[0])
    ensures TrimStart("-" + d) == "-" + d && Unsigned("-" + d) == d
  {
    assert ("-" + d)[1..] == d;
  }

  /** A string starting with a digit has no white space or sign in front. */
  lemma TrimmedDigits(d: string)
    requires |d| > 0 && IsDigit(d[0])
    ensures TrimStart(d) == d && Unsigned(d) == d && d[0] != '-'
  {
    assert !IsSpace(d[0]);
  }

  /** A `-` and then a run of digits not starting with `0x` parses to minus its value. */
  lemma ParseIntOfNegativeDigits(d: string, v: nat)
    requires |d| > 0 && (forall i :: 0 <= i < |d| ==> IsDigit(d[i])) && v == DigitsValue(d)
    requires !HasHexPrefix(d)
    ensures ParseInt("-" + d) == Some(-(v as int))
  {
    MagnitudeOfDigits(d);
    ParseIntOfNegMagnitude(d, v);
  }

  /** A `-` before a text that starts with a digit and has magnitude `v` parses to `-v`. */
  lemma ParseIntOfNegMagnitude(d: string, v: nat)
    requires |d| > 0 && IsDigit(d[0]) && Magnitude(d) == Some(v)
    ensures ParseInt("-" + d) == Some(-(v as int))
  {
    NegatedDigits(d);
    ParseIntOfNegTrimmed("-" + d, d, v);
  }

  lemma AllDigitsLeading(s: string)
    requires forall i :: 0 <= i < |s| ==> IsDigit(s[i])
    ensures LeadingDigits(s) == |s|
  {
    if |s| > 0 {
      AllDigitsLeading(s[1..]);
    }
  }

  /** `IntToString` is injective: distinct integers print differently. */
  lemma IntToStringInjective(i: int, j: int)
    requires IntToString(i) == IntToString(j)
    ensures i == j
  {
    ParseIntOfIntToString(i);
    ParseIntOfIntToString(j);
  }
}
