/** The query-parameter codecs: each turns a typed value into what the URL's query string holds and
    back. A codec's `decode` receives what the query-string parser produced for one parameter. */
module SearchParams {
  import opened Wrappers
  import opened Text

  /** One parameter in a query string: absent (`undefined`), present without `=` (`null`), present
      once (a string), or repeated (an array whose `None` items are repetitions without `=`). */
  datatype QueryValue = Absent | Null | Str(s: string) | Arr(items: seq<Option<string>>)

  /** `HandleUnexpectedValue`: what a decoder does with a value it does not recognise. */
  datatype Handling = Default | Warn | Throw

  datatype ParamError =
    | UnexpectedValue    // thrown by `returnDefaultOrError` under `Throw`
    | NoEnumValues       // `vals[0].d` on an empty list of values

  /** `returnDefaultOrError`: the fallback `rv` under `Default` and `Warn` (the latter also logs),
      an error under `Throw`. */
  function ReturnDefaultOrError<D>(rv: D, h: Handling): (r: Result<D, ParamError>)
    ensures r.Ok? <==> h != Throw
    ensures r.Ok? ==> r.value == rv
    ensures r.Err? ==> r.error == UnexpectedValue
  {
    match h
    case Default => Ok(rv)
    case Warn => Ok(rv)
    case Throw => Err(UnexpectedValue)
  }

  // ---------------------------------------------------------------- boolParam

  datatype BoolParam = BoolParam(defaultValue: bool, handling: Handling)

  /** `boolParam().encode`: nothing for the default; `?foo=` for false under a true default, and
      `?foo` for true under a false default. */
  function BoolEncode(p: BoolParam, value: bool): (r: QueryValue)
    ensures r == Absent <==> value == p.defaultValue
    ensures r != Absent ==> (r == Null <==> value) && (r == Str("") <==> !value)
  {
    if value == p.defaultValue then Absent
    else if p.defaultValue then Str("")
    else Null
  }

  /** `boolParam().decode`. */
  function BoolDecode(p: BoolParam, q: QueryValue): (r: Result<bool, ParamError>)
    ensures r.Err? <==> p.handling == Throw && q != Absent && q != Null && q != Str("")
    ensures r.Err? ==> r.error == UnexpectedValue
  {
    if q == Absent then Ok(p.defaultValue)
    else if q == Null then Ok(true)
    else if q == Str("") then Ok(false)
    else ReturnDefaultOrError(p.defaultValue, p.handling)
  }

  /** Every boolean survives an encode/decode round trip, whichever the default. */
  lemma BoolRoundTrip(p: BoolParam, value: bool)
    ensures BoolDecode(p, BoolEncode(p, value)) == Ok(value)
  {
  }

  /** What `BoolDecode` makes of each kind of input: a bare `?foo` is true, `?foo=` is false, and
      anything else is the default, or an error under `Throw`. */
  lemma BoolDecodeCases(p: BoolParam, q: QueryValue)
    ensures q == Absent ==> BoolDecode(p, q) == Ok(p.defaultValue)
    ensures q == Null ==> BoolDecode(p, q) == Ok(true)
    ensures q == Str("") ==> BoolDecode(p, q) == Ok(false)
    ensures q.Arr? || (q.Str? && q.s != "") ==>
      BoolDecode(p, q) == if p.handling == Throw then Err(UnexpectedValue) else Ok(p.defaultValue)
  {
  }

  // ---------------------------------------------------------------- enumParam

  /** An entry of `enumParam`'s `values`: a value that stands for itself in the URL, or a
      `[value, label]` pair. */
  datatype EnumValue = Plain(d: string) | Labelled(d: string, s: string) {
    /** The text that stands for the value in the URL. */
    function Label(): string {
      if Plain? then d else s
    }
  }

  datatype EnumParam = EnumParam(values: seq<EnumValue>, defValue: string, handling: Handling)

  /** `enumParam({values, defaultValue, handleUnexpectedValue})`: the default is the first value when
      none is given, and taking it from an empty list throws. */
  function MakeEnumParam(values: seq<EnumValue>, defaultValue: Option<string>, h: Handling)
    : (r: Result<EnumParam, ParamError>)
    ensures r.Ok? <==> defaultValue.Some? || |values| > 0
    ensures r.Ok? ==> r.value.values == values && r.value.handling == h
    ensures r.Ok? ==> r.value.defValue == if defaultValue.Some? then defaultValue.value else values[0].d
  {
    if defaultValue.Some? then Ok(EnumParam(values, defaultValue.value, h))
    else if |values| == 0 then Err(NoEnumValues)
    else Ok(EnumParam(values, values[0].d, h))
  }

  /** The index of the first entry satisfying a test on its value or its label. */
  function FirstWithValue(values: seq<EnumValue>, d: string): (i: nat)
    ensures i <= |values|
    ensures i < |values| ==> values[i].d == d
    ensures forall j :: 0 <= j < i ==> values[j].d != d
  {
    if |values| == 0 then 0
    else if values[0].d == d then 0
    else 1 + FirstWithValue(values[1..], d)
  }

  function FirstWithLabel(values: seq<EnumValue>, s: string): (i: nat)
    ensures i <= |values|
    ensures i < |values| ==> values[i].Label() == s
    ensures forall j :: 0 <= j < i ==> values[j].Label() != s
  {
    if |values| == 0 then 0
    else if values[0].Label() == s then 0
    else 1 + FirstWithLabel(values[1..], s)
  }

  /** `enumParam().encode`: nothing for the default; otherwise the label of the first entry with
      that value; a value that is not listed is dropped (or an error under `Throw`). */
  function EnumEncode(p: EnumParam, value: string): (r: Result<QueryValue, ParamError>)
    ensures r.Err? <==> value != p.defValue && !Listed(p.values, value) && p.handling == Throw
    ensures r == Ok(Absent) <==> value == p.defValue || (!Listed(p.values, value) && p.handling != Throw)
    ensures r.Ok? && r.value != Absent ==>
      exists i :: 0 <= i < |p.values| && p.values[i].d == value && r.value == Str(p.values[i].Label())
  {
    if value == p.defValue then Ok(Absent)
    else
      var i := FirstWithValue(p.values, value);
      if i == |p.values| then ReturnDefaultOrError(Absent, p.handling)
      else Ok(Str(p.values[i].Label()))
  }

  /** The value an item of a repeated parameter stands for: the value of the first entry with
      that label. */
  function EnumArrayLookup(p: EnumParam, item: Option<string>): (r: Option<string>)
    ensures r.Some? ==> Listed(p.values, r.value)
  {
    if item.None? then None
    else
      var i := FirstWithLabel(p.values, item.value);
      if i == |p.values| then None else Some(p.values[i].d)
  }

  /** The recognised items of a repeated parameter, in order. */
  function Recognised(p: EnumParam, items: seq<Option<string>>): seq<string>
  {
    if |items| == 0 then []
    else
      var rest := Recognised(p, items[1..]);
      match EnumArrayLookup(p, items[0])
      case Some(d) => [d] + rest
      case None => rest
  }

  /** `enumParam().decode`: an absent parameter is the default; a single value is looked up by
      label; of a repeated parameter the last recognised item wins (more than one recognised item
      is also reported as unexpected). */
  function EnumDecode(p: EnumParam, q: QueryValue): (r: Result<string, ParamError>)
    ensures q == Absent ==> r == Ok(p.defValue)
    ensures r.Ok? ==> r.value == p.defValue || Listed(p.values, r.value)
    ensures r.Err? ==> p.handling == Throw && r.error == UnexpectedValue
  {
    RecognisedListed(p, if q.Arr? then q.items else []);
    match q
    case Absent => Ok(p.defValue)
    case Null => ReturnDefaultOrError(p.defValue, p.handling)
    case Str(v) =>
      var i := FirstWithLabel(p.values, v);
      if i == |p.values| then ReturnDefaultOrError(p.defValue, p.handling)
      else Ok(p.values[i].d)
    case Arr(items) =>
      var ds := Recognised(p, items);
      if |ds| == 0 then ReturnDefaultOrError(p.defValue, p.handling)
      else if |ds| > 1 then ReturnDefaultOrError(ds[|ds| - 1], p.handling)
      else Ok(ds[0])
  }

  /** `d` is the value of some entry. */
  predicate Listed(values: seq<EnumValue>, d: string) {
    exists i :: 0 <= i < |values| && values[i].d == d
  }

  predicate DistinctLabels(values: seq<EnumValue>) {
    forall i, j :: 0 <= i < j < |values| ==> values[i].Label() != values[j].Label()
  }

  /** With distinct labels, every listed value survives an encode/decode round trip. */
  lemma EnumRoundTrip(p: EnumParam, value: string)
    requires DistinctLabels(p.values)
    requires Listed(p.values, value)
    ensures EnumEncode(p, value).Ok?
    ensures EnumDecode(p, EnumEncode(p, value).value) == Ok(value)
  {
    if value != p.defValue {
      var i := FirstWithValue(p.values, value);
      var j := FirstWithLabel(p.values, p.values[i].Label());
    }
  }

  /** The default value is encoded as nothing at all. */
  lemma EnumEncodeDefault(p: EnumParam)
    ensures EnumEncode(p, p.defValue) == Ok(Absent)
  {
  }

  /** Every recognised item stands for a listed value. */
  lemma {:induction false} RecognisedListed(p: EnumParam, items: seq<Option<string>>)
    ensures forall d :: d in Recognised(p, items) ==> Listed(p.values, d)
  {
    if |items| > 0 {
      RecognisedListed(p, items[1..]);
    }
  }

  /** A repeated parameter with no recognised item decodes to the default (or an error under
      `Throw`); with some, it decodes to the last recognised one under `Default` and `Warn`. */
  lemma EnumDecodeArray(p: EnumParam, items: seq<Option<string>>)
    requires p.handling != Throw
    ensures var ds := Recognised(p, items);
      EnumDecode(p, Arr(items)) == Ok(if |ds| == 0 then p.defValue else ds[|ds| - 1])
  {
  }

  // The array branch as the source writes it (src/search-params.tsx:54) compares each item with
  // the raw entries of `values` using `==`. A `[value, label]` pair compared with a string is
  // turned into the string "value,label" first, and the pair itself is what is kept.

  /** The entry of `values` that `values.find(d => d == v)` returns for an item. */
  function EnumArrayLookupAsWritten(values: seq<EnumValue>, item: Option<string>): Option<EnumValue>
  {
    if item.None? || |values| == 0 then None
    else
      var e := values[0];
      var loose := if e.Plain? then e.d else e.d + "," + e.s;
      if loose == item.value then Some(e) else EnumArrayLookupAsWritten(values[1..], item)
  }

  /** A repeated parameter holding the label of a labelled entry is not recognised as written,
      while the corrected lookup finds the entry's value. */
  lemma EnumArrayLabelMissedAsWritten()
    ensures EnumArrayLookupAsWritten([Labelled("a", "A")], Some("A")) == None
    ensures EnumArrayLookup(EnumParam([Labelled("a", "A")], "a", Warn), Some("A")) == Some("a")
  {
    assert "a" + "," + "A" != "A";
  }

  /** For entries without labels the source's lookup and the corrected one agree. */
  lemma {:induction false} EnumArrayLookupPlainAgrees(p: EnumParam, item: Option<string>)
    requires forall i :: 0 <= i < |p.values| ==> p.values[i].Plain?
    ensures EnumArrayLookup(p, item) ==
      (match EnumArrayLookupAsWritten(p.values, item) case Some(e) => Some(e.d) case None => None)
    decreases |p.values|
  {
    if item.Some? && |p.values| > 0 && p.values[0].d != item.value {
      var q := p.(values := p.values[1..]);
      EnumArrayLookupPlainAgrees(q, item);
    }
  }

  // ---------------------------------------------------------------- enumMultiParam

  datatype MultiParam = MultiParam(
    entries: seq<(string, string)>,   // [value, label] pairs
    defValue: seq<string>,
    handling: Handling,
    delim: char)

  /** `enumMultiParam({entries, defaultValue, handleUnexpectedValue, delimiter})`: the default
      default is no value, the default delimiter a comma. */
  function MakeMultiParam(entries: seq<(string, string)>, defaultValue: Option<seq<string>>,
                          h: Handling, delimiter: Option<char>): MultiParam
  {
    MultiParam(entries, defaultValue.GetOr([]), h, delimiter.GetOr(','))
  }

  /** `d2s[d]`: the label of the LAST entry with value `d` (`Object.fromEntries` keeps the last). */
  function D2S(entries: seq<(string, string)>, d: string): (r: Option<string>)
    ensures r.Some? ==> exists i :: (0 <= i < |entries| && entries[i] == (d, r.value) &&
      forall j :: i < j < |entries| ==> entries[j].0 != d)
    ensures r.None? ==> forall i :: 0 <= i < |entries| ==> entries[i].0 != d
  {
    if |entries| == 0 then None
    else if entries[|entries| - 1].0 == d then Some(entries[|entries| - 1].1)
    else D2S(entries[..|entries| - 1], d)
  }

  /** `s2d[s]`: the value of the LAST entry with label `s`. */
  function S2D(entries: seq<(string, string)>, s: string): (r: Option<string>)
    ensures r.Some? ==> exists i :: (0 <= i < |entries| && entries[i] == (r.value, s) &&
      forall j :: i < j < |entries| ==> entries[j].1 != s)
    ensures r.None? ==> forall i :: 0 <= i < |entries| ==> entries[i].1 != s
  {
    if |entries| == 0 then None
    else if entries[|entries| - 1].1 == s then Some(entries[|entries| - 1].0)
    else S2D(entries[..|entries| - 1], s)
  }

  function Labels(entries: seq<(string, string)>, value: seq<string>): (r: seq<string>)
    ensures |r| == |value|
  {
    if |value| == 0 then [] else [D2S(entries, value[0]).GetOr("")] + Labels(entries, value[1..])
  }

  /** `enumMultiParam().encode`: nothing for the default, otherwise the labels joined by the
      delimiter (a value without an entry contributes an empty piece). */
  function MultiEncode(p: MultiParam, value: seq<string>): (r: QueryValue)
    ensures r == Absent <==> value == p.defValue
    ensures r != Absent ==> r.Str?
  {
    if value == p.defValue then Absent else Str(Join(Labels(p.entries, value), p.delim))
  }

  /** The values of the known labels among `pieces`, in order; an unknown label is dropped, or is an
      error under `Throw`. */
  function KnownValues(p: MultiParam, pieces: seq<string>): (r: Result<seq<string>, ParamError>)
    ensures r.Err? <==> p.handling == Throw && exists i :: 0 <= i < |pieces| && S2D(p.entries, pieces[i]).None?
    ensures r.Err? ==> r.error == UnexpectedValue
    ensures r.Ok? ==> |r.value| <= |pieces|
  {
    if |pieces| == 0 then Ok([])
    else
      var head := S2D(p.entries, pieces[0]);
      if head.None? && p.handling == Throw then Err(UnexpectedValue)
      else
        var rest :- KnownValues(p, pieces[1..]);
        Ok(if head.Some? then [head.value] + rest else rest)
  }

  /** Decoding one string: split on the delimiter, map labels to values. */
  function MultiDecodeString(p: MultiParam, v: string): Result<seq<string>, ParamError>
  {
    KnownValues(p, Split(v, p.delim))
  }

  /** `Array.from(new Set(s))`: the distinct elements in order of first occurrence. */
  function Dedup(s: seq<string>): (r: seq<string>)
    ensures forall i, j :: 0 <= i < j < |r| ==> r[i] != r[j]
    ensures forall x :: x in r <==> x in s
  {
    if |s| == 0 then []
    else
      var r := Dedup(s[..|s| - 1]);
      assert s == s[..|s| - 1] + [s[|s| - 1]];
      if s[|s| - 1] in r then r else r + [s[|s| - 1]]
  }

  /** The first index of an element. */
  function IndexOf(s: seq<string>, x: string): (i: nat)
    requires x in s
    ensures i < |s| && s[i] == x && forall j :: 0 <= j < i ==> s[j] != x
  {
    if s[0] == x then 0 else 1 + IndexOf(s[1..], x)
  }

  /** `Dedup` lists the elements in the order of their first occurrence. */
  lemma {:induction false} DedupFirstOccurrenceOrder(s: seq<string>)
    ensures forall i, j :: 0 <= i < j < |Dedup(s)| ==> IndexOf(s, Dedup(s)[i]) < IndexOf(s, Dedup(s)[j])
    decreases |s|
  {
    if |s| > 0 {
      var init := s[..|s| - 1];
      var last := s[|s| - 1];
      assert s == init + [last];
      DedupFirstOccurrenceOrder(init);
      var r := Dedup(init);
      var d := Dedup(s);
      assert d == if last in r then r else r + [last];
      forall i | 0 <= i < |r| ensures r[i] in s && IndexOf(s, r[i]) == IndexOf(init, r[i]) < |init| {
        assert r[i] in r;
        IndexOfPrefix(init, [last], r[i]);
      }
      if last !in r {
        IndexOfLast(init, last);
      }
      forall i, j | 0 <= i < j < |d| ensures IndexOf(s, d[i]) < IndexOf(s, d[j]) {
        if j < |r| {
          assert d[i] == r[i] && d[j] == r[j];
        } else {
          assert d[i] == r[i] && d[j] == last;
        }
      }
    }
  }

  /** An element that only the last position holds is found there. */
  lemma {:induction false} IndexOfLast(init: seq<string>, last: string)
    requires last !in init
    ensures last in init + [last] && IndexOf(init + [last], last) == |init|
    decreases |init|
  {
    if |init| > 0 {
      assert (init + [last])[1..] == init[1..] + [last];
      assert init[0] != last;
      IndexOfLast(init[1..], last);
    } else {
      assert init + [last] == [last];
    }
  }

  lemma IndexOfPrefix(a: seq<string>, b: seq<string>, x: string)
    requires x in a
    ensures x in a + b && IndexOf(a + b, x) == IndexOf(a, x)
  {
    var i := IndexOf(a, x);
    var k := IndexOf(a + b, x);
    assert (a + b)[i] == x;
  }

  function Concat(xs: seq<seq<string>>): seq<string>
  {
    if |xs| == 0 then [] else xs[0] + Concat(xs[1..])
  }

  /** Decoding each item of a repeated parameter as if it stood alone. */
  function DecodeItems(p: MultiParam, items: seq<Option<string>>): (r: Result<seq<seq<string>>, ParamError>)
    ensures r.Err? ==> p.handling == Throw && r.error == UnexpectedValue
    ensures r.Ok? ==> |r.value| == |items|
  {
    if |items| == 0 then Ok([])
    else
      var head :- if items[0].None? then ReturnDefaultOrError(p.defValue, p.handling)
                  else MultiDecodeString(p, items[0].value);
      var rest :- DecodeItems(p, items[1..]);
      Ok([head] + rest)
  }

  /** `enumMultiParam().decode`: an absent parameter is the default; a string is split; each item
      of a repeated parameter is decoded alone and the union kept without repeats. */
  function MultiDecode(p: MultiParam, q: QueryValue): (r: Result<seq<string>, ParamError>)
    ensures q == Absent ==> r == Ok(p.defValue)
    ensures r.Err? ==> p.handling == Throw && r.error == UnexpectedValue
    ensures r.Ok? && q.Arr? ==> forall i, j :: 0 <= i < j < |r.value| ==> r.value[i] != r.value[j]
  {
    match q
    case Absent => Ok(p.defValue)
    case Null => ReturnDefaultOrError(p.defValue, p.handling)
    case Str(v) => MultiDecodeString(p, v)
    case Arr(items) =>
      var arrays :- DecodeItems(p, items);
      Ok(Dedup(Concat(arrays)))
  }

  /** Under `Default` and `Warn`, a string decodes to the values of its known labels: unknown
      labels are dropped silently. */
  lemma {:induction false} KnownValuesDropUnknown(p: MultiParam, pieces: seq<string>)
    requires p.handling != Throw
    ensures KnownValues(p, pieces).Ok?
    ensures forall x :: x in KnownValues(p, pieces).value <==>
      exists i :: 0 <= i < |pieces| && S2D(p.entries, pieces[i]) == Some(x)
  {
    if |pieces| > 0 {
      KnownValuesDropUnknown(p, pieces[1..]);
      var rest := KnownValues(p, pieces[1..]).value;
      forall x ensures x in KnownValues(p, pieces).value <==>
        exists i :: 0 <= i < |pieces| && S2D(p.entries, pieces[i]) == Some(x)
      {
        if exists i :: 0 <= i < |pieces| && S2D(p.entries, pieces[i]) == Some(x) {
          var i :| 0 <= i < |pieces| && S2D(p.entries, pieces[i]) == Some(x);
          if i > 0 { assert pieces[1..][i - 1] == pieces[i]; }
        }
        if x in rest {
          var i :| 0 <= i < |pieces| - 1 && S2D(p.entries, pieces[1..][i]) == Some(x);
          assert pieces[i + 1] == pieces[1..][i];
        }
      }
    }
  }

  predicate DistinctEntryLabels(entries: seq<(string, string)>) {
    forall i, j :: 0 <= i < j < |entries| ==> entries[i].1 != entries[j].1
  }

  /** Looking up the label of a listed value gives the value back when labels are distinct. */
  lemma LabelOfValue(entries: seq<(string, string)>, d: string)
    requires DistinctEntryLabels(entries)
    requires D2S(entries, d).Some?
    ensures S2D(entries, D2S(entries, d).value) == Some(d)
  {
    var s := D2S(entries, d).value;
    var i :| 0 <= i < |entries| && entries[i] == (d, s);
    var r := S2D(entries, s);
    var k :| 0 <= k < |entries| && entries[k] == (r.value, s);
  }

  lemma {:induction false} KnownValuesOfLabels(p: MultiParam, value: seq<string>)
    requires DistinctEntryLabels(p.entries)
    requires forall k :: 0 <= k < |value| ==> D2S(p.entries, value[k]).Some?
    ensures KnownValues(p, Labels(p.entries, value)) == Ok(value)
  {
    if |value| > 0 {
      KnownValuesOfLabels(p, value[1..]);
      LabelOfValue(p.entries, value[0]);
      assert Labels(p.entries, value)[1..] == Labels(p.entries, value[1..]);
      assert [value[0]] + value[1..] == value;
    }
  }

  /** A non-empty list of listed values survives an encode/decode round trip when labels are
      distinct and free of the delimiter (and so does the default). */
  lemma MultiRoundTrip(p: MultiParam, value: seq<string>)
    requires DistinctEntryLabels(p.entries)
    requires forall i :: 0 <= i < |p.entries| ==> p.delim !in p.entries[i].1
    requires forall k :: 0 <= k < |value| ==> D2S(p.entries, value[k]).Some?
    requires value == p.defValue || |value| > 0
    ensures MultiDecode(p, MultiEncode(p, value)) == Ok(value)
  {
    if value != p.defValue {
      var labels := Labels(p.entries, value);
      forall k | 0 <= k < |labels| ensures p.delim !in labels[k] {
        LabelIsEntryLabel(p.entries, value, k);
      }
      SplitJoin(labels, p.delim);
      KnownValuesOfLabels(p, value);
    }
  }

  lemma {:induction false} LabelIsEntryLabel(entries: seq<(string, string)>, value: seq<string>, k: nat)
    requires k < |value|
    requires forall j :: 0 <= j < |value| ==> D2S(entries, value[j]).Some?
    ensures exists i :: 0 <= i < |entries| && entries[i].1 == Labels(entries, value)[k]
  {
    if k == 0 {
      var s := D2S(entries, value[0]).value;
      var i :| 0 <= i < |entries| && entries[i] == (value[0], s);
      assert entries[i].1 == Labels(entries, value)[0];
    } else {
      LabelIsEntryLabel(entries, value[1..], k - 1);
      assert Labels(entries, value)[k] == Labels(entries, value[1..])[k - 1];
    }
  }

  /** A repeated parameter decodes to the union of what its items decode to, without repeats and
      in first-occurrence order. */
  lemma MultiDecodeArray(p: MultiParam, items: seq<Option<string>>)
    requires DecodeItems(p, items).Ok?
    ensures var all := Concat(DecodeItems(p, items).value);
      && MultiDecode(p, Arr(items)).Ok?
      && (forall x :: x in MultiDecode(p, Arr(items)).value <==> x in all)
      && var r := MultiDecode(p, Arr(items)).value;
         forall i, j :: 0 <= i < j < |r| ==> r[i] != r[j] && IndexOf(all, r[i]) < IndexOf(all, r[j])
  {
    DedupFirstOccurrenceOrder(Concat(DecodeItems(p, items).value));
  }

  // ---------------------------------------------------------------- stringParam

  /** `stringParam(defaultValue).encode`: nothing for the default, the string otherwise. */
  function StringEncode(defaultValue: string, value: string): (r: QueryValue)
    ensures r == Absent <==> value == defaultValue
    ensures r != Absent ==> r == Str(value)
  {
    if value == defaultValue then Absent else Str(value)
  }

  /** `stringParam(defaultValue).decode`. */
  function StringDecode(defaultValue: string, q: QueryValue): (r: string)
    ensures q.Str? ==> r == q.s
    ensures !q.Str? ==> r == defaultValue || (q.Arr? && Some(r) in q.items)
  {
    match q
    case Str(v) => v
    case Absent => defaultValue
    case Null => defaultValue
    case Arr(items) =>
      if |items| == 0 then defaultValue
      else items[|items| - 1].GetOr(defaultValue)
  }

  /** Every string survives an encode/decode round trip. */
  lemma StringRoundTrip(defaultValue: string, value: string)
    ensures StringDecode(defaultValue, StringEncode(defaultValue, value)) == value
  {
  }

  /** A repeated parameter decodes to its last item, or to the default when there is none or the
      last one has no `=`. */
  lemma StringDecodeArray(defaultValue: string, items: seq<Option<string>>)
    ensures StringDecode(defaultValue, Arr(items)) ==
      if |items| == 0 || items[|items| - 1].None? then defaultValue else items[|items| - 1].value
  {
  }

  // ---------------------------------------------------------------- intParam

  /** `intParam(defaultValue).encode`: nothing for the default, the decimal text otherwise. */
  function IntEncode(defaultValue: int, value: int): (r: QueryValue)
    ensures r == Absent <==> value == defaultValue
    ensures r != Absent ==> r.Str? && ParseInt(r.s) == Some(value)
  {
    ParseIntOfIntToString(value);
    if value == defaultValue then Absent else Str(IntToString(value))
  }

  /** `intParam(defaultValue).decode`; `None` stands for `NaN`. A repeated parameter is read from
      its last item, and an empty or `=`-less last item gives the default. */
  function IntDecode(defaultValue: int, q: QueryValue): (r: Option<int>)
    ensures q.Str? ==> r == ParseInt(q.s)
    ensures q == Absent || q == Null ==> r == Some(defaultValue)
    ensures q.Arr? ==>
      || r == Some(defaultValue)
      || (|q.items| > 0 && q.items[|q.items| - 1].Some? && r == ParseInt(q.items[|q.items| - 1].value))
  {
    match q
    case Str(v) => ParseInt(v)
    case Absent => Some(defaultValue)
    case Null => Some(defaultValue)
    case Arr(items) =>
      if |items| == 0 then Some(defaultValue)
      else
        var last := items[|items| - 1];
        if last.None? || last.value == "" then Some(defaultValue) else ParseInt(last.value)
  }

  /** Every integer survives an encode/decode round trip. */
  lemma IntRoundTrip(defaultValue: int, value: int)
    ensures IntDecode(defaultValue, IntEncode(defaultValue, value)) == Some(value)
  {
    if value != defaultValue {
      ParseIntOfIntToString(value);
    }
  }

  /** The default is encoded as nothing, and a repeated parameter whose last item is empty or
      `=`-less decodes to the default. */
  lemma IntDefaults(defaultValue: int, items: seq<Option<string>>)
    requires |items| > 0 && (items[|items| - 1].None? || items[|items| - 1] == Some(""))
    ensures IntEncode(defaultValue, defaultValue) == Absent
    ensures IntDecode(defaultValue, Arr(items)) == Some(defaultValue)
  {
  }
}
