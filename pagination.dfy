/** The page-number text shown by the pagination controls. */
module Pagination {
  import opened Wrappers
  import opened Text

  /** `toPageIdxStr(idx)`: a page index shown one-based; a negative index is shown as it is. */
  function ToPageIdxStr(idx: int): (r: string)
    ensures idx >= 0 ==> r == NatToString(idx + 1)
    ensures idx < 0 ==> r == IntToString(idx)
    ensures r != "0"
  {
    IntToString(if idx >= 0 then idx + 1 else idx)
  }

  /** Different page indices are never shown as the same text. */
  lemma ToPageIdxStrInjective(i: int, j: int)
    requires ToPageIdxStr(i) == ToPageIdxStr(j)
    ensures i == j
  {
    var a := if i >= 0 then i + 1 else i;
    var b := if j >= 0 then j + 1 else j;
    IntToStringInjective(a, b);
  }

  /** Parsing the shown text gives back the one-based page number for a non-negative index. */
  lemma ParsePageIdxStr(idx: int)
    requires idx >= 0
    ensures ParseInt(ToPageIdxStr(idx)) == Some(idx + 1)
  {
    ParseIntOfIntToString(idx + 1);
  }
}
