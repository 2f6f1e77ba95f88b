/** `fetchLastPage` of the listing harvester: the number of the last listing page,
    read from the `.page-numbers` elements of the blog's root listing page. */
module Pagination {
  import opened Responses
  import opened JsText

  /** The numbers `parseInt` reads from the page-number texts, in document order;
      texts that give NaN are skipped. */
  function PageNumbers(texts: seq<string>): (ns: seq<int>)
    ensures |ns| <= |texts|
    ensures forall n :: n in ns <==> exists i :: 0 <= i < |texts| && ParseInt(texts[i]) == Int(n)
  {
    if |texts| == 0 then []
    else
      var rest := PageNumbers(texts[1..]);
      assert forall i :: 1 <= i < |texts| ==> texts[i] == texts[1..][i - 1];
      match ParseInt(texts[0])
      case NaN => rest
      case Int(n) => [n] + rest
  }

  /** `Math.max` of a non-empty list. */
  function Max(ns: seq<int>): (m: int)
    requires |ns| > 0
    ensures m in ns
    ensures forall i :: 0 <= i < |ns| ==> ns[i] <= m
  {
    if |ns| == 1 then ns[0]
    else
      var m := Max(ns[1..]);
      assert forall i :: 1 <= i < |ns| ==> ns[i] == ns[1..][i - 1];
      if ns[0] > m then ns[0] else m
  }

  /** At least one page-number text is a number. */
  predicate AnyParses(texts: seq<string>) {
    exists i :: 0 <= i < |texts| && ParseInt(texts[i]).Int?
  }

  /** `fetchLastPage`: `root` holds the texts of the root page's `.page-numbers`
      elements. The result is the largest number among them; it is 1 when none
      parses and when the root page cannot be fetched. */
  function LastPage(root: Response<seq<string>>): (last: int)
    ensures root.Failed? ==> last == 1
    ensures root.Ok? && !AnyParses(root.body) ==> last == 1
    ensures root.Ok? && AnyParses(root.body) ==>
      && (exists i :: 0 <= i < |root.body| && ParseInt(root.body[i]) == Int(last))
      && (forall i :: 0 <= i < |root.body| && ParseInt(root.body[i]).Int? ==> ParseInt(root.body[i]).value <= last)
  {
    match root
    case Failed => 1
    case Ok(texts) =>
      var ns := PageNumbers(texts);
      if |ns| > 0 then
        assert forall i :: 0 <= i < |texts| && ParseInt(texts[i]).Int? ==> ParseInt(texts[i]).value in ns;
        Max(ns)
      else 1
  }

  /** A single digit link reads as that digit. */
  lemma ReadsDigit(d: nat)
    requires d < 10
    ensures ParseInt([DigitChar(d)]) == Int(d)
  {
    ParseIntReadsDecimal("", "", d, "");
    assert "" + "" + Decimal(d) + "" == [DigitChar(d)];
  }

  /** The result is not always a positive page number: a lone `0` link gives 0. */
  lemma LastPageCanBeZero()
    ensures LastPage(Ok(["0"])) == 0
  {
    ReadsDigit(0);
  }
}
