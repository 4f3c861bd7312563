/**
 * The landing page's challenge list: the loader turns the `index` search parameter into a
 * zero-based tab with `parseInt`, and the page renders one link per page of eight challenges,
 * link `k` (from 1) pointing at `?index=k`.
 */
module ChallengeList {
  import opened Results
  import opened ParseInt
  import opened Records
  import opened ChallengeRepo

  /**
   * The loader's tab: `parseInt(index ?? "1", 10) - 1`, or 0 when that is `NaN`. There is no
   * lower clamp.
   */
  function TabFromIndex(index: Option<string>): (tab: int)
    ensures ParseInt10(index.GetOr("1")) == NaN ==> tab == 0
    ensures ParseInt10(index.GetOr("1")).Int? ==> tab == ParseInt10(index.GetOr("1")).value - 1
  {
    match ParseInt10(index.GetOr("1"))
    case NaN => 0
    case Int(n) => n - 1
  }

  /** `Math.ceil(count / 8)` for a non-negative count. */
  function CeilDiv8(count: nat): nat {
    (count + PageSize - 1) / PageSize
  }

  /** The number of page links: `Math.ceil(count / 8)`, or 1 when that is 0. */
  function PageLinkCount(count: nat): (pages: nat)
    ensures pages >= 1
    ensures count == 0 ==> pages == 1
    ensures count > 0 ==> (pages - 1) * PageSize < count <= pages * PageSize
  {
    if CeilDiv8(count) == 0 then 1 else CeilDiv8(count)
  }

  // ---------------------------------------------------------------------------------------------
  // Properties

  /** A request without `index` shows the first tab. */
  lemma MissingIndexIsFirstTab()
    ensures TabFromIndex(None) == 0
  {
    assert Decimal(1) == "1";
    ParseDecimal(1);
  }

  /** Link `k` leads back to tab `k`: the loader parses `k + 1` and subtracts one. */
  lemma LinkRoundTrip(k: nat)
    ensures TabFromIndex(Some(Decimal(k + 1))) == k
  {
    ParseDecimal(k + 1);
  }

  /** When there are running challenges, every linked tab has at least one challenge. */
  lemma LinkedTabsNonEmpty(t: seq<Challenge>, k: nat)
    requires GetTotalChallengeCount(t) > 0
    requires k < PageLinkCount(GetTotalChallengeCount(t))
    ensures var r := GetChallenges(t, None, TabFromIndex(Some(Decimal(k + 1))));
      r.Ok? && |r.data| > 0
  {
    LinkRoundTrip(k);
    PageNonEmptyIff(t, k);
  }

  /** Only the leading digits count: `"3abc"` is tab 2. */
  lemma IndexWithTail()
    ensures TabFromIndex(Some("3abc")) == 2
  {
    var empty: string := [];
    assert Decimal(3) == "3";
    assert "3abc" == empty + Decimal(3) + "abc";
    ParseDigitsThenTail(empty, Decimal(3), "abc");
  }

  /** An index without digits, `""` or `"abc"`, is tab 0. */
  lemma IndexWithoutDigits()
    ensures TabFromIndex(Some("")) == 0
    ensures TabFromIndex(Some("abc")) == 0
  {
    ParseNoDigits("");
    ParseNoDigits("abc");
  }

  /** `"0"` is tab -1 and `"-3"` is tab -4: nothing clamps the tab at zero. */
  lemma IndexNotClamped()
    ensures TabFromIndex(Some("0")) == -1
    ensures TabFromIndex(Some("-3")) == -4
  {
    var empty: string := [];
    assert Decimal(0) == "0";
    ParseDecimal(0);
    assert Decimal(3) == "3";
    assert "-3" == "-" + Decimal(3) + empty;
    ParseDigitsThenTail("-", Decimal(3), empty);
  }

  /** A negative tab makes the challenge query fail, so `"0"` and `"-3"` get no page. */
  lemma NonPositiveIndexFails(t: seq<Challenge>)
    ensures GetChallenges(t, None, TabFromIndex(Some("0"))).Err?
    ensures GetChallenges(t, None, TabFromIndex(Some("-3"))).Err?
  {
    IndexNotClamped();
  }
}
