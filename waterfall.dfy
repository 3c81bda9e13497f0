/** The revenue waterfall: try the concept tags in priority order and report
    the first one whose facts document yields an annual value. */
module RevenueWaterfall {
  import opened Wrappers
  import opened ConceptFacts

  /** The concept tags, most preferred first. */
  const RevenueTags: seq<string> := [
    "RevenueFromContractWithCustomerExcludingAssessedTax",
    "SalesRevenueNet",
    "Revenues",
    "OperatingRevenueRetail"
  ]

  /** A revenue figure and the tag that produced it. */
  datatype Revenue = Revenue(val: int, tag: string)

  /** The facts endpoint, abstracted: the response for a filer identifier and
      a concept tag. */
  type FactsSource = (string, string) -> Fetch

  /** The first tag of `tags` whose attempt finds a value, with that value;
      `None` when every attempt is skipped. */
  function FirstFound(cik: string, tags: seq<string>, fetch: FactsSource): (r: Option<Revenue>)
    decreases |tags|
  {
    if tags == [] then None
    else match TryTag(fetch(cik, tags[0]))
      case Found(v) => Some(Revenue(v, tags[0]))
      case Skipped(_) => FirstFound(cik, tags[1..], fetch)
  }

  /** A result names the first tag whose attempt succeeds, carries that
      attempt's value, and every earlier tag was skipped; and any such tag
      is the result. */
  lemma {:induction false} FirstFoundIsFirstSuccess(cik: string, tags: seq<string>, fetch: FactsSource, v: int, t: string)
    ensures FirstFound(cik, tags, fetch) == Some(Revenue(v, t)) <==>
      exists i :: 0 <= i < |tags| && tags[i] == t && TryTag(fetch(cik, t)) == Found(v) &&
        forall j :: 0 <= j < i ==> TryTag(fetch(cik, tags[j])).Skipped?
  {
    if tags != [] {
      FirstFoundIsFirstSuccess(cik, tags[1..], fetch, v, t);
      if FirstFound(cik, tags, fetch) == Some(Revenue(v, t)) {
        if TryTag(fetch(cik, tags[0])).Skipped? {
          var i :| 0 <= i < |tags[1..]| && tags[1..][i] == t && TryTag(fetch(cik, t)) == Found(v) &&
            forall j :: 0 <= j < i ==> TryTag(fetch(cik, tags[1..][j])).Skipped?;
          assert forall j :: 1 <= j < i + 1 ==> tags[j] == tags[1..][j - 1];
          assert 0 <= i + 1 < |tags| && tags[i + 1] == t;
        } else {
          assert 0 < |tags| && tags[0] == t;
        }
      }
      if exists i :: 0 <= i < |tags| && tags[i] == t && TryTag(fetch(cik, t)) == Found(v) &&
          forall j :: 0 <= j < i ==> TryTag(fetch(cik, tags[j])).Skipped? {
        var i :| 0 <= i < |tags| && tags[i] == t && TryTag(fetch(cik, t)) == Found(v) &&
          forall j :: 0 <= j < i ==> TryTag(fetch(cik, tags[j])).Skipped?;
        if i > 0 {
          assert TryTag(fetch(cik, tags[0])).Skipped?;
          assert forall j :: 0 <= j < i - 1 ==> tags[1..][j] == tags[j + 1];
          assert tags[1..][i - 1] == t;
        }
      }
    }
  }

  /** No result exactly when every tag is skipped: no value is invented. */
  lemma {:induction false} FirstFoundNone(cik: string, tags: seq<string>, fetch: FactsSource)
    ensures FirstFound(cik, tags, fetch) == None <==>
      forall i :: 0 <= i < |tags| ==> TryTag(fetch(cik, tags[i])).Skipped?
  {
    if tags != [] {
      FirstFoundNone(cik, tags[1..], fetch);
      assert forall i :: 1 <= i < |tags| ==> tags[i] == tags[1..][i - 1];
    }
  }

  /** The waterfall loop. Each tag's attempt either returns its value with
      the tag, or falls through (a skipped attempt, including one that
      raised) to the next tag; after the last tag the answer is "nothing". */
  method GetRevenueWaterfall(cik: string, fetch: FactsSource) returns (r: Option<Revenue>)
    ensures r == FirstFound(cik, RevenueTags, fetch)
  {
    for i := 0 to |RevenueTags|
      invariant FirstFound(cik, RevenueTags[i..], fetch) == FirstFound(cik, RevenueTags, fetch)
    {
      var tag := RevenueTags[i];
      assert RevenueTags[i..][1..] == RevenueTags[i + 1..];
      match TryTag(fetch(cik, tag))
      case Found(v) =>
        return Some(Revenue(v, tag));
      case Skipped(_) =>
        continue;
    }
    return None;
  }

  /** The figure the waterfall reports is the `val` of the first latest 10-K
      entry in the USD series of the tag it names, and that tag is one of the
      revenue tags. */
  lemma WaterfallReportsLatestAnnual(cik: string, fetch: FactsSource, v: int, t: string)
    requires FirstFound(cik, RevenueTags, fetch) == Some(Revenue(v, t))
    ensures t in RevenueTags
    ensures ServesUsd(fetch(cik, t))
    ensures exists k :: IsLatestAnnual(UsdSeries(fetch(cik, t)), k) && UsdSeries(fetch(cik, t))[k].val == Some(v)
  {
    FirstFoundIsFirstSuccess(cik, RevenueTags, fetch, v, t);
    TryTagFoundIsLatest(fetch(cik, t), v);
  }

  /** A failed request for the first tag does not stop the waterfall: a value
      for the second tag is reported with the second tag's name. */
  lemma SecondTagAfterFailedFirst(cik: string, fetch: FactsSource, v: int)
    requires fetch(cik, RevenueTags[0]).NetworkError? ||
             (fetch(cik, RevenueTags[0]).Received? && fetch(cik, RevenueTags[0]).status != 200)
    requires TryTag(fetch(cik, RevenueTags[1])) == Found(v)
    ensures FirstFound(cik, RevenueTags, fetch) == Some(Revenue(v, "SalesRevenueNet"))
  {
    assert RevenueTags[1..][0] == RevenueTags[1];
  }
}
