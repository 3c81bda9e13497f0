/** One attempt of the revenue waterfall: the facts document returned for one
    concept tag, the filter to annual (10-K) observations, and the choice of
    the latest one by period end date. */
module ConceptFacts {
  import opened Wrappers
  import opened Text
  import opened IsoDates

  /** The filing form of an annual report. */
  const AnnualForm: string := "10-K"

  /** The unit key of the dollar-denominated series. */
  const Usd: string := "USD"

  /** One observation of a concept, as decoded from JSON. Every key may be
      missing from the record. */
  datatype Entry = Entry(form: Option<string>, end: Option<string>, val: Option<int>)

  /** A decoded facts document; `units` maps a unit name to its series and is
      absent when the document has no `units` key. */
  datatype FactsDoc = FactsDoc(units: Option<map<string, seq<Entry>>>)

  /** What asking the facts endpoint for one tag produced. `NetworkError`: the
      request itself raised. `Received`: a response arrived with this status;
      its body is `None` when it does not decode as JSON. */
  datatype Fetch = NetworkError | Received(status: int, body: Option<FactsDoc>)

  /** Why a tag yielded nothing. Each case is a way the attempt ends up in
      the `continue` of the waterfall or falls through to the next tag. */
  datatype Skip =
    | RequestFailed    // the request raised
    | BadStatus        // status other than 200
    | NotJson          // the body did not decode
    | NoUsdSeries      // no `units` key, or no `USD` series in it
    | NoAnnualEntries  // no 10-K entry in the series
    | MissingEnd       // a 10-K entry has no `end`, so the sort key raises
    | MissingVal       // the latest 10-K entry has no `val`

  datatype TagResult = Found(val: int) | Skipped(why: Skip)

  predicate IsAnnual(e: Entry) {
    e.form == Some(AnnualForm)
  }

  /** The list comprehension that keeps the 10-K entries, in order. */
  function Annual(usd: seq<Entry>): (r: seq<Entry>)
    ensures |r| <= |usd|
    ensures forall e :: e in r <==> e in usd && IsAnnual(e)
  {
    if usd == [] then []
    else (if IsAnnual(usd[0]) then [usd[0]] else []) + Annual(usd[1..])
  }

  /** The filter keeps every 10-K entry as often as the series holds it, and
      nothing else. */
  lemma {:induction false} AnnualMultiplicity(usd: seq<Entry>)
    ensures forall e :: multiset(Annual(usd))[e] == if IsAnnual(e) then multiset(usd)[e] else 0
  {
    if usd != [] {
      assert usd == [usd[0]] + usd[1..];
      AnnualMultiplicity(usd[1..]);
    }
  }

  /** The filter works piecewise, so it keeps the 10-K entries in series
      order. */
  lemma {:induction false} AnnualConcat(a: seq<Entry>, b: seq<Entry>)
    ensures Annual(a + b) == Annual(a) + Annual(b)
  {
    if a != [] {
      assert (a + b)[0] == a[0] && (a + b)[1..] == a[1..] + b;
      AnnualConcat(a[1..], b);
    } else {
      assert a + b == b;
    }
  }

  predicate AllHaveEnd(s: seq<Entry>) {
    forall i :: 0 <= i < |s| ==> s[i].end.Some?
  }

  // ---------------------------------------------------------------------
  // The stable sort of the 10-K entries by end date, newest first.
  // ---------------------------------------------------------------------

  /** Place `x` in front of the first element whose end date is not later
      than its own. `x` precedes every element of `l` in the original list,
      so putting it before equal keys keeps the sort stable. */
  function InsertByEnd(x: Entry, l: seq<Entry>): (r: seq<Entry>)
    requires x.end.Some? && AllHaveEnd(l)
    ensures AllHaveEnd(r)
    ensures multiset(r) == multiset(l) + multiset{x}
  {
    if l == [] then [x]
    else if !StrLess(x.end.value, l[0].end.value) then [x] + l
    else
      var t := InsertByEnd(x, l[1..]);
      assert l == [l[0]] + l[1..];
      [l[0]] + t
  }

  /** Python's stable sort of `s` by descending end date. */
  function SortByEndDesc(s: seq<Entry>): (r: seq<Entry>)
    requires AllHaveEnd(s)
    ensures AllHaveEnd(r)
    ensures multiset(r) == multiset(s)
  {
    if s == [] then []
    else
      assert s == [s[0]] + s[1..];
      InsertByEnd(s[0], SortByEndDesc(s[1..]))
  }

  predicate SortedByEndDesc(s: seq<Entry>)
    requires AllHaveEnd(s)
  {
    forall i, j :: 0 <= i < j < |s| ==> StrLessEq(s[j].end.value, s[i].end.value)
  }

  lemma {:induction false} InsertByEndSorted(x: Entry, l: seq<Entry>)
    requires x.end.Some? && AllHaveEnd(l) && SortedByEndDesc(l)
    ensures SortedByEndDesc(InsertByEnd(x, l))
  {
    if l != [] {
      var r := InsertByEnd(x, l);
      if !StrLess(x.end.value, l[0].end.value) {
        StrLessEqIsNotGreater(l[0].end.value, x.end.value);
        forall j | 1 <= j < |r|
          ensures StrLessEq(r[j].end.value, x.end.value)
        {
          StrLessEqTransitive(r[j].end.value, l[0].end.value, x.end.value);
        }
      } else {
        var t := InsertByEnd(x, l[1..]);
        InsertByEndSorted(x, l[1..]);
        forall j | 0 <= j < |t|
          ensures StrLessEq(t[j].end.value, l[0].end.value)
        {
          assert t[j] in multiset(t);
          if t[j] != x {
            assert t[j] in multiset(l[1..]);
            var k :| 0 <= k < |l[1..]| && l[1..][k] == t[j];
            assert l[k + 1] == t[j];
          }
        }
      }
    }
  }

  /** The sort orders its result by descending end date. */
  lemma {:induction false} SortByEndDescSorted(s: seq<Entry>)
    requires AllHaveEnd(s)
    ensures SortedByEndDesc(SortByEndDesc(s))
  {
    if s != [] {
      SortByEndDescSorted(s[1..]);
      InsertByEndSorted(s[0], SortByEndDesc(s[1..]));
    }
  }

  // ---------------------------------------------------------------------
  // The latest annual entry.
  // ---------------------------------------------------------------------

  /** `usd[k]` is the entry the source returns: a 10-K entry whose end date
      is not earlier than that of any 10-K entry, and strictly later than
      that of every 10-K entry before it (the first of the latest). Every
      10-K entry must carry an end date, or the sort key would raise. */
  predicate IsLatestAnnual(usd: seq<Entry>, k: int) {
    0 <= k < |usd| && IsAnnual(usd[k]) && usd[k].end.Some? &&
    forall j :: 0 <= j < |usd| && IsAnnual(usd[j]) ==>
      usd[j].end.Some? &&
      StrLessEq(usd[j].end.value, usd[k].end.value) &&
      (j < k ==> StrLess(usd[j].end.value, usd[k].end.value))
  }

  /** At most one entry is the first of the latest. */
  lemma IsLatestAnnualUnique(usd: seq<Entry>, k1: int, k2: int)
    requires IsLatestAnnual(usd, k1) && IsLatestAnnual(usd, k2)
    ensures k1 == k2
  {
    if k1 < k2 {
      StrLessEqIsNotGreater(usd[k2].end.value, usd[k1].end.value);
    } else if k2 < k1 {
      StrLessEqIsNotGreater(usd[k1].end.value, usd[k2].end.value);
    }
  }

  /** A leading entry that is not a 10-K entry shifts the latest by one. */
  lemma LatestAnnualPastOther(usd: seq<Entry>, k: int)
    requires usd != [] && !IsAnnual(usd[0]) && IsLatestAnnual(usd[1..], k)
    ensures IsLatestAnnual(usd, k + 1)
  {
  }

  /** A leading 10-K entry strictly earlier than the latest of the rest
      leaves the latest where it was. */
  lemma LatestAnnualPastEarlier(usd: seq<Entry>, k: int)
    requires usd != [] && IsAnnual(usd[0]) && usd[0].end.Some? && IsLatestAnnual(usd[1..], k)
    requires StrLess(usd[0].end.value, usd[1..][k].end.value)
    ensures IsLatestAnnual(usd, k + 1)
  {
  }

  /** A leading 10-K entry not earlier than any later 10-K entry is the
      latest. */
  lemma LatestAnnualAtHead(usd: seq<Entry>)
    requires usd != [] && IsAnnual(usd[0]) && usd[0].end.Some?
    requires forall j :: 1 <= j < |usd| && IsAnnual(usd[j]) ==>
      usd[j].end.Some? && StrLessEq(usd[j].end.value, usd[0].end.value)
    ensures IsLatestAnnual(usd, 0)
  {
  }

  /** A leading 10-K entry followed by no other 10-K entry is the latest. */
  lemma LatestAnnualAlone(usd: seq<Entry>)
    requires usd != [] && IsAnnual(usd[0]) && usd[0].end.Some? && Annual(usd[1..]) == []
    ensures IsLatestAnnual(usd, 0)
  {
    forall j | 1 <= j < |usd|
      ensures !IsAnnual(usd[j])
    {
      assert usd[j] == usd[1..][j - 1];
    }
  }

  /** The head of the sorted 10-K subset is the first entry of the USD series
      with the latest end date. */
  lemma {:induction false} SortHeadIsLatestAnnual(usd: seq<Entry>)
    requires Annual(usd) != [] && AllHaveEnd(Annual(usd))
    ensures exists k :: IsLatestAnnual(usd, k) && SortByEndDesc(Annual(usd))[0] == usd[k]
  {
    var x, rest := usd[0], usd[1..];
    if !IsAnnual(x) {
      assert Annual(usd) == Annual(rest);
      SortHeadIsLatestAnnual(rest);
      var k :| IsLatestAnnual(rest, k) && SortByEndDesc(Annual(rest))[0] == rest[k];
      LatestAnnualPastOther(usd, k);
    } else {
      assert Annual(usd) == [x] + Annual(rest);
      assert Annual(rest) == Annual(usd)[1..];
      assert SortByEndDesc(Annual(usd)) == InsertByEnd(x, SortByEndDesc(Annual(rest)));
      if Annual(rest) == [] {
        LatestAnnualAlone(usd);
      } else {
        SortHeadIsLatestAnnual(rest);
        var k :| IsLatestAnnual(rest, k) && SortByEndDesc(Annual(rest))[0] == rest[k];
        var h := rest[k];
        if !StrLess(x.end.value, h.end.value) {
          StrLessEqIsNotGreater(h.end.value, x.end.value);
          forall j | 1 <= j < |usd| && IsAnnual(usd[j])
            ensures usd[j].end.Some? && StrLessEq(usd[j].end.value, x.end.value)
          {
            assert usd[j] == rest[j - 1];
            StrLessEqTransitive(usd[j].end.value, h.end.value, x.end.value);
          }
          LatestAnnualAtHead(usd);
        } else {
          LatestAnnualPastEarlier(usd, k);
        }
      }
    }
  }

  // ---------------------------------------------------------------------
  // One attempt of the waterfall.
  // ---------------------------------------------------------------------

  /** The response reached the point where the source reads the USD series:
      status 200, a JSON body, a `units` key and a `USD` series in it. */
  predicate ServesUsd(f: Fetch) {
    f.Received? && f.status == 200 && f.body.Some? &&
    f.body.value.units.Some? && Usd in f.body.value.units.value
  }

  function UsdSeries(f: Fetch): (usd: seq<Entry>)
    requires ServesUsd(f)
  {
    f.body.value.units.value[Usd]
  }

  /** The body of the waterfall's `try` for one tag: the value of the latest
      10-K entry, or the reason the loop goes on to the next tag. */
  function TryTag(f: Fetch): (r: TagResult)
    ensures r.Found? ==> ServesUsd(f)
    ensures r.Skipped? && r.why in {NoAnnualEntries, MissingEnd, MissingVal} ==> ServesUsd(f)
  {
    match f
    case NetworkError => Skipped(RequestFailed)
    case Received(status, body) =>
      if status != 200 then Skipped(BadStatus)
      else if body.None? then Skipped(NotJson)
      else if body.value.units.None? || Usd !in body.value.units.value then Skipped(NoUsdSeries)
      else
        var annual := Annual(body.value.units.value[Usd]);
        if annual == [] then Skipped(NoAnnualEntries)
        else if !AllHaveEnd(annual) then Skipped(MissingEnd)
        else
          var latest := SortByEndDesc(annual)[0];
          if latest.val.None? then Skipped(MissingVal)
          else Found(latest.val.value)
  }

  /** A value found for a tag is the `val` of the first 10-K entry with the
      latest end date in that tag's USD series. */
  lemma TryTagFoundIsLatest(f: Fetch, v: int)
    requires TryTag(f) == Found(v)
    ensures ServesUsd(f)
    ensures exists k :: IsLatestAnnual(UsdSeries(f), k) && UsdSeries(f)[k].val == Some(v)
  {
    SortHeadIsLatestAnnual(UsdSeries(f));
  }

  /** Conversely: a USD series whose first latest 10-K entry carries a value
      yields exactly that value. */
  lemma TryTagFindsLatest(f: Fetch, k: int)
    requires ServesUsd(f) && IsLatestAnnual(UsdSeries(f), k) && UsdSeries(f)[k].val.Some?
    ensures TryTag(f) == Found(UsdSeries(f)[k].val.value)
  {
    var usd := UsdSeries(f);
    assert usd[k] in Annual(usd);
    forall i | 0 <= i < |Annual(usd)|
      ensures Annual(usd)[i].end.Some?
    {
      assert Annual(usd)[i] in usd;
    }
    SortHeadIsLatestAnnual(usd);
    var k' :| IsLatestAnnual(usd, k') && SortByEndDesc(Annual(usd))[0] == usd[k'];
    IsLatestAnnualUnique(usd, k, k');
  }

  /** A USD series is skipped for want of annual data exactly when none of
      its entries is a 10-K entry. */
  lemma TryTagNoAnnual(f: Fetch)
    requires ServesUsd(f)
    ensures TryTag(f) == Skipped(NoAnnualEntries) <==>
            forall j :: 0 <= j < |UsdSeries(f)| ==> !IsAnnual(UsdSeries(f)[j])
  {
    var usd := UsdSeries(f);
    if Annual(usd) != [] {
      assert Annual(usd)[0] in usd;
    }
  }

  /** Two annual entries and a later quarterly one: the later annual end date
      wins whatever the values, and the quarterly entry is never chosen. */
  lemma LaterAnnualEndWins()
    ensures TryTag(Received(200, Some(FactsDoc(Some(map[Usd := [
              Entry(Some("10-K"), Some("2022-09-24"), Some(394328000000)),
              Entry(Some("10-Q"), Some("2023-12-30"), Some(119575000000)),
              Entry(Some("10-K"), Some("2023-09-30"), Some(383285000000))]])))))
            == Found(383285000000)
  {
    var usd := [
      Entry(Some("10-K"), Some("2022-09-24"), Some(394328000000)),
      Entry(Some("10-Q"), Some("2023-12-30"), Some(119575000000)),
      Entry(Some("10-K"), Some("2023-09-30"), Some(383285000000))];
    var f := Received(200, Some(FactsDoc(Some(map[Usd := usd]))));
    assert UsdSeries(f) == usd;
    assert StrLess("2022-09-24", "2023-09-30");
    assert IsLatestAnnual(usd, 2);
    TryTagFindsLatest(f, 2);
  }

  /** When every 10-K end date of the series is an ISO date, the chosen entry
      is the most recent one in calendar terms: no 10-K entry ends on a later
      day, and every 10-K entry before it ends on an earlier day. */
  lemma LatestAnnualIsMostRecent(usd: seq<Entry>, k: int)
    requires IsLatestAnnual(usd, k)
    requires forall j :: 0 <= j < |usd| && IsAnnual(usd[j]) ==> usd[j].end.Some? && IsIsoDate(usd[j].end.value)
    ensures forall j :: 0 <= j < |usd| && IsAnnual(usd[j]) ==>
      !Before(usd[k].end.value, usd[j].end.value) &&
      (j < k ==> Before(usd[j].end.value, usd[k].end.value))
  {
    forall j | 0 <= j < |usd| && IsAnnual(usd[j])
      ensures !Before(usd[k].end.value, usd[j].end.value)
      ensures j < k ==> Before(usd[j].end.value, usd[k].end.value)
    {
      var a, b := usd[j].end.value, usd[k].end.value;
      IsoDateOrder(b, a);
      IsoDateOrder(a, b);
      StrLessEqIsNotGreater(a, b);
    }
  }
}
