/** One run for a ticker: resolve the CIK, stop if there is none, otherwise
    run the revenue waterfall for it and decide what the revenue line says. */
module PilotRun {
  import opened Wrappers
  import opened Text
  import opened TickerResolver
  import opened RevenueWaterfall

  /** The unit a found figure is shown in. */
  datatype Scale = Billions | Millions

  /** The revenue line of the report: a figure with its tag and unit, or the
      "no revenue data" message. */
  datatype RevenueLine = Reported(val: int, tag: string, scale: Scale) | NotReported

  /** How a run ends: halted because the ticker is not in the directory, or
      completed with a CIK and a revenue line. */
  datatype PilotOutcome = CikNotFound(ticker: string) | Completed(cik: string, revenue: RevenueLine)

  const OneBillion: int := 1_000_000_000

  /** The branch on the waterfall's result. Python's `if raw_revenue:` is
      false for a missing value and also for a value of 0, so a zero figure is
      reported as missing; a figure of at least one billion is shown in
      billions, any other (negative ones too) in millions. */
  function RevenueLineOf(r: Option<Revenue>): (line: RevenueLine)
    ensures line.Reported? <==> r.Some? && r.value.val != 0
    ensures line.Reported? ==> line.val == r.value.val && line.tag == r.value.tag
    ensures line.Reported? ==> (line.scale == Billions <==> line.val >= OneBillion)
  {
    match r
    case None => NotReported
    case Some(Revenue(v, t)) =>
      if v == 0 then NotReported
      else if v >= OneBillion then Reported(v, t, Billions)
      else Reported(v, t, Millions)
  }

  /** A run: the ticker is upper-cased and looked up; without a CIK the run
      halts before any facts are requested; with one, the waterfall runs for
      that CIK. A found CIK string is never empty, so `if not cik` halts only
      when nothing matched. The metadata step in between is not part of this
      model. */
  method RunPilot(ticker: string, companies: seq<Company>, fetch: FactsSource) returns (out: PilotOutcome)
    ensures out.CikNotFound? <==>
      forall i :: 0 <= i < |companies| ==> companies[i].ticker != AsciiUpper(ticker)
    ensures out.CikNotFound? ==> out.ticker == AsciiUpper(ticker)
    ensures out.Completed? ==>
      LookupCik(ticker, companies) == Some(out.cik) && |out.cik| >= CikWidth &&
      out.revenue == RevenueLineOf(FirstFound(out.cik, RevenueTags, fetch))
  {
    LookupCikFirstMatch(ticker, companies);
    var cik := FindCik(ticker, companies);
    if cik.None? {
      return CikNotFound(AsciiUpper(ticker));
    }
    var revenue := GetRevenueWaterfall(cik.value, fetch);
    out := Completed(cik.value, RevenueLineOf(revenue));
  }
}
