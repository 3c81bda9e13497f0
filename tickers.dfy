/** Ticker resolution: find a ticker in the bulk company directory and render
    its filer identifier (CIK) as the ten-digit string the data endpoints use. */
module TickerResolver {
  import opened Wrappers
  import opened Text

  /** One record of the company directory: its `ticker` and its integer
      `cik_str`. The directory is the sequence of records in the order the
      decoded JSON object yields its values. */
  datatype Company = Company(ticker: string, cikStr: int)

  /** Width of a rendered CIK. */
  const CikWidth: nat := 10

  /** The CIK in decimal, zero-filled to ten characters. */
  function CikString(cik: int): (r: string) {
    ZFill(IntToString(cik), CikWidth)
  }

  /** For a non-negative CIK: exactly ten characters unless the number needs
      more, all of them digits, the number's own digits at the end and only
      '0' in front of them, so the string reads back as the same number. */
  lemma CikStringOfNat(cik: nat)
    ensures |CikString(cik)| == if |Decimal(cik)| >= CikWidth then |Decimal(cik)| else CikWidth
    ensures var r, d := CikString(cik), Decimal(cik);
      r[|r| - |d|..] == d && (forall i :: 0 <= i < |r| - |d| ==> r[i] == '0')
    ensures IsDigits(CikString(cik)) && Num(CikString(cik)) == cik
  {
    var r, d := CikString(cik), Decimal(cik);
    assert r == r[..|r| - |d|] + d;
    NumLeadingZeros(r[..|r| - |d|], d);
  }

  /** The CIK the run uses for `ticker`: upper-case it, take the first
      directory record whose ticker equals it exactly, and render its CIK;
      `None` when no record matches. */
  function LookupCik(ticker: string, companies: seq<Company>): (r: Option<string>)
    decreases |companies|
  {
    if companies == [] then None
    else if companies[0].ticker == AsciiUpper(ticker) then Some(CikString(companies[0].cikStr))
    else LookupCik(ticker, companies[1..])
  }

  /** A CIK is found exactly when some record carries the upper-cased ticker,
      and then it is the CIK of the first such record. */
  lemma {:induction false} LookupCikFirstMatch(ticker: string, companies: seq<Company>)
    ensures LookupCik(ticker, companies).None? <==>
      forall i :: 0 <= i < |companies| ==> companies[i].ticker != AsciiUpper(ticker)
    ensures LookupCik(ticker, companies).Some? ==>
      exists i :: 0 <= i < |companies| && companies[i].ticker == AsciiUpper(ticker) &&
        (forall j :: 0 <= j < i ==> companies[j].ticker != AsciiUpper(ticker)) &&
        LookupCik(ticker, companies) == Some(CikString(companies[i].cikStr))
  {
    if companies != [] {
      LookupCikFirstMatch(ticker, companies[1..]);
      assert forall i :: 1 <= i < |companies| ==> companies[i] == companies[1..][i - 1];
      if companies[0].ticker != AsciiUpper(ticker) && LookupCik(ticker, companies).Some? {
        var i :| 0 <= i < |companies[1..]| && companies[1..][i].ticker == AsciiUpper(ticker) &&
          (forall j :: 0 <= j < i ==> companies[1..][j].ticker != AsciiUpper(ticker)) &&
          LookupCik(ticker, companies[1..]) == Some(CikString(companies[1..][i].cikStr));
        assert companies[i + 1].ticker == AsciiUpper(ticker);
      }
    }
  }

  /** Lookup ignores the case of ASCII letters in the ticker asked for. */
  lemma LookupCikIgnoresCase(ticker: string, companies: seq<Company>)
    ensures LookupCik(AsciiUpper(ticker), companies) == LookupCik(ticker, companies)
  {
    AsciiUpperIdempotent(ticker);
  }

  /** The directory scan: `cik` starts absent, and the first record whose
      ticker equals the upper-cased ticker sets it and ends the loop. */
  method FindCik(ticker: string, companies: seq<Company>) returns (cik: Option<string>)
    ensures cik == LookupCik(ticker, companies)
  {
    var wanted := AsciiUpper(ticker);
    cik := None;
    var i := 0;
    while i < |companies|
      invariant 0 <= i <= |companies|
      invariant cik == None
      invariant LookupCik(ticker, companies[i..]) == LookupCik(ticker, companies)
    {
      assert companies[i..][1..] == companies[i + 1..];
      if companies[i].ticker == wanted {
        cik := Some(CikString(companies[i].cikStr));
        break;
      }
      i := i + 1;
    }
  }
}
