/** Reporting-period end dates are ISO 8601 calendar dates, `YYYY-MM-DD`.
    The latest annual fact is chosen by comparing these strings as plain
    strings; this module shows why that is the same as comparing dates. */
module IsoDates {
  import opened Text

  predicate IsIsoDate(s: string) {
    |s| == 10 && s[4] == '-' && s[7] == '-' &&
    IsDigits(s[..4]) && IsDigits(s[5..7]) && IsDigits(s[8..])
  }

  function Year(s: string): (y: nat)
    requires IsIsoDate(s)
  {
    Num(s[..4])
  }

  function Month(s: string): (m: nat)
    requires IsIsoDate(s)
  {
    Num(s[5..7])
  }

  function Day(s: string): (d: nat)
    requires IsIsoDate(s)
  {
    Num(s[8..])
  }

  /** Calendar order: by year, then month, then day. */
  predicate Before(a: string, b: string)
    requires IsIsoDate(a) && IsIsoDate(b)
  {
    Year(a) < Year(b) ||
    (Year(a) == Year(b) && (Month(a) < Month(b) || (Month(a) == Month(b) && Day(a) < Day(b))))
  }

  /** Python's string `<` on two ISO dates is calendar order, and two ISO
      dates are equal strings exactly when they name the same day. */
  lemma IsoDateOrder(a: string, b: string)
    requires IsIsoDate(a) && IsIsoDate(b)
    ensures StrLess(a, b) <==> Before(a, b)
    ensures a == b <==> Year(a) == Year(b) && Month(a) == Month(b) && Day(a) == Day(b)
  {
    assert a == a[..4] + (a[4..5] + (a[5..7] + (a[7..8] + a[8..])));
    assert b == b[..4] + (b[4..5] + (b[5..7] + (b[7..8] + b[8..])));
    assert a[4..5] == b[4..5] == "-" && a[7..8] == b[7..8] == "-";
    StrLessIrreflexive("-");
    DigitsOrder(a[..4], b[..4]);
    DigitsOrder(a[5..7], b[5..7]);
    DigitsOrder(a[8..], b[8..]);
    StrLessConcat(a[7..8], a[8..], b[7..8], b[8..]);
    StrLessConcat(a[5..7], a[7..8] + a[8..], b[5..7], b[7..8] + b[8..]);
    StrLessConcat(a[4..5], a[5..7] + (a[7..8] + a[8..]), b[4..5], b[5..7] + (b[7..8] + b[8..]));
    StrLessConcat(a[..4], a[4..5] + (a[5..7] + (a[7..8] + a[8..])), b[..4], b[4..5] + (b[5..7] + (b[7..8] + b[8..])));
  }
}
