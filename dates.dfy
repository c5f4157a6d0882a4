/** The range guard of parseDate (main.go:183-194). The layout parsing by
    time.Parse that precedes it is not modelled: the guard receives a date
    that has already been parsed. */
module Dates {
  import opened Schedule

  /** The first and last year parseDate accepts. */
  const MinYear := 1
  const MaxYear := 9999

  /** Accepts a parsed date exactly when its year lies in [1, 9999]; otherwise
      reports the offending year. An accepted date is returned unchanged. */
  function ParseDate(d: Date): (r: Result<Date, Rejection>)
    ensures r.Ok? <==> 1 <= d.year <= 9999
    ensures r.Ok? ==> r.value == d
    ensures r.Err? ==> r.error == YearOutOfRange(d.year)
  {
    if d.year < MinYear || d.year > MaxYear then Err(YearOutOfRange(d.year)) else Ok(d)
  }

  /** The bounds of the guard: year 0 and year 10000 are refused, the first and
      the last day of the accepted range pass. */
  lemma ParseDateBoundaries(month: int, day: int)
    ensures ParseDate(Date(0, month, day)) == Err(YearOutOfRange(0))
    ensures ParseDate(Date(10000, month, day)) == Err(YearOutOfRange(10000))
    ensures ParseDate(Date(1, 1, 1)).Ok? && ParseDate(Date(9999, 12, 31)).Ok?
  {
  }
}
