/** The date-fns helpers the pages use, over timestamps written as integer
    milliseconds since the epoch. Calendar and daylight-saving effects are
    not modelled: a day is 86,400,000 ms and an hour 3,600,000 ms. */
module DateFns {

  const MS_PER_HOUR: int := 3_600_000
  const MS_PER_DAY: int := 86_400_000

  /** Integer division rounding toward zero, as `Math.trunc(a / b)`.
      Dafny's own `/` rounds toward negative infinity for negative `a`. */
  function TruncDiv(a: int, b: int): (q: int)
    requires b > 0
    ensures a >= 0 ==> 0 <= q && q * b <= a < q * b + b
    ensures a < 0 ==> q <= 0 && q * b - b < a <= q * b
  {
    if a >= 0 then
      DivBounds(a, b);
      a / b
    else
      var d := (-a) / b;
      DivBounds(-a, b);
      assert (-d) * b == -(d * b);
      -d
  }

  /** Euclidean division of a non-negative number brackets it between
      consecutive multiples. */
  lemma DivBounds(m: int, b: int)
    requires m >= 0 && b > 0
    ensures 0 <= m / b && (m / b) * b <= m < (m / b) * b + b
  {
    assert m == (m / b) * b + m % b;
  }

  /** `isAfter(date, dateToCompare)`: strictly later. */
  predicate IsAfter(date: int, dateToCompare: int) {
    date > dateToCompare
  }

  /** `differenceInDays(later, earlier)`: whole days, truncated toward zero. */
  function DifferenceInDays(later: int, earlier: int): (r: int)
    ensures later >= earlier ==> 0 <= r && r * MS_PER_DAY <= later - earlier < (r + 1) * MS_PER_DAY
    ensures later < earlier ==> r <= 0 && (r - 1) * MS_PER_DAY < later - earlier <= r * MS_PER_DAY
  {
    TruncDiv(later - earlier, MS_PER_DAY)
  }

  /** `differenceInHours(later, earlier)`: whole hours, truncated toward zero. */
  function DifferenceInHours(later: int, earlier: int): (r: int)
    ensures later >= earlier ==> 0 <= r && r * MS_PER_HOUR <= later - earlier < (r + 1) * MS_PER_HOUR
    ensures later < earlier ==> r <= 0 && (r - 1) * MS_PER_HOUR < later - earlier <= r * MS_PER_HOUR
  {
    TruncDiv(later - earlier, MS_PER_HOUR)
  }
}
