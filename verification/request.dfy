/**
 * Query-string parameters as the list handlers read them. A parameter is
 * absent (`null` from `searchParams.get`) or a string; the handlers test
 * it for truthiness, so the empty string counts as absent.
 */
module Request {
  import opened Options

  /** An instant, as milliseconds since the epoch; only its order matters. */
  type Date = int

  /** Milliseconds in one day. */
  const DayMs: int := 86_400_000

  /** The instant one day after `d`. */
  function NextDay(d: Date): (r: Date)
    ensures r > d
  {
    d + DayMs
  }

  /** `if (param)`: present and not the empty string. */
  predicate Given(param: Option<string>) {
    param.Some? && param.value != ""
  }

  /**
   * `parseInt(get(name) || fallback)`: the parsed number, or the fallback
   * when the parameter is absent or empty. `None` stands for both.
   */
  function IntParam(param: Option<int>, fallback: int): (r: int)
    ensures param.None? ==> r == fallback
    ensures param.Some? ==> r == param.value
  {
    param.GetOr(fallback)
  }
}
