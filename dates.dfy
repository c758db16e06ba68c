/**
 * Date parsing as the catalogue sees it. Python's `datetime.fromisoformat` and
 * `datetime.strptime(s, '%Y-%m-%d')` are not modelled; they are parameters. A parsed
 * value is an Instant: a position on the time line (`stamp`, where 0 is
 * `datetime.min`) and whether it carries a time zone (`aware`). Python refuses to
 * order an aware value against a naive one.
 */
module Dates {
  import opened Wrappers

  datatype Instant = Instant(stamp: nat, aware: bool)

  /** `datetime.min`: naive, and no naive value lies before it. */
  const MinInstant := Instant(0, false)

  /**
   * The two parsers: `fromIso` stands for `datetime.fromisoformat` (None for a
   * ValueError) and `ymd` for `strptime` with `'%Y-%m-%d'`, whose result is always naive.
   */
  datatype DateParsers = DateParsers(fromIso: string -> Option<Instant>, ymd: string -> Option<nat>)
}
