/** Sync modes: from command-line flags to a mode and an anchor date, and from a mode to the filter a fetch sends. */
module Modes {
  import opened Text
  import opened Dates

  datatype Mode =
    | Incremental
    | OpenSweep(clause: string)
    | RollingFull(days: int)
    | Master
    | Backfill(from: Day, to: Day)
    | Reports(asOf: Day)

  /** What a fetch asks Xero to restrict itself to; `Window` is the `where` clause on the business date. */
  datatype Filter = Everything | ModifiedWithin(days: int) | Clause(text: string) | Window(from: Day, to: Day)

  /** Which business dates a filter lets through, for filters that look at the business date. */
  predicate Admits(f: Filter, d: Day) {
    match f
    case Window(from, to) => NotAfter(from, d) && NotAfter(d, to)
    case Everything => true
    case _ => false
  }

  /** `rolling_window`; `None` where chrono panics because the calendar does not reach back that far. */
  function RollingWindow(runDate: Day, days: int): Option<(Day, Day)> {
    match MinusDays(runDate, if days > 1 then days - 1 else 0)
    case Some(from) => Some((from, runDate))
    case None => None
  }

  /** `fetch_params`: window modes apply to date-windowable entities only. */
  function FetchParams(mode: Mode, windowable: bool, runDate: Day, windowDays: int): Option<Filter> {
    match mode
    case Incremental => Some(ModifiedWithin(windowDays))
    case OpenSweep(clause) => Some(Clause(clause))
    case RollingFull(days) =>
      if !windowable then Some(Everything)
      else (match RollingWindow(runDate, days) case Some(w) => Some(Window(w.0, w.1)) case None => None)
    case Backfill(from, to) => Some(if windowable then Window(from, to) else Everything)
    case Master => Some(Everything)
    case Reports(_) => Some(Everything)
  }

  datatype Args = Args(
    reports: bool, asOf: Option<Day>, clause: Option<string>, businessFrom: Option<Day>, businessTo: Option<Day>,
    fullWithWindow: bool, full: bool, noWindow: bool)

  datatype Resolved = Chosen(mode: Mode, anchor: Day) | NeedsFrom | Reversed

  /** `resolve_mode`: the flags in order of precedence. */
  function ResolveMode(args: Args, runDate: Day, tightDays: int): Resolved {
    if args.reports then Chosen(Reports(if args.asOf.Some? then args.asOf.value else runDate), runDate)
    else if args.clause.Some? then Chosen(OpenSweep(args.clause.value), runDate)
    else if args.businessFrom.Some? || args.businessTo.Some? then
      if args.businessFrom.None? then NeedsFrom
      else
        var from, to := args.businessFrom.value, if args.businessTo.Some? then args.businessTo.value else runDate;
        if Before(to, from) then Reversed
        else Chosen(RollingFull(DayNumber(to) - DayNumber(from) + 1), to)
    else if args.fullWithWindow then Chosen(RollingFull(tightDays), runDate)
    else if args.full then Chosen(Master, runDate)
    else if args.noWindow then Chosen(OpenSweep(""), runDate)
    else Chosen(Incremental, runDate)
  }

  /**
   * An explicit `--business-from/to` window is recovered exactly: a fetch run at the returned anchor filters on
   * `[from, to]`, although the mode only carries a number of days. The flags are refused exactly when `from` is
   * missing or after `to`.
   */
  lemma BusinessWindowRecovered(args: Args, runDate: Day, tightDays: int, windowDays: int)
    requires !args.reports && args.clause.None? && (args.businessFrom.Some? || args.businessTo.Some?)
    ensures var to := if args.businessTo.Some? then args.businessTo.value else runDate;
      match ResolveMode(args, runDate, tightDays) {
        case NeedsFrom => args.businessFrom.None?
        case Reversed => args.businessFrom.Some? && Before(to, args.businessFrom.value)
        case Chosen(mode, anchor) =>
          && args.businessFrom.Some? && NotAfter(args.businessFrom.value, to) && anchor == to
          && FetchParams(mode, true, anchor, windowDays) == Some(Window(args.businessFrom.value, to))
      }
  {
    if args.businessFrom.Some? {
      var from, to := args.businessFrom.value, if args.businessTo.Some? then args.businessTo.value else runDate;
      if !Before(to, from) {
        MinusDaysInverse(from, to);
      }
    }
  }

  /** A rolling window of `days` ends at the anchor and holds exactly `max(days, 1)` days. */
  lemma {:induction false} RollingWindowLength(runDate: Day, days: int)
    requires RollingWindow(runDate, days).Some?
    ensures var w := RollingWindow(runDate, days).value;
      w.1 == runDate && DayNumber(w.1) - DayNumber(w.0) + 1 == (if days > 1 then days else 1)
  {
    MinusDaysNumber(runDate, if days > 1 then days - 1 else 0);
  }

  lemma {:induction false} MinusDaysNumber(d: Day, n: nat)
    requires MinusDays(d, n).Some?
    ensures DayNumber(MinusDays(d, n).value) == DayNumber(d) - n
    decreases n
  {
    if n > 0 {
      PredIsDayBefore(d);
      MinusDaysNumber(Pred(d).value, n - 1);
    }
  }

  /**
   * What the flags make a fetch ask for, at the anchor they lead to: `--reports` first, then a clause, which goes to
   * every entity, then the business dates, then the rolling window, both for date-windowable entities only, then the
   * two unfiltered pulls, and without flags whatever was modified lately. Only business dates can be refused.
   */
  lemma {:induction false} FlagsDecideFilter(args: Args, runDate: Day, tightDays: int, windowDays: int,
                                             windowable: bool)
    ensures var to := if args.businessTo.Some? then args.businessTo.value else runDate;
      var dated := !args.reports && args.clause.None? && (args.businessFrom.Some? || args.businessTo.Some?);
      match ResolveMode(args, runDate, tightDays) {
        case NeedsFrom => dated && args.businessFrom.None?
        case Reversed => dated && args.businessFrom.Some? && Before(to, args.businessFrom.value)
        case Chosen(mode, anchor) =>
          var filter := FetchParams(mode, windowable, anchor, windowDays);
          && anchor == (if dated then to else runDate)
          && (mode.Reports? <==> args.reports)
          && (args.reports ==> mode.asOf == (if args.asOf.Some? then args.asOf.value else runDate))
          && if args.reports then filter == Some(Everything)
             else if args.clause.Some? then filter == Some(Clause(args.clause.value))
             else if dated then
               && args.businessFrom.Some?
               && filter == Some(if windowable then Window(args.businessFrom.value, to) else Everything)
             else if args.fullWithWindow && windowable then
               filter.Some? ==> filter.value.Window? && EndsWith(filter.value, runDate, tightDays)
             else if args.fullWithWindow || args.full then filter == Some(Everything)
             else if args.noWindow then filter == Some(Clause(""))
             else filter == Some(ModifiedWithin(windowDays))
      }
  {
    if !args.reports && args.clause.None? && (args.businessFrom.Some? || args.businessTo.Some?) {
      BusinessWindowRecovered(args, runDate, tightDays, windowDays);
    } else if RollingWindow(runDate, tightDays).Some? {
      RollingWindowLength(runDate, tightDays);
    }
  }

  /** The window's last day is `to`, and it has `days` days, or one. */
  predicate EndsWith(window: Filter, to: Day, days: int)
    requires window.Window?
  {
    window.to == to && DayNumber(window.to) - DayNumber(window.from) + 1 == (if days > 1 then days else 1)
  }
}
