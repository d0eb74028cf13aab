/**
 * The base API command every scraping command inherits: its command-line
 * options and `handle`, which dispatches on the operation name and calls the
 * command's scrape function once per year until a call raises. The scrape
 * functions themselves are the other modules; here a call is recorded in the
 * command's trace, and whether it raises in a year is an input.
 */
module BaseScrape {
  import opened Wrappers
  import opened Text
  import Web

  /** The four operations the `--scrape-type` option accepts. */
  datatype ScrapeType = Manufacturers | Models | Variations | VehicleTypes

  function TypeName(t: ScrapeType): string {
    match t
    case Manufacturers => "manufacturers"
    case Models => "models"
    case Variations => "variations"
    case VehicleTypes => "vehicle_types"
  }

  /** The `choices` check of the option: one of the four names, or a usage error (None). */
  function ParseType(s: string): (r: Option<ScrapeType>)
    ensures r.Some? <==> s in {"manufacturers", "models", "variations", "vehicle_types"}
    ensures r.Some? ==> TypeName(r.value) == s
  {
    if s == "manufacturers" then Some(Manufacturers)
    else if s == "models" then Some(Models)
    else if s == "variations" then Some(Variations)
    else if s == "vehicle_types" then Some(VehicleTypes)
    else None
  }

  /** Every operation is accepted under its own name. */
  lemma TypeNameRoundTrip(t: ScrapeType)
    ensures ParseType(TypeName(t)) == Some(t)
  {
  }

  const DefaultWorkers := 10

  /** The parsed options. */
  datatype Options = Options(startYear: int, endYear: int, scrapeType: ScrapeType, numWorkers: int)

  /**
   * `add_arguments`: the start year and the operation are required, the end
   * year defaults to the current year and the worker count to ten; a missing
   * required option or an unknown operation is a usage error (None).
   */
  function ParseOptions(startYear: Option<int>, endYear: Option<int>, scrapeType: Option<string>,
                        numWorkers: Option<int>, currentYear: int): (r: Option<Options>)
    ensures r.Some? <==> startYear.Some? && scrapeType.Some? && ParseType(scrapeType.value).Some?
    ensures r.Some? ==> r.value.startYear == startYear.value && TypeName(r.value.scrapeType) == scrapeType.value
    ensures r.Some? && endYear.None? ==> r.value.endYear == currentYear
    ensures r.Some? && endYear.Some? ==> r.value.endYear == endYear.value
    ensures r.Some? && numWorkers.None? ==> r.value.numWorkers == DefaultWorkers
    ensures r.Some? && numWorkers.Some? ==> r.value.numWorkers == numWorkers.value
  {
    if startYear.None? || scrapeType.None? then None
    else
      match ParseType(scrapeType.value)
      case None => None
      case Some(t) =>
        Some(Options(startYear.value, if endYear.Some? then endYear.value else currentYear, t,
                     if numWorkers.Some? then numWorkers.value else DefaultWorkers))
  }

  /** The operations the base class itself defines, as stubs that raise `NotImplementedError`. */
  const BaseStubs: set<ScrapeType> := {Manufacturers, Models, Variations}

  /** One call of a scrape function: the operation and the year. */
  datatype Call = Call(scrapeType: ScrapeType, year: int)

  /**
   * How `handle` returned: normally, by the `NotImplementedError` of a base
   * stub in a year, or by the exception the command's own scrape function
   * raised in a year.
   */
  datatype Ending = Completed | NotImplemented(year: int) | Raised(year: int)

  /** A line `handle` writes to standard output; `Written` gives its text. */
  datatype Line = ProgressLine(scrapeType: ScrapeType, year: int) | NoFunctionMessage(scrapeType: ScrapeType)

  function Written(line: Line): string {
    match line
    case ProgressLine(t, year) => "Scraping " + TypeName(t) + " for year: " + IntToString(year)
    case NoFunctionMessage(t) => "No scraping function defined for type: " + TypeName(t)
  }

  /** A progress line names its operation and ends with its year in decimal, which reads back to that year. */
  lemma ProgressLineYear(t: ScrapeType, year: int)
    ensures var head := "Scraping " + TypeName(t) + " for year: ";
      var w := Written(ProgressLine(t, year));
      head <= w && ParseInt(w[|head|..]) == Some(year)
  {
    var head := "Scraping " + TypeName(t) + " for year: ";
    var w := Written(ProgressLine(t, year));
    assert w == head + IntToString(year);
    assert w[|head|..] == IntToString(year);
    IntToStringRoundTrip(year);
  }

  /** The calls of operation `t`, one per year of `years`, in order. */
  function CallsFor(t: ScrapeType, years: seq<int>): (r: seq<Call>)
    ensures |r| == |years| && forall i :: 0 <= i < |years| ==> r[i] == Call(t, years[i])
  {
    seq(|years|, i requires 0 <= i < |years| => Call(t, years[i]))
  }

  /** The progress lines for `years`, in order. */
  function Progress(t: ScrapeType, years: seq<int>): (r: seq<Line>)
    ensures |r| == |years| && forall i :: 0 <= i < |years| ==> r[i] == ProgressLine(t, years[i])
  {
    seq(|years|, i requires 0 <= i < |years| => ProgressLine(t, years[i]))
  }

  /** The year range grows by its next year. */
  lemma YearsSnoc(first: int, last: int)
    requires first <= last + 1
    ensures Web.Years(first, last + 1) == Web.Years(first, last) + [last + 1]
  {
    var a, b := Web.Years(first, last + 1), Web.Years(first, last) + [last + 1];
    assert |a| == |b|;
    forall i | 0 <= i < |a| ensures a[i] == b[i] {
      if i < |a| - 1 {
        assert b[i] == Web.Years(first, last)[i];
      }
    }
  }

  /**
   * The position of the first year whose call raises, or `|years|` when none
   * does; an exception leaves the `for` loop, so no later year is called.
   */
  function FirstRaise(years: seq<int>, raises: int -> bool): (k: nat)
    ensures k <= |years|
    ensures forall i :: 0 <= i < k ==> !raises(years[i])
    ensures k < |years| ==> raises(years[k])
  {
    if years == [] || raises(years[0]) then 0
    else 1 + FirstRaise(years[1..], raises)
  }

  /** The years the loop calls: all of them, or those up to and including the first that raises. */
  function Attempted(years: seq<int>, raises: int -> bool): seq<int> {
    var k := FirstRaise(years, raises);
    if k < |years| then years[..k + 1] else years
  }

  /** How the loop ends: by the exception of the first year that raises, or normally. */
  function Outcome(years: seq<int>, raises: int -> bool): Ending {
    var k := FirstRaise(years, raises);
    if k < |years| then Raised(years[k]) else Completed
  }

  /** The loop completes exactly when no year raises, and then it has called every year. */
  lemma CompletesIffNoneRaises(years: seq<int>, raises: int -> bool)
    ensures Outcome(years, raises) == Completed <==> forall i :: 0 <= i < |years| ==> !raises(years[i])
    ensures Outcome(years, raises) == Completed ==> Attempted(years, raises) == years
  {
  }

  /**
   * A raising year is the last one called: it is one of the years, every year
   * called before it returned, and the years after it are never called.
   */
  lemma RaiseEndsLoop(years: seq<int>, raises: int -> bool)
    requires Outcome(years, raises).Raised?
    ensures var a, y := Attempted(years, raises), Outcome(years, raises).year;
      && a != [] && a <= years && a[|a| - 1] == y && raises(y)
      && (forall i :: 0 <= i < |a| - 1 ==> !raises(a[i]))
  {
    var a := Attempted(years, raises);
    var k := FirstRaise(years, raises);
    assert a == years[..k + 1];
    forall i | 0 <= i < |a| - 1 ensures !raises(a[i]) {
      assert a[i] == years[i];
    }
  }

  /** Every call for `years` returned. */
  ghost predicate AllReturned(years: seq<int>, raises: int -> bool) {
    forall i :: 0 <= i < |years| ==> !raises(years[i])
  }

  /** When every year before `year` returned and `year` raises, the loop calls exactly the years up to `year`. */
  lemma RaisesAt(start: int, end: int, raises: int -> bool, before: seq<int>, year: int)
    requires start <= year <= end && raises(year)
    requires before == Web.Years(start, year - 1) && AllReturned(before, raises)
    ensures Attempted(Web.Years(start, end), raises) == before + [year]
    ensures Outcome(Web.Years(start, end), raises) == Raised(year)
  {
    var years := Web.Years(start, end);
    forall i | 0 <= i < year - start ensures !raises(years[i]) {
      assert years[i] == before[i];
    }
    var k := FirstRaise(years, raises);
    assert years[year - start] == year;
    assert k == year - start;
    assert years[..k + 1] == before + [year];
  }

  /** When no year raises, the loop calls every year and completes. */
  lemma NoneRaises(years: seq<int>, raises: int -> bool)
    requires AllReturned(years, raises)
    ensures Attempted(years, raises) == years && Outcome(years, raises) == Completed
  {
  }

  /** One more year adds its call and its progress line after those already made. */
  lemma LogsSnoc(t: ScrapeType, calls: seq<Call>, output: seq<Line>, years: seq<int>, year: int)
    ensures calls + CallsFor(t, years) + [Call(t, year)] == calls + CallsFor(t, years + [year])
    ensures output + Progress(t, years) + [ProgressLine(t, year)] == output + Progress(t, years + [year])
  {
    assert CallsFor(t, years + [year]) == CallsFor(t, years) + [Call(t, year)];
    assert Progress(t, years + [year]) == Progress(t, years) + [ProgressLine(t, year)];
  }

  /** A year is in the range exactly when it lies between the bounds, both included. */
  lemma YearsInclusive(first: int, last: int, y: int)
    ensures y in Web.Years(first, last) <==> first <= y <= last
  {
    var r := Web.Years(first, last);
    if first <= y <= last {
      assert r[y - first] == y;
    }
  }

  class ApiCommand {
    /** The operations the concrete command overrides. */
    const overrides: set<ScrapeType>
    var numWorkers: int
    /** The scrape calls made so far. */
    var calls: seq<Call>
    /** The lines written to standard output so far. */
    var output: seq<Line>

    constructor (overrides: set<ScrapeType>)
      ensures this.overrides == overrides && numWorkers == DefaultWorkers && calls == [] && output == []
    {
      this.overrides := overrides;
      numWorkers, calls, output := DefaultWorkers, [], [];
    }

    /** `hasattr(self, "scrape_<type>")`: an override or a base stub. */
    predicate HasScrape(t: ScrapeType) {
      t in overrides || t in BaseStubs
    }

    /**
     * `handle`: store the worker count; for an operation with a scrape
     * function, write a progress line and call it for each year from the start
     * year to the end year inclusive, until a call raises; otherwise write one
     * error line. `raises(y)` says whether the command's own scrape function
     * raises when called for year `y`.
     */
    method Handle(opts: Options, raises: int -> bool) returns (ending: Ending)
      modifies this
      ensures numWorkers == opts.numWorkers
      ensures var t, years := opts.scrapeType, Web.Years(opts.startYear, opts.endYear);
        && (!HasScrape(t) ==>
              calls == old(calls) && output == old(output) + [NoFunctionMessage(t)] && ending == Completed)
        && (t in overrides ==>
              && calls == old(calls) + CallsFor(t, Attempted(years, raises))
              && output == old(output) + Progress(t, Attempted(years, raises))
              && ending == Outcome(years, raises))
        && (HasScrape(t) && t !in overrides && years == [] ==>
              calls == old(calls) && output == old(output) && ending == Completed)
        && (HasScrape(t) && t !in overrides && years != [] ==>
              calls == old(calls) && output == old(output) + [ProgressLine(t, opts.startYear)]
              && ending == NotImplemented(opts.startYear))
    {
      numWorkers := opts.numWorkers;
      var t := opts.scrapeType;
      if !HasScrape(t) {
        output := output + [NoFunctionMessage(t)];
        return Completed;
      }
      if t !in overrides {
        // the base stub raises NotImplementedError on the first year it is called for
        if opts.startYear <= opts.endYear {
          output := output + [ProgressLine(t, opts.startYear)];
          return NotImplemented(opts.startYear);
        }
        return Completed;
      }
      ending := RunYears(t, opts.startYear, opts.endYear, raises);
    }

    /** One year of the loop: its progress line, then the call, which raises or returns. */
    method CallYear(t: ScrapeType, year: int, raises: int -> bool) returns (raised: bool)
      modifies this
      ensures raised == raises(year) && numWorkers == old(numWorkers)
      ensures calls == old(calls) + [Call(t, year)] && output == old(output) + [ProgressLine(t, year)]
    {
      output := output + [ProgressLine(t, year)];
      calls := calls + [Call(t, year)];
      raised := raises(year);
    }

    /**
     * The year loop of `handle` for an overridden operation: a progress line,
     * then the call, for each year in turn; an exception from a call ends the loop.
     */
    method RunYears(t: ScrapeType, start: int, end: int, raises: int -> bool) returns (ending: Ending)
      modifies this
      ensures numWorkers == old(numWorkers)
      ensures calls == old(calls) + CallsFor(t, Attempted(Web.Years(start, end), raises))
      ensures output == old(output) + Progress(t, Attempted(Web.Years(start, end), raises))
      ensures ending == Outcome(Web.Years(start, end), raises)
    {
      ghost var years := Web.Years(start, end);
      var year := start;
      ghost var done: seq<int> := [];
      while year <= end
        invariant start <= year && (year <= end + 1 || year == start)
        invariant done == Web.Years(start, year - 1)
        invariant AllReturned(done, raises)
        invariant numWorkers == old(numWorkers)
        invariant calls == old(calls) + CallsFor(t, done)
        invariant output == old(output) + Progress(t, done)
        decreases end - year
      {
        YearsSnoc(start, year - 1);
        LogsSnoc(t, old(calls), old(output), done, year);
        var raised := CallYear(t, year, raises);
        if raised {
          RaisesAt(start, end, raises, done, year);
          return Raised(year);
        }
        done := done + [year];
        year := year + 1;
      }
      if start <= end {
        assert year == end + 1;
      }
      assert done == years;
      NoneRaises(years, raises);
      ending := Completed;
    }
  }
}
