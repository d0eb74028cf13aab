/**
 * The web services as the commands see them. A response is reduced to its
 * status and the texts the command reads out of it; the HTTP client and the
 * XML/HTML/JSON parsers are outside the model, and a fetch is a function
 * from the requested URL to the reduced response.
 */
module Web {
  import opened Query
  import opened Text

  const StatusOk := 200

  /** The FuelEconomy.gov menu of the makes of a year. */
  function MakesUrl(year: int): string {
    "https://www.fueleconomy.gov/ws/rest/vehicle/menu/make?year=" + IntToString(year)
  }

  /** The FuelEconomy.gov menu of the models of one make in a year. */
  function ModelsUrl(year: int, make: string): string {
    "https://www.fueleconomy.gov/ws/rest/vehicle/menu/model?year=" + IntToString(year) + "&make=" + make
  }

  /** The years from `first` to `last` inclusive, ascending: `range(first, last + 1)`. */
  function Years(first: int, last: int): (r: seq<int>)
    ensures |r| == if last < first then 0 else last - first + 1
    ensures forall i :: 0 <= i < |r| ==> r[i] == first + i
    decreases last - first
  {
    if last < first then [] else [first] + Years(first + 1, last)
  }

  /**
   * A FuelEconomy.gov menu: one text per `menuItem`. The callers read
   * different fields of it: `value` in `scrape`, `text` in `scrape_fueleconomy`.
   */
  datatype Menu = Menu(status: int, items: seq<string>)

  /** How a pass over a service response ended. */
  datatype Outcome =
    | Done                      // the response was read and every item processed
    | FetchFailed               // non-200 status: an error message and no change
    | Raised(error: StoreError) // the ORM raised; items processed before stay committed
}
