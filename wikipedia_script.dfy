/**
 * The standalone Wikipedia script: for a list of manufacturer names it builds
 * a dictionary from each name to what its article says (description, founding
 * date, country) or to an error. It reads pages exactly as the Wikipedia
 * command does, but keeps the description and the country as they are
 * (trimmed, no bracket removal) and needs a parsable founding row.
 */
module WikipediaScript {
  import opened Wrappers
  import opened Text
  import opened Query
  import opened CarModels
  import opened Wikipedia

  /** One value of the dictionary. */
  datatype Entry =
    | Info(description: string, founded: Option<Date>, country: Option<string>)
    | Failed    // the `{"Error": ...}` value: a request or the date parser raised

  const PageNotFound := "Page not found."

  /** `get_description`: the raw text of the first paragraph holding bold text. */
  function RawDescription(paragraphs: seq<Paragraph>): (r: string)
    ensures (forall i :: 0 <= i < |paragraphs| ==> !paragraphs[i].bold) ==> r == NoDescription
    ensures forall i :: 0 <= i < |paragraphs| && paragraphs[i].bold && (forall j :: 0 <= j < i ==> !paragraphs[j].bold) ==>
      r == paragraphs[i].text
  {
    var first := FirstWhere(paragraphs, (p: Paragraph) => p.bold);
    if first.Some? then paragraphs[first.value].text else NoDescription
  }

  /** When the bold paragraph has no `[` and no `(`, the script and the command store the same description. */
  lemma DescriptionsAgree(paragraphs: seq<Paragraph>)
    requires '[' !in RawDescription(paragraphs) && '(' !in RawDescription(paragraphs)
    requires exists i :: 0 <= i < |paragraphs| && paragraphs[i].bold
    ensures Strip(RawDescription(paragraphs)) == GetDescription(paragraphs)
  {
    var first := FirstWhere(paragraphs, (p: Paragraph) => p.bold);
    CleanTextPlain(paragraphs[first.value].text);
  }

  /**
   * The entry for one name, or None when the search request raises (which
   * ends the whole function). `parse` stands for `dateutil`'s parser: None
   * when it raises.
   */
  function EntryFor(name: string, search: string -> Option<seq<string>>,
                    fetchPage: string -> Option<Page>, parse: string -> Option<Date>): (r: Option<Entry>)
    ensures r.None? <==> search(name).None?
    ensures r == Some(Info(PageNotFound, None, None)) <== search(name) == Some([])
    ensures search(name).Some? && search(name).value != [] ==>
      var page := fetchPage(PageUrl(search(name).value).value);
      && (r.value.Failed? <==>
           page.None? || page.value.infobox.None? || Scan(page.value.infobox.value).0.None?
           || parse(Scan(page.value.infobox.value).0.value).None?)
      && (r.value.Info? ==>
           && r.value.founded == parse(Scan(page.value.infobox.value).0.value)
           && r.value.country == Scan(page.value.infobox.value).1
           && r.value.description == Strip(RawDescription(page.value.paragraphs)))
  {
    var titles := search(name);
    if titles.None? then None
    else if titles.value == [] then Some(Info(PageNotFound, None, None))
    else
      var page := fetchPage(PageUrl(titles.value).value);
      if page.None? || page.value.infobox.None? then Some(Failed)
      else
        var (year, country) := Scan(page.value.infobox.value);
        if year.None? || parse(year.value).None? then Some(Failed)
        else
          Some(Info(Strip(RawDescription(page.value.paragraphs)), parse(year.value), country))
  }

  /** `get_car_manufacturer_info`: the dictionary after the loop, or None when a search raised. */
  function Collect(names: seq<string>, search: string -> Option<seq<string>>,
                   fetchPage: string -> Option<Page>, parse: string -> Option<Date>): Option<map<string, Entry>>
    decreases |names|
  {
    if names == [] then Some(map[])
    else
      var before := Collect(names[..|names| - 1], search, fetchPage, parse);
      var e := EntryFor(names[|names| - 1], search, fetchPage, parse);
      if before.None? || e.None? then None
      else Some(before.value[names[|names| - 1] := e.value])
  }

  /**
   * The dictionary has one key per distinct name and each value is the entry
   * of that name alone; it is missing exactly when some search raised.
   */
  lemma {:induction false} CollectPointwise(names: seq<string>, search: string -> Option<seq<string>>,
                                            fetchPage: string -> Option<Page>, parse: string -> Option<Date>)
    ensures Collect(names, search, fetchPage, parse).None? <==> exists k :: 0 <= k < |names| && search(names[k]).None?
    ensures Collect(names, search, fetchPage, parse).Some? ==>
      var info := Collect(names, search, fetchPage, parse).value;
      && info.Keys == (set k | 0 <= k < |names| :: names[k])
      && forall n :: n in info ==> Some(info[n]) == EntryFor(n, search, fetchPage, parse)
    decreases |names|
  {
    if names != [] {
      var init := names[..|names| - 1];
      CollectPointwise(init, search, fetchPage, parse);
      assert forall k :: 0 <= k < |init| ==> init[k] == names[k];
      if Collect(names, search, fetchPage, parse).Some? {
        var info := Collect(names, search, fetchPage, parse).value;
        assert info.Keys == (set k | 0 <= k < |init| :: init[k]) + {names[|names| - 1]};
      }
    }
  }

  /** The body of the loop over the names. */
  method ManufacturerEntry(name: string, search: string -> Option<seq<string>>,
                           fetchPage: string -> Option<Page>, parse: string -> Option<Date>) returns (e: Option<Entry>)
    ensures e == EntryFor(name, search, fetchPage, parse)
  {
    var titles := search(name);
    if titles.None? {
      return None;
    }
    var url := PageUrl(titles.value);
    if url.None? {
      return Some(Info(PageNotFound, None, None));
    }
    var page := fetchPage(url.value);
    if page.None? {
      return Some(Failed);
    }
    var description := RawDescription(page.value.paragraphs);
    var year, country := None, None;
    if page.value.infobox.Some? {
      year, country := ScanInfobox(page.value.infobox.value);
    }
    if year.None? {
      return Some(Failed);
    }
    var founded := parse(year.value);
    if founded.None? {
      return Some(Failed);
    }
    e := Some(Info(Strip(description), founded, country));
  }

  /** `get_car_manufacturer_info`. */
  method GetCarManufacturerInfo(names: seq<string>, search: string -> Option<seq<string>>,
                                fetchPage: string -> Option<Page>, parse: string -> Option<Date>)
    returns (info: Option<map<string, Entry>>)
    ensures info == Collect(names, search, fetchPage, parse)
  {
    var acc: map<string, Entry> := map[];
    var k := 0;
    while k < |names|
      invariant 0 <= k <= |names| && Collect(names[..k], search, fetchPage, parse) == Some(acc)
      decreases |names| - k
    {
      var e := ManufacturerEntry(names[k], search, fetchPage, parse);
      assert names[..k + 1][..k] == names[..k];
      if e.None? {
        CollectAbortKeeps(names, k + 1, search, fetchPage, parse);
        return None;
      }
      acc := acc[names[k] := e.value];
      k := k + 1;
    }
    assert names[..k] == names;
    info := Some(acc);
  }

  /** Once a prefix of the names has no dictionary, the whole list has none. */
  lemma {:induction false} CollectAbortKeeps(names: seq<string>, k: nat, search: string -> Option<seq<string>>,
                                             fetchPage: string -> Option<Page>, parse: string -> Option<Date>)
    requires k <= |names| && Collect(names[..k], search, fetchPage, parse).None?
    ensures Collect(names, search, fetchPage, parse).None?
    decreases |names| - k
  {
    if k < |names| {
      assert names[..k + 1][..k] == names[..k];
      CollectAbortKeeps(names, k + 1, search, fetchPage, parse);
    } else {
      assert names[..k] == names;
    }
  }
}
