/**
 * The Wikipedia command: for each Manufacturer, search for its page, read the
 * description and the infobox, and merge the founding date, the country and
 * the description into the Manufacturer row. The search API, the page fetch,
 * the HTML parser and the date parser are outside the model: the command
 * receives their results as functions.
 */
module Wikipedia {
  import opened Wrappers
  import opened Text
  import opened Query
  import opened CarModels
  import Catalog
  import opened Database

  // ---------------------------------------------------------------- clean_text

  /** No `close` comes before the first newline of `t`. */
  ghost predicate Unclosed(t: string, close: char) {
    forall k :: 0 <= k < |t| && t[k] == close ==> '\n' in t[..k]
  }

  /**
   * Where the lazy `.*?` of a span stops: the first `close` at or after `from`,
   * provided no newline comes before it (`.` does not match a newline).
   */
  function FindClose(s: string, from: nat, close: char): (r: Option<nat>)
    requires from <= |s| && close != '\n'
    ensures r.Some? ==> from <= r.value < |s| && s[r.value] == close
    ensures r.Some? ==> forall k :: from <= k < r.value ==> s[k] != '\n' && s[k] != close
    ensures r.None? ==> Unclosed(s[from..], close)
    decreases |s| - from
  {
    if from == |s| then None
    else if s[from] == close then Some(from)
    else if s[from] == '\n' then None
    else
      var r := FindClose(s, from + 1, close);
      assert s[from..] == [s[from]] + s[from + 1..];
      r
  }

  /**
   * `re.sub(r"\[.*?\]|\(.*?\)", "", s)`: scanning from the left, a `[` that
   * is closed by a `]` on the same line starts a span that is dropped up to
   * that `]`, the same for `(` and `)`; every other character is kept.
   */
  function RemoveSpans(s: string): (r: string)
    ensures |r| <= |s|
    decreases |s|
  {
    if s == [] then []
    else
      var close := if s[0] == '[' then FindClose(s, 1, ']') else if s[0] == '(' then FindClose(s, 1, ')') else None;
      if close.Some? then RemoveSpans(s[close.value + 1..])
      else [s[0]] + RemoveSpans(s[1..])
  }

  /** No complete `[...]` or `(...)` span: an opening character is never closed on its line. */
  ghost predicate NoSpan(s: string) {
    forall i :: 0 <= i < |s| ==>
      && (s[i] == '[' ==> Unclosed(s[i + 1..], ']'))
      && (s[i] == '(' ==> Unclosed(s[i + 1..], ')'))
  }

  /** `clean_text`: spans removed, then white space trimmed at both ends. */
  function CleanText(s: string): string {
    Strip(RemoveSpans(s))
  }

  lemma UnclosedTail(s: string, n: nat, close: char)
    requires n <= |s| && Unclosed(s, close) && '\n' !in s[..n]
    ensures Unclosed(s[n..], close)
  {
    forall k | 0 <= k < |s[n..]| && s[n..][k] == close ensures '\n' in s[n..][..k] {
      assert s[n + k] == close;
      var j :| 0 <= j < n + k && s[j] == '\n';
      assert j >= n;
      assert s[n..][..k][j - n] == '\n';
    }
  }

  /** Removing spans never brings a closing character before the first newline. */
  lemma {:induction false} RemoveSpansKeepsUnclosed(s: string, close: char)
    requires close != '\n' && Unclosed(s, close)
    ensures Unclosed(RemoveSpans(s), close)
    decreases |s|
  {
    if s != [] {
      var c := if s[0] == '[' then FindClose(s, 1, ']') else if s[0] == '(' then FindClose(s, 1, ')') else None;
      if c.Some? {
        assert forall k :: 0 <= k < c.value + 1 ==> s[k] != '\n';
        UnclosedTail(s, c.value + 1, close);
        RemoveSpansKeepsUnclosed(s[c.value + 1..], close);
      } else {
        var r := RemoveSpans(s);
        var rest := RemoveSpans(s[1..]);
        assert r == [s[0]] + rest;
        assert s[..0] == [];
        if s[0] != '\n' {
          UnclosedTail(s, 1, close);
          RemoveSpansKeepsUnclosed(s[1..], close);
          forall k | 0 <= k < |r| && r[k] == close ensures '\n' in r[..k] {
            assert k > 0 && rest[k - 1] == close;
            var j :| 0 <= j < k - 1 && rest[j] == '\n';
            assert r[..k][j + 1] == '\n';
          }
        } else {
          forall k | 0 <= k < |r| && r[k] == close ensures '\n' in r[..k] {
            assert r[..k][0] == '\n';
          }
        }
      }
    }
  }

  /** After the substitution no complete span is left. */
  lemma {:induction false} RemoveSpansNoSpan(s: string)
    ensures NoSpan(RemoveSpans(s))
    decreases |s|
  {
    if s != [] {
      var c := if s[0] == '[' then FindClose(s, 1, ']') else if s[0] == '(' then FindClose(s, 1, ')') else None;
      if c.Some? {
        RemoveSpansNoSpan(s[c.value + 1..]);
      } else {
        var r := RemoveSpans(s);
        var rest := RemoveSpans(s[1..]);
        assert r == [s[0]] + rest;
        RemoveSpansNoSpan(s[1..]);
        assert r[1..] == rest;
        if s[0] == '[' {
          RemoveSpansKeepsUnclosed(s[1..], ']');
        } else if s[0] == '(' {
          RemoveSpansKeepsUnclosed(s[1..], ')');
        }
        forall i | 0 < i < |r| ensures r[i + 1..] == rest[i..] {
        }
      }
    }
  }

  lemma UnclosedPrefix(t: string, n: nat, close: char)
    requires n <= |t| && Unclosed(t, close)
    ensures Unclosed(t[..n], close)
  {
    forall k | 0 <= k < n && t[..n][k] == close ensures '\n' in t[..n][..k] {
      assert t[..n][..k] == t[..k];
    }
  }

  /** A slice of a text without spans has none either. */
  lemma NoSpanSlice(s: string, a: nat, b: nat)
    requires a <= b <= |s| && NoSpan(s)
    ensures NoSpan(s[a..b])
  {
    var t := s[a..b];
    forall i | 0 <= i < |t|
      ensures (t[i] == '[' ==> Unclosed(t[i + 1..], ']')) && (t[i] == '(' ==> Unclosed(t[i + 1..], ')'))
    {
      assert t[i + 1..] == s[a + i + 1..][..b - a - i - 1];
      if t[i] == '[' { UnclosedPrefix(s[a + i + 1..], b - a - i - 1, ']'); }
      if t[i] == '(' { UnclosedPrefix(s[a + i + 1..], b - a - i - 1, ')'); }
    }
  }

  /** The cleaned text is trimmed and holds no complete `[...]` or `(...)` span. */
  lemma CleanTextNoSpan(s: string)
    ensures NoSpan(CleanText(s))
    ensures var r := CleanText(s); r == [] || (!IsSpace(r[0]) && !IsSpace(r[|r| - 1]))
  {
    var r := RemoveSpans(s);
    RemoveSpansNoSpan(s);
    NoSpanSlice(r, LeadingSpace(r), LeadingSpace(r) + |Strip(r)|);
  }

  /** Without any `[` or `(` the substitution changes nothing, so cleaning is only trimming. */
  lemma {:induction false} CleanTextPlain(s: string)
    requires '[' !in s && '(' !in s
    ensures RemoveSpans(s) == s && CleanText(s) == Strip(s)
    decreases |s|
  {
    if s != [] {
      assert '[' !in s[1..] && '(' !in s[1..];
      CleanTextPlain(s[1..]);
    }
  }

  // ---------------------------------------------------------------- the page

  /** A `<p>` of the article: its text and whether it holds a `<b>` element. */
  datatype Paragraph = Paragraph(text: string, bold: bool)

  /** A `<tr>` of the infobox: the text of its first `<th>` and first `<td>`, when there are such cells. */
  datatype Row = Row(header: Option<string>, data: Option<string>)

  /** What the command reads from an article: its paragraphs and, if there is one, the infobox table. */
  datatype Page = Page(paragraphs: seq<Paragraph>, infobox: Option<seq<Row>>)

  /** What `extract_and_parse_date` yields: a date, `None` (no parse), or the string "None" (no date-like text). */
  datatype DateParse = Parsed(date: Date) | Unparsable | NoDateFound

  const ArticlePrefix := "https://en.wikipedia.org/wiki/"
  const NoDescription := "Description not found."

  /** `search_wikipedia_for_page`: the article URL of the first search hit, spaces written as `_`. */
  function PageUrl(titles: seq<string>): (r: Option<string>)
    ensures r.None? <==> titles == []
    ensures r.Some? ==> StartsWith(r.value, ArticlePrefix) && ' ' !in r.value[|ArticlePrefix|..]
  {
    if titles == [] then None
    else
      var url := ArticlePrefix + Replace(titles[0], ' ', "_");
      assert url[..|ArticlePrefix|] == ArticlePrefix && url[|ArticlePrefix|..] == Replace(titles[0], ' ', "_");
      Some(url)
  }

  /** A title without underscores is read back from its URL. */
  lemma PageUrlTitle(titles: seq<string>)
    requires titles != [] && '_' !in titles[0]
    ensures Replace(PageUrl(titles).value[|ArticlePrefix|..], '_', " ") == titles[0]
  {
    var url := PageUrl(titles).value;
    assert url[|ArticlePrefix|..] == Replace(titles[0], ' ', "_");
    ReplaceBack(titles[0], ' ', '_');
  }

  /** `get_description`: the cleaned text of the first paragraph holding bold text. */
  function GetDescription(paragraphs: seq<Paragraph>): (r: string)
    ensures (forall i :: 0 <= i < |paragraphs| ==> !paragraphs[i].bold) ==> r == NoDescription
    ensures forall i :: 0 <= i < |paragraphs| && paragraphs[i].bold && (forall j :: 0 <= j < i ==> !paragraphs[j].bold) ==>
      r == CleanText(paragraphs[i].text)
  {
    var first := FirstWhere(paragraphs, (p: Paragraph) => p.bold);
    if first.Some? then CleanText(paragraphs[first.value].text) else NoDescription
  }

  // ---------------------------------------------------------------- the infobox

  /** Both cells are present and the header, trimmed and lower-cased, contains `word`. */
  predicate Says(row: Row, word: string) {
    row.header.Some? && row.data.Some? && Contains(Lower(Strip(row.header.value)), word)
  }

  /** The founding text a row carries: the part of its data before the first `;`. */
  function FoundedIn(row: Row): Option<string> {
    if Says(row, "founded") then Some(Strip(Split(Strip(row.data.value), ';')[0])) else None
  }

  /** The part of a text after its last `,`, trimmed. */
  function LastField(s: string): string {
    var parts := Split(s, ',');
    Strip(parts[|parts| - 1])
  }

  /** The country a row carries: the part of its data after the last `,` (a founding row carries none). */
  function CountryIn(row: Row): Option<string> {
    if !Says(row, "founded") && Says(row, "headquarters") then Some(LastField(Strip(row.data.value))) else None
  }

  /** What the row loop keeps for one field: each row that carries a value overwrites the one before. */
  function Latest(rows: seq<Row>, carries: Row -> Option<string>): Option<string>
    decreases |rows|
  {
    if rows == [] then None
    else if carries(rows[|rows| - 1]).Some? then carries(rows[|rows| - 1])
    else Latest(rows[..|rows| - 1], carries)
  }

  /** The pair (founded, country) the row loop leaves behind. */
  function Scan(rows: seq<Row>): (Option<string>, Option<string>) {
    (Latest(rows, FoundedIn), Latest(rows, CountryIn))
  }

  /** The value kept is the one of the last row that carries one, and there is none only when no row carries one. */
  lemma {:induction false} LatestIsLast(rows: seq<Row>, carries: Row -> Option<string>)
    ensures Latest(rows, carries).None? <==> forall i :: 0 <= i < |rows| ==> carries(rows[i]).None?
    ensures Latest(rows, carries).Some? ==>
      exists i :: 0 <= i < |rows| && Latest(rows, carries) == carries(rows[i])
        && forall j :: i < j < |rows| ==> carries(rows[j]).None?
    decreases |rows|
  {
    if rows != [] {
      var init := rows[..|rows| - 1];
      LatestIsLast(init, carries);
      assert forall i :: 0 <= i < |init| ==> init[i] == rows[i];
      if carries(rows[|rows| - 1]).None? && Latest(init, carries).Some? {
        var i :| 0 <= i < |init| && Latest(init, carries) == carries(init[i])
          && forall j :: i < j < |init| ==> carries(init[j]).None?;
        assert Latest(rows, carries) == carries(rows[i]);
      }
    }
  }

  /** The body of the row loop: what one row carries. */
  method ReadRow(row: Row) returns (founded: Option<string>, country: Option<string>)
    ensures founded == FoundedIn(row) && country == CountryIn(row)
  {
    founded, country := None, None;
    if row.header.Some? && row.data.Some? {
      var headerText := Lower(Strip(row.header.value));
      var dataText := Strip(row.data.value);
      if Contains(headerText, "founded") {
        assert Says(row, "founded");
        founded := Some(Strip(Split(dataText, ';')[0]));
      } else if Contains(headerText, "headquarters") {
        assert Says(row, "headquarters");
        country := Some(LastField(dataText));
      }
    }
  }

  /** One more row: it overwrites the value kept when it carries one. */
  lemma LatestSnoc(rows: seq<Row>, k: nat, carries: Row -> Option<string>)
    requires k < |rows|
    ensures Latest(rows[..k + 1], carries) == if carries(rows[k]).Some? then carries(rows[k]) else Latest(rows[..k], carries)
  {
    assert rows[..k + 1][..k] == rows[..k];
  }

  /** The loop over the infobox rows. */
  method ScanInfobox(rows: seq<Row>) returns (year: Option<string>, country: Option<string>)
    ensures (year, country) == Scan(rows)
  {
    year, country := None, None;
    var k := 0;
    while k < |rows|
      invariant 0 <= k <= |rows| && year == Latest(rows[..k], FoundedIn) && country == Latest(rows[..k], CountryIn)
      decreases |rows| - k
    {
      LatestSnoc(rows, k, FoundedIn);
      LatestSnoc(rows, k, CountryIn);
      var f, c := ReadRow(rows[k]);
      if f.Some? {
        year := f;
      }
      if c.Some? {
        country := c;
      }
      k := k + 1;
    }
    assert rows[..k] == rows;
  }

  // ---------------------------------------------------------------- one manufacturer

  /** How `scrape_manufacturer_info` ends for one name. */
  datatype Outcome =
    | Updated
    | SearchFailed        // the search request raised: the exception leaves the worker
    | NoPage              // no search hit: fetching `None` raises, and is reported
    | PageFailed          // the article request raised
    | NoInfobox           // nothing is written
    | NotStored(error: StoreError)
    | NoFoundedRow        // searching `None` for a date raises
    | InvalidDate         // the string "None" is refused by the date field on save

  /** What an article yields when the merge goes ahead. */
  datatype Facts = Facts(description: string, country: Option<string>, date: DateParse)

  /**
   * The facts of the article found for `name`, or None when the search has no
   * hit, a request raises, there is no infobox, no founding row, or no
   * date-like text in it. None of this depends on the store.
   */
  function ArticleFacts(name: string, search: string -> Option<seq<string>>,
                        fetchPage: string -> Option<Page>, parseDate: string -> DateParse): (r: Option<Facts>)
    ensures r.Some? ==> !r.value.date.NoDateFound?
  {
    var titles := search(name);
    if titles.None? || titles.value == [] then None
    else
      var page := fetchPage(PageUrl(titles.value).value);
      if page.None? || page.value.infobox.None? then None
      else
        var year := Scan(page.value.infobox.value).0;
        if year.None? || parseDate(year.value).NoDateFound? then None
        else Some(Facts(GetDescription(page.value.paragraphs), Scan(page.value.infobox.value).1, parseDate(year.value)))
  }

  /** The record after the merge: the country and date only when found, the description always. */
  function Merged(m: Manufacturer, facts: Facts): (r: Manufacturer)
    ensures r.id == m.id && r.name == m.name && r.description == Some(facts.description)
    ensures r.country == (if facts.country.Some? then CleanText(facts.country.value) else m.country)
    ensures r.founded == (if facts.date.Parsed? then Some(facts.date.date) else m.founded)
  {
    m.(country := if facts.country.Some? then CleanText(facts.country.value) else m.country,
       founded := if facts.date.Parsed? then Some(facts.date.date) else m.founded,
       description := Some(facts.description))
  }

  /** Merging the same facts twice is merging them once. */
  lemma MergedTwice(m: Manufacturer, facts: Facts)
    ensures Merged(Merged(m, facts), facts) == Merged(m, facts)
  {
  }

  /** A country the merge writes is trimmed and free of bracketed asides. */
  lemma MergedCountryClean(m: Manufacturer, facts: Facts)
    ensures Merged(m, facts).country == m.country || NoSpan(Merged(m, facts).country)
  {
    if facts.country.Some? {
      CleanTextNoSpan(facts.country.value);
    }
  }

  /**
   * `scrape_manufacturer_info`: search, fetch and read the article, then merge
   * what was found into the Manufacturer of that name. Every failure leaves the
   * store as it was.
   */
  function ManufacturerInfo(db: Catalog.Db, name: string, search: string -> Option<seq<string>>,
                            fetchPage: string -> Option<Page>, parseDate: string -> DateParse): (r: (Catalog.Db, Outcome))
    requires Catalog.WellFormed(db)
    ensures Catalog.WellFormed(r.0)
    ensures r.0 == db.(manufacturers := r.0.manufacturers) && |r.0.manufacturers| == |db.manufacturers|
    ensures r.1 != Updated ==> r.0 == db
    ensures r.1 == SearchFailed <==> search(name).None?
    ensures r.1 == Updated <==>
      ArticleFacts(name, search, fetchPage, parseDate).Some? && |Hits(db.manufacturers, ManufacturerName, name)| == 1
    ensures r.1 == Updated ==> forall i :: 0 <= i < |db.manufacturers| ==>
      r.0.manufacturers[i] == if db.manufacturers[i].name == name
                              then Merged(db.manufacturers[i], ArticleFacts(name, search, fetchPage, parseDate).value)
                              else db.manufacturers[i]
  {
    var titles := search(name);
    if titles.None? then (db, SearchFailed)
    else
      var url := PageUrl(titles.value);
      if url.None? then (db, NoPage)
      else
        var page := fetchPage(url.value);
        if page.None? then (db, PageFailed)
        else if page.value.infobox.None? then (db, NoInfobox)
        else
          var (year, country) := Scan(page.value.infobox.value);
          var got := Catalog.GetManufacturer(db, name);
          if got.Err? then (db, NotStored(got.error))
          else if year.None? then (db, NoFoundedRow)
          else
            var date := parseDate(year.value);
            if date.NoDateFound? then (db, InvalidDate)
            else
              var m := got.value;
              var facts := Facts(GetDescription(page.value.paragraphs), country, date);
              SameNameSameRow(db, name, m);
              MergeRows(db, name, m, facts);
              (Catalog.SaveManufacturer(db, Merged(m, facts)), Updated)
  }

  /** In a well-formed store, the only row named like a found row is that row, and it is the only row with its id. */
  lemma SameNameSameRow(db: Catalog.Db, name: string, m: Manufacturer)
    requires Catalog.WellFormed(db) && |Hits(db.manufacturers, ManufacturerName, name)| == 1
    requires m in db.manufacturers && m.name == name
    ensures m.id in Ids(db.manufacturers, ManufacturerId)
    ensures forall i :: 0 <= i < |db.manufacturers| ==> (db.manufacturers[i].id == m.id <==> db.manufacturers[i].name == name)
  {
    var h := Hits(db.manufacturers, ManufacturerName, name);
    forall i | 0 <= i < |db.manufacturers| ensures db.manufacturers[i].id == m.id <==> db.manufacturers[i].name == name {
      SingleHitRow(db.manufacturers, ManufacturerName, name, m);
      if db.manufacturers[i].name == name {
        assert i in h;
      } else if db.manufacturers[i].id == m.id {
        AscendingIdsUnique(db.manufacturers, ManufacturerId, db.manufacturers[i], m);
      }
    }
  }

  /** Saving the merged row rewrites exactly the rows with that name. */
  lemma MergeRows(db: Catalog.Db, name: string, m: Manufacturer, facts: Facts)
    requires Catalog.WellFormed(db) && |Hits(db.manufacturers, ManufacturerName, name)| == 1
    requires m in db.manufacturers && m.name == name
    ensures var r := Catalog.SaveManufacturer(db, Merged(m, facts));
            forall i :: 0 <= i < |db.manufacturers| ==>
              r.manufacturers[i] == if db.manufacturers[i].name == name then Merged(db.manufacturers[i], facts) else db.manufacturers[i]
  {
    SameNameSameRow(db, name, m);
    var r := Catalog.SaveManufacturer(db, Merged(m, facts));
    forall i | 0 <= i < |db.manufacturers|
      ensures r.manufacturers[i] == if db.manufacturers[i].name == name then Merged(db.manufacturers[i], facts) else db.manufacturers[i]
    {
      if db.manufacturers[i].name == name {
        AscendingIdsUnique(db.manufacturers, ManufacturerId, db.manufacturers[i], m);
      }
    }
  }

  /** The rows keep their names, so the name lookups give the same hits. */
  lemma SameNames(a: seq<Manufacturer>, b: seq<Manufacturer>, name: string)
    requires |a| == |b| && forall i :: 0 <= i < |a| ==> a[i].name == b[i].name
    ensures Hits(a, ManufacturerName, name) == Hits(b, ManufacturerName, name)
  {
    HitsSameKeys(a, ManufacturerName, b, ManufacturerName, name);
  }

  /** Running the merge for a name a second time, with the same answers from the web, changes nothing. */
  lemma ManufacturerInfoRerun(db: Catalog.Db, name: string, search: string -> Option<seq<string>>,
                              fetchPage: string -> Option<Page>, parseDate: string -> DateParse)
    requires Catalog.WellFormed(db)
    ensures var d := ManufacturerInfo(db, name, search, fetchPage, parseDate).0;
            ManufacturerInfo(d, name, search, fetchPage, parseDate).0 == d
  {
    var (d, outcome) := ManufacturerInfo(db, name, search, fetchPage, parseDate);
    if outcome == Updated {
      var (d2, outcome2) := ManufacturerInfo(d, name, search, fetchPage, parseDate);
      if outcome2 == Updated {
        UpdatedTwice(db, name, search, fetchPage, parseDate);
      }
    }
  }

  /** Two merges for the same name that both update: the second writes what the first wrote. */
  lemma UpdatedTwice(db: Catalog.Db, name: string, search: string -> Option<seq<string>>,
                     fetchPage: string -> Option<Page>, parseDate: string -> DateParse)
    requires Catalog.WellFormed(db)
    requires ManufacturerInfo(db, name, search, fetchPage, parseDate).1 == Updated
    requires var d := ManufacturerInfo(db, name, search, fetchPage, parseDate).0;
             ManufacturerInfo(d, name, search, fetchPage, parseDate).1 == Updated
    ensures var d := ManufacturerInfo(db, name, search, fetchPage, parseDate).0;
            ManufacturerInfo(d, name, search, fetchPage, parseDate).0.manufacturers == d.manufacturers
  {
    var d := ManufacturerInfo(db, name, search, fetchPage, parseDate).0;
    var d2 := ManufacturerInfo(d, name, search, fetchPage, parseDate).0;
    var facts := ArticleFacts(name, search, fetchPage, parseDate).value;
    InfoKeepsNames(db, name, search, fetchPage, parseDate);
    forall i | 0 <= i < |d.manufacturers| ensures d2.manufacturers[i] == d.manufacturers[i] {
      if d.manufacturers[i].name == name {
        MergedTwice(db.manufacturers[i], facts);
      }
    }
  }

  // ---------------------------------------------------------------- the command

  /**
   * `scrape_manufacturers`: the merge for every manufacturer name of the
   * snapshot, in order. A search that raises makes the command raise, after
   * every name has had its turn; the result names the first such manufacturer.
   */
  function InfoForAll(db: Catalog.Db, names: seq<string>, search: string -> Option<seq<string>>,
                      fetchPage: string -> Option<Page>, parseDate: string -> DateParse): (r: (Catalog.Db, Option<string>))
    requires Catalog.WellFormed(db)
    ensures Catalog.WellFormed(r.0)
    ensures r.0 == db.(manufacturers := r.0.manufacturers) && |r.0.manufacturers| == |db.manufacturers|
    ensures r.1.None? <==> forall k :: 0 <= k < |names| ==> search(names[k]).Some?
    ensures r.1.Some? ==>
      exists k :: 0 <= k < |names| && names[k] == r.1.value && search(names[k]).None?
        && forall j :: 0 <= j < k ==> search(names[j]).Some?
    decreases |names|
  {
    if names == [] then (db, None)
    else
      var (d, outcome) := ManufacturerInfo(db, names[0], search, fetchPage, parseDate);
      var (d2, failed) := InfoForAll(d, names[1..], search, fetchPage, parseDate);
      assert forall k :: 0 < k < |names| ==> names[k] == names[1..][k - 1];
      (d2, if outcome == SearchFailed then Some(names[0]) else failed)
  }

  /** Whether the pass writes to the manufacturer named `name`. */
  ghost predicate Touched(db: Catalog.Db, names: seq<string>, name: string, search: string -> Option<seq<string>>,
                          fetchPage: string -> Option<Page>, parseDate: string -> DateParse)
  {
    name in names && ArticleFacts(name, search, fetchPage, parseDate).Some?
    && |Hits(db.manufacturers, ManufacturerName, name)| == 1
  }

  /**
   * The whole pass, row by row: a manufacturer whose name is in the list, has
   * a single row and has usable facts gets them merged in; every other row is
   * kept. The order of the names does not matter.
   */
  lemma {:induction false} InfoForAllRows(db: Catalog.Db, names: seq<string>, search: string -> Option<seq<string>>,
                                          fetchPage: string -> Option<Page>, parseDate: string -> DateParse)
    requires Catalog.WellFormed(db)
    ensures var r := InfoForAll(db, names, search, fetchPage, parseDate).0;
      forall i :: 0 <= i < |db.manufacturers| ==>
        r.manufacturers[i] ==
          if Touched(db, names, db.manufacturers[i].name, search, fetchPage, parseDate)
          then Merged(db.manufacturers[i], ArticleFacts(db.manufacturers[i].name, search, fetchPage, parseDate).value)
          else db.manufacturers[i]
    decreases |names|
  {
    RowsAfterAll(db, names, search, fetchPage, parseDate);
    var r := InfoForAll(db, names, search, fetchPage, parseDate).0;
    forall i | 0 <= i < |db.manufacturers|
      ensures r.manufacturers[i] ==
          if Touched(db, names, db.manufacturers[i].name, search, fetchPage, parseDate)
          then Merged(db.manufacturers[i], ArticleFacts(db.manufacturers[i].name, search, fetchPage, parseDate).value)
          else db.manufacturers[i]
    {
      assert RowAfter(db, names, r, i, search, fetchPage, parseDate);
    }
  }

  /** Row `i` of `r` is what the pass over `names` makes of row `i` of `db`. */
  ghost predicate RowAfter(db: Catalog.Db, names: seq<string>, r: Catalog.Db, i: nat, search: string -> Option<seq<string>>,
                           fetchPage: string -> Option<Page>, parseDate: string -> DateParse)
    requires i < |db.manufacturers| && i < |r.manufacturers|
  {
    r.manufacturers[i] ==
      if Touched(db, names, db.manufacturers[i].name, search, fetchPage, parseDate)
      then Merged(db.manufacturers[i], ArticleFacts(db.manufacturers[i].name, search, fetchPage, parseDate).value)
      else db.manufacturers[i]
  }

  lemma {:induction false} RowsAfterAll(db: Catalog.Db, names: seq<string>, search: string -> Option<seq<string>>,
                                        fetchPage: string -> Option<Page>, parseDate: string -> DateParse)
    requires Catalog.WellFormed(db)
    ensures forall i :: 0 <= i < |db.manufacturers| ==>
              RowAfter(db, names, InfoForAll(db, names, search, fetchPage, parseDate).0, i, search, fetchPage, parseDate)
    decreases |names|
  {
    if names != [] {
      var d := ManufacturerInfo(db, names[0], search, fetchPage, parseDate).0;
      var r := InfoForAll(d, names[1..], search, fetchPage, parseDate).0;
      RowsAfterAll(d, names[1..], search, fetchPage, parseDate);
      assert r == InfoForAll(db, names, search, fetchPage, parseDate).0;
      forall i | 0 <= i < |db.manufacturers| ensures RowAfter(db, names, r, i, search, fetchPage, parseDate) {
        RowStep(db, names, i, search, fetchPage, parseDate);
      }
    }
  }

  /** The merge for one name renames no row. */
  lemma InfoKeepsNames(db: Catalog.Db, name: string, search: string -> Option<seq<string>>,
                       fetchPage: string -> Option<Page>, parseDate: string -> DateParse)
    requires Catalog.WellFormed(db)
    ensures var d := ManufacturerInfo(db, name, search, fetchPage, parseDate).0;
            |d.manufacturers| == |db.manufacturers|
            && forall j :: 0 <= j < |db.manufacturers| ==> d.manufacturers[j].name == db.manufacturers[j].name
  {
  }

  /** The first name's merge followed by the rest of the pass, for one row. */
  lemma RowStep(db: Catalog.Db, names: seq<string>, i: nat, search: string -> Option<seq<string>>,
                fetchPage: string -> Option<Page>, parseDate: string -> DateParse)
    requires Catalog.WellFormed(db) && names != [] && i < |db.manufacturers|
    requires var d := ManufacturerInfo(db, names[0], search, fetchPage, parseDate).0;
             RowAfter(d, names[1..], InfoForAll(d, names[1..], search, fetchPage, parseDate).0, i, search, fetchPage, parseDate)
    ensures var d := ManufacturerInfo(db, names[0], search, fetchPage, parseDate).0;
            RowAfter(db, names, InfoForAll(d, names[1..], search, fetchPage, parseDate).0, i, search, fetchPage, parseDate)
  {
    var n := names[0];
    var (d, outcome) := ManufacturerInfo(db, n, search, fetchPage, parseDate);
    var x := db.manufacturers[i].name;
    InfoKeepsNames(db, n, search, fetchPage, parseDate);
    SameNames(db.manufacturers, d.manufacturers, x);
    assert x in names <==> x == n || x in names[1..];
    if x == n && outcome == Updated {
      MergedTwice(db.manufacturers[i], ArticleFacts(x, search, fetchPage, parseDate).value);
    }
  }

  /** Running the whole pass twice, with the same answers from the web, is running it once. */
  lemma InfoForAllRerun(db: Catalog.Db, names: seq<string>, search: string -> Option<seq<string>>,
                        fetchPage: string -> Option<Page>, parseDate: string -> DateParse)
    requires Catalog.WellFormed(db)
    ensures var d := InfoForAll(db, names, search, fetchPage, parseDate).0;
            InfoForAll(d, names, search, fetchPage, parseDate).0 == d
  {
    var d := InfoForAll(db, names, search, fetchPage, parseDate).0;
    var d2 := InfoForAll(d, names, search, fetchPage, parseDate).0;
    InfoForAllRows(db, names, search, fetchPage, parseDate);
    InfoForAllRows(d, names, search, fetchPage, parseDate);
    forall i | 0 <= i < |d.manufacturers| ensures d2.manufacturers[i] == d.manufacturers[i] {
      var x := db.manufacturers[i].name;
      SameNames(db.manufacturers, d.manufacturers, x);
      if Touched(db, names, x, search, fetchPage, parseDate) {
        MergedTwice(db.manufacturers[i], ArticleFacts(x, search, fetchPage, parseDate).value);
      }
    }
  }

  /** One worker of the pass, on the store. */
  method ScrapeManufacturerInfo(db: Store, name: string, search: string -> Option<seq<string>>,
                                fetchPage: string -> Option<Page>, parseDate: string -> DateParse) returns (outcome: Outcome)
    requires db.Valid()
    modifies db
    ensures db.Valid()
    ensures (db.State(), outcome) == ManufacturerInfo(old(db.State()), name, search, fetchPage, parseDate)
  {
    var titles := search(name);
    if titles.None? {
      return SearchFailed;
    }
    var url := PageUrl(titles.value);
    if url.None? {
      return NoPage;
    }
    var page := fetchPage(url.value);
    if page.None? {
      return PageFailed;
    }
    var description := GetDescription(page.value.paragraphs);
    if page.value.infobox.None? {
      return NoInfobox;
    }
    var year, country := ScanInfobox(page.value.infobox.value);
    var got := db.GetManufacturer(name);
    if got.Err? {
      return NotStored(got.error);
    }
    if year.None? {
      return NoFoundedRow;
    }
    var date := parseDate(year.value);
    if date.NoDateFound? {
      return InvalidDate;
    }
    SameNameSameRow(db.State(), name, got.value);
    db.SaveManufacturer(Merged(got.value, Facts(description, country, date)));
    outcome := Updated;
  }

  /** `scrape_manufacturers` on the store: every name of the snapshot taken at the start. */
  method ScrapeManufacturers(db: Store, search: string -> Option<seq<string>>,
                             fetchPage: string -> Option<Page>, parseDate: string -> DateParse) returns (failed: Option<string>)
    requires db.Valid()
    modifies db
    ensures db.Valid()
    ensures (db.State(), failed) == InfoForAll(old(db.State()), Catalog.Names(old(db.manufacturers)), search, fetchPage, parseDate)
  {
    var names := Catalog.Names(db.manufacturers);
    failed := None;
    var k := 0;
    assert names[k..] == names;
    while k < |names|
      invariant 0 <= k <= |names| && db.Valid()
      invariant InfoForAll(old(db.State()), names, search, fetchPage, parseDate)
             == (InfoForAll(db.State(), names[k..], search, fetchPage, parseDate).0,
                 if failed.Some? then failed else InfoForAll(db.State(), names[k..], search, fetchPage, parseDate).1)
      decreases |names| - k
    {
      ghost var before := db.State();
      var outcome := ScrapeManufacturerInfo(db, names[k], search, fetchPage, parseDate);
      assert names[k..][1..] == names[k + 1..];
      if outcome == SearchFailed && failed.None? {
        failed := Some(names[k]);
      }
      k := k + 1;
    }
  }
}
