/** The query logic of the older catalogue service: one table whose rows are identified by
    their Yvert-Tellier number alone, the same chain of optional filters as the newer service
    (with the years read as integers and no language), a lookup by number, the same title
    search and three listings. Every handler is a chain of reassignments of `stamps` or
    `titles`, modelled here as a composition of filters. */
module CatalogueApi {
  import opened PyStr
  import opened Seqs
  import opened Outcomes
  import opened Wildcard

  /** One row of the table, by the columns the handlers read: `yt`, `title`, `issued` (read
      as an integer column), `color`, `value` and `type`. */
  datatype Record = Record(
    yt: string, title: string, issued: int, color: string, value: string, stampType: string)

  /** The query parameters of `GET /stamps`, `None` where the request does not give one. */
  datatype StampsQuery = StampsQuery(
    title: Option<string>, year: Option<string>, color: Option<string>, value: Option<string>,
    stampType: Option<string>, start: Option<int>, count: Option<int>)

  /** `[int(item) for item in items]`: `None` when one of the items is not an integer, which
      raises `ValueError`. */
  function ParseYears(items: seq<string>): (r: Option<seq<int>>)
    ensures r.Some? <==> forall i :: 0 <= i < |items| ==> ParseInt(items[i]).Some?
    ensures r.Some? ==> |r.value| == |items|
    ensures r.Some? ==> forall i :: 0 <= i < |items| ==> r.value[i] == ParseInt(items[i]).value
  {
    var parsed := seq(|items|, i requires 0 <= i < |items| => ParseInt(items[i]));
    assert forall i :: 0 <= i < |items| ==> parsed[i] == ParseInt(items[i]);
    AllValues(parsed)
  }

  /** The values of a list of results when every one of them has a value. */
  function AllValues<T>(opts: seq<Option<T>>): (r: Option<seq<T>>)
    ensures r.Some? <==> forall i :: 0 <= i < |opts| ==> opts[i].Some?
    ensures r.Some? ==> |r.value| == |opts|
    ensures r.Some? ==> forall i :: 0 <= i < |opts| ==> r.value[i] == opts[i].value
  {
    if opts == [] then Some([])
    else
      var init := AllValues(opts[..|opts| - 1]);
      assert forall i :: 0 <= i < |opts| - 1 ==> opts[..|opts| - 1][i] == opts[i];
      if init.Some? && opts[|opts| - 1].Some? then Some(init.value + [opts[|opts| - 1].value])
      else None
  }

  /** The years `str(y)` of a list of integers, the text the `year` parameter is made of. */
  function YearTexts(years: seq<int>): seq<string>
  {
    seq(|years|, i requires 0 <= i < |years| => IntString(years[i]))
  }

  /** The number of a year has no comma. */
  lemma {:induction false} DecimalHasNoComma(n: nat)
    ensures ',' !in Decimal(n)
  {
    if n >= 10 {
      DecimalHasNoComma(n / 10);
    }
  }

  /** The text of a year has no comma. */
  lemma YearTextNoComma(y: int)
    ensures ',' !in IntString(y)
  {
    DecimalHasNoComma(if y < 0 then -y else y);
  }

  /** Reading the texts of a list of years gives the list back. */
  lemma YearTextsParse(years: seq<int>)
    ensures ParseYears(YearTexts(years)) == Some(years)
  {
    var texts := YearTexts(years);
    forall i | 0 <= i < |texts| ensures ParseInt(texts[i]) == Some(years[i]) {
      assert texts[i] == IntString(years[i]);
      IntRoundTrip(years[i]);
    }
    var r := ParseYears(texts);
    assert r.Some?;
    assert r.value == years;
  }

  /** A `year` parameter written as the comma-joined years of a list reads back as that list. */
  lemma YearQuery(years: seq<int>)
    requires |years| >= 1
    ensures ParseYears(Split(Join(YearTexts(years), ','), ',')) == Some(years)
  {
    var texts := YearTexts(years);
    forall p | p in texts ensures ',' !in p {
      var i :| 0 <= i < |texts| && texts[i] == p;
      YearTextNoComma(years[i]);
    }
    SplitJoin(texts, ',');
    YearTextsParse(years);
  }

  /** The masks of the filter chain, as tests on one row. */
  function TitleIs(title: string): Record -> bool
  {
    (s: Record) => s.title == title
  }

  function IssuedIn(years: seq<int>): Record -> bool
  {
    (s: Record) => s.issued in years
  }

  function ColorIn(colors: seq<string>): Record -> bool
  {
    (s: Record) => s.color in colors
  }

  function ValueIs(value: string): Record -> bool
  {
    (s: Record) => s.value == value
  }

  function TypeIn(types: seq<string>): Record -> bool
  {
    (s: Record) => s.stampType in types
  }

  /** The filter chain once the years are read: `stamps` starts as the whole table and is
      reassigned to the rows passing each mask whose parameter is given. */
  function Filtered(db: seq<Record>, q: StampsQuery, years: seq<int>): seq<Record>
  {
    var s1 := if q.title.Some? then Filter(db, TitleIs(q.title.value)) else db;
    var s2 := if q.year.Some? then Filter(s1, IssuedIn(years)) else s1;
    var s3 := if q.color.Some? then Filter(s2, ColorIn(Split(q.color.value, ','))) else s2;
    var s4 := if q.value.Some? then Filter(s3, ValueIs(q.value.value)) else s3;
    if q.stampType.Some? then Filter(s4, TypeIn(Split(q.stampType.value, ','))) else s4
  }

  /** What the query asks of a row: every given parameter is met, `title` and `value` by
      equality, the others by membership in the comma-separated list. */
  predicate Selects(q: StampsQuery, years: seq<int>, s: Record)
  {
    && (q.title.Some? ==> s.title == q.title.value)
    && (q.year.Some? ==> s.issued in years)
    && (q.color.Some? ==> s.color in Split(q.color.value, ','))
    && (q.value.Some? ==> s.value == q.value.value)
    && (q.stampType.Some? ==> s.stampType in Split(q.stampType.value, ','))
  }

  function SelectTest(q: StampsQuery, years: seq<int>): Record -> bool
  {
    (s: Record) => Selects(q, years, s)
  }

  /** The filter chain keeps exactly the rows the query selects, in the order of the table. */
  lemma {:induction false} FilteredSelects(db: seq<Record>, q: StampsQuery, years: seq<int>)
    ensures Filtered(db, q, years) == Filter(db, SelectTest(q, years))
  {
    var all: Record -> bool := (s: Record) => true;
    var t1: Record -> bool := (s: Record) => q.title.Some? ==> s.title == q.title.value;
    var t2: Record -> bool := (s: Record) => t1(s) && (q.year.Some? ==> s.issued in years);
    var t3: Record -> bool := (s: Record) => t2(s) && (q.color.Some? ==> s.color in Split(q.color.value, ','));
    var t4: Record -> bool := (s: Record) => t3(s) && (q.value.Some? ==> s.value == q.value.value);
    var t5: Record -> bool := (s: Record) => t4(s) && (q.stampType.Some? ==> s.stampType in Split(q.stampType.value, ','));
    FilterAll(db, all);
    FilterStep(db, all, q.title.Some?,
      if q.title.Some? then TitleIs(q.title.value) else all, t1);
    FilterStep(db, t1, q.year.Some?, IssuedIn(years), t2);
    FilterStep(db, t2, q.color.Some?,
      if q.color.Some? then ColorIn(Split(q.color.value, ',')) else all, t3);
    FilterStep(db, t3, q.value.Some?,
      if q.value.Some? then ValueIs(q.value.value) else all, t4);
    FilterStep(db, t4, q.stampType.Some?,
      if q.stampType.Some? then TypeIn(Split(q.stampType.value, ',')) else all, t5);
    FilterExt(db, t5, SelectTest(q, years));
  }

  /** `GET /stamps`: `start` is checked first and `count` second, each answered with a 400
      whose body is `null` (the message written to `response.body` is not sent), then the
      filters run (an item of `year` that is not an integer ends the request with an error)
      and every filtered row is returned with their number; `start` and `count` select
      nothing. */
  function StampsResource(db: seq<Record>, q: StampsQuery): Outcome<ValuesList<Record>>
  {
    if q.start.Some? && q.start.value <= 0 then BadRequest(None)
    else if q.count.Some? && q.count.value <= 0 then BadRequest(None)
    else
      var years := if q.year.Some? then ParseYears(Split(q.year.value, ',')) else Some([]);
      if years.None? then ServerError("ValueError")
      else
        var stamps := Filtered(db, q, years.value);
        Ok(ValuesList(|stamps|, stamps))
  }

  /** Whether every item of the `year` parameter, if there is one, is an integer. */
  predicate YearsParse(q: StampsQuery)
  {
    q.year.Some? ==> ParseYears(Split(q.year.value, ',')).Some?
  }

  /** The years the `year` parameter lists (none when it is absent). */
  function Years(q: StampsQuery): seq<int>
    requires YearsParse(q)
  {
    if q.year.Some? then ParseYears(Split(q.year.value, ',')).value else []
  }

  /** `start <= 0` is rejected whatever else the query says, `count <= 0` next (both with a
      `null` body), a year that is
      not an integer next; otherwise the answer is every selected row, in table order, with
      their number. */
  lemma StampsValidation(db: seq<Record>, q: StampsQuery)
    ensures q.start.Some? && q.start.value <= 0 ==> StampsResource(db, q) == BadRequest(None)
    ensures (q.start.None? || q.start.value >= 1) && q.count.Some? && q.count.value <= 0 ==>
      StampsResource(db, q) == BadRequest(None)
    ensures StampsResource(db, q).BadRequest? <==>
      (q.start.Some? && q.start.value <= 0) || (q.count.Some? && q.count.value <= 0)
    ensures StampsResource(db, q).ServerError? <==>
      (q.start.None? || q.start.value >= 1) && (q.count.None? || q.count.value >= 1) && !YearsParse(q)
    ensures StampsResource(db, q).Ok? <==>
      (q.start.None? || q.start.value >= 1) && (q.count.None? || q.count.value >= 1) && YearsParse(q)
    ensures StampsResource(db, q).Ok? ==>
      && StampsResource(db, q).value.count == |StampsResource(db, q).value.values|
      && StampsResource(db, q).value.values == Filter(db, SelectTest(q, Years(q)))
  {
    if YearsParse(q) {
      FilteredSelects(db, q, Years(q));
    }
  }

  /** Valid `start` and `count` change nothing: the answer is the one without them. */
  lemma StartCountIgnored(db: seq<Record>, q: StampsQuery)
    requires q.start.None? || q.start.value >= 1
    requires q.count.None? || q.count.value >= 1
    ensures StampsResource(db, q) == StampsResource(db, q.(start := None, count := None))
  {
  }

  /** A year listed in the query, written as in the `issued` column, selects the rows of that
      year: listing the years as text and reading them back loses nothing. */
  lemma YearFilter(db: seq<Record>, years: seq<int>, s: Record)
    requires |years| >= 1
    ensures var q := StampsQuery(None, Some(Join(YearTexts(years), ',')), None, None, None, None, None);
      && StampsResource(db, q).Ok?
      && (s in StampsResource(db, q).value.values <==> s in db && s.issued in years)
  {
    YearQuery(years);
  }

  /** `db.loc[db["yt"] == yt].to_dict(orient="records")[0]` behind the test `yt in
      db["yt"].values`: the first row with the number `yt`, and not found when no row has it. */
  function StampResource(db: seq<Record>, yt: string): (r: Outcome<Record>)
    ensures r.Ok? <==> exists s :: s in db && s.yt == yt
    ensures !r.Ok? ==> r == NotFound
    ensures r.Ok? ==> exists i ::
      && 0 <= i < |db| && db[i] == r.value && db[i].yt == yt
      && forall j :: 0 <= j < i ==> db[j].yt != yt
  {
    var test := (s: Record) => s.yt == yt;
    ColumnMembers(db, (s: Record) => s.yt);
    if yt in Column(db, (s: Record) => s.yt) then
      var hits := Filter(db, test);
      assert exists s :: s in db && test(s);
      FilterFirst(db, test);
      Ok(hits[0])
    else NotFound
  }

  /** With numbers that identify their rows, every row is found by its own number. */
  lemma StampFound(db: seq<Record>, i: nat)
    requires i < |db|
    requires forall j :: 0 <= j < |db| && db[j].yt == db[i].yt ==> j == i
    ensures StampResource(db, db[i].yt) == Ok(db[i])
  {
  }

  /** The body of a listing endpoint of this service: `{"count": ..., name: [...]}`, with the
      name each handler chooses. */
  datatype NamedList<T> = NamedList(count: int, name: string, values: seq<T>)

  /** The title column. */
  function TitleColumn(db: seq<Record>): seq<string>
  {
    Column(db, (s: Record) => s.title)
  }

  /** `GET /stamp_titles`: without a query or for `*`, every title once, sorted, under
      `titles`; for more than one `*`, the error; otherwise the masks applied to the distinct
      titles (`pd.Series(db['title'].unique())`), in order of first occurrence, under
      `stamp_titles`. */
  function StampTitles(db: seq<Record>, q: Option<string>): (r: Outcome<NamedList<string>>)
    requires q != Some("")
    ensures q.None? || q == Some("*") ==>
      && r.Ok? && r.value.name == "titles" && r.value.count == |r.value.values|
      && Sorted(r.value.values, StrLe) && NoDup(r.value.values)
      && forall x :: x in r.value.values <==> exists s :: s in db && s.title == x
    ensures q.Some? && multiset(q.value)['*'] > 1 ==> r == BadRequest(Some(MultipleStarsMessage))
    ensures q.Some? && SingleStarQuery(q.value) ==>
      && r.Ok? && r.value.name == "stamp_titles" && r.value.count == |r.value.values|
      && r.value.values == Unique(Filter(TitleColumn(db), MatchTest(q.value)))
      && NoDup(r.value.values)
      && forall x :: x in r.value.values <==> (exists s :: s in db && s.title == x) && Matches(q.value, x)
  {
    if q.None? || q.value == "*" then Ok(AllTitles(db))
    else if multiset(q.value)['*'] > 1 then BadRequest(Some(MultipleStarsMessage))
    else Ok(SearchTitles(db, q.value))
  }

  /** `sorted(titles)` of the distinct titles, under `titles`. */
  function AllTitles(db: seq<Record>): (r: NamedList<string>)
    ensures r.name == "titles" && r.count == |r.values|
    ensures Sorted(r.values, StrLe) && NoDup(r.values)
    ensures forall x :: x in r.values <==> exists s :: s in db && s.title == x
  {
    StrLeTotalOrder();
    ColumnMembers(db, (s: Record) => s.title);
    var sorted := Listing(TitleColumn(db), StrLe);
    NamedList(sorted.count, "titles", sorted.values)
  }

  /** The masks applied to the distinct titles, under `stamp_titles`. */
  function SearchTitles(db: seq<Record>, q: string): (r: NamedList<string>)
    requires SingleStarQuery(q)
    ensures r.name == "stamp_titles" && r.count == |r.values|
    ensures r.values == Unique(Filter(TitleColumn(db), MatchTest(q)))
    ensures NoDup(r.values)
    ensures forall x :: x in r.values <==> (exists s :: s in db && s.title == x) && Matches(q, x)
  {
    var column := TitleColumn(db);
    var found := PatternFilter(q, Unique(column));
    DistinctThenSearch(q, column);
    ColumnMembers(db, (s: Record) => s.title);
    NamedList(|found|, "stamp_titles", found)
  }

  /** Searching the distinct titles, as this service does, gives the distinct titles of the
      search of the whole column, as the newer service computes them. */
  lemma DistinctThenSearch(q: string, titles: seq<string>)
    requires SingleStarQuery(q)
    ensures PatternFilter(q, Unique(titles)) == Unique(PatternFilter(q, titles))
    ensures PatternFilter(q, Unique(titles)) == Unique(Filter(titles, MatchTest(q)))
    ensures NoDup(PatternFilter(q, Unique(titles)))
    ensures forall x :: x in PatternFilter(q, Unique(titles)) <==> x in titles && Matches(q, x)
  {
    PatternFilterMatches(q, Unique(titles));
    PatternFilterMatches(q, titles);
    UniqueFilter(titles, MatchTest(q));
    var found := Unique(Filter(titles, MatchTest(q)));
    assert forall x :: x in found <==> x in titles && MatchTest(q)(x);
  }

  /** `GET /stamp_years/`: every `issued` year once, ascending, under `titles`. */
  function StampYears(db: seq<Record>): (r: NamedList<int>)
    ensures r.name == "titles" && r.count == |r.values|
    ensures Sorted(r.values, IntLe) && NoDup(r.values)
    ensures forall x :: x in r.values <==> exists s :: s in db && s.issued == x
  {
    IntLeTotalOrder();
    ColumnMembers(db, (s: Record) => s.issued);
    var sorted := Listing(Column(db, (s: Record) => s.issued), IntLe);
    NamedList(sorted.count, "titles", sorted.values)
  }

  /** `GET /stamp_colors/`: every color once, sorted, under `colors`. */
  function StampColors(db: seq<Record>): (r: NamedList<string>)
    ensures r.name == "colors" && r.count == |r.values|
    ensures Sorted(r.values, StrLe) && NoDup(r.values)
    ensures forall x :: x in r.values <==> exists s :: s in db && s.color == x
  {
    StrLeTotalOrder();
    ColumnMembers(db, (s: Record) => s.color);
    var sorted := Listing(Column(db, (s: Record) => s.color), StrLe);
    NamedList(sorted.count, "colors", sorted.values)
  }

  /** `GET /stamp_values/`: every printed value once, sorted, under `colors` (the name the
      handler uses). */
  function StampValues(db: seq<Record>): (r: NamedList<string>)
    ensures r.name == "colors" && r.count == |r.values|
    ensures Sorted(r.values, StrLe) && NoDup(r.values)
    ensures forall x :: x in r.values <==> exists s :: s in db && s.value == x
  {
    StrLeTotalOrder();
    ColumnMembers(db, (s: Record) => s.value);
    var sorted := Listing(Column(db, (s: Record) => s.value), StrLe);
    NamedList(sorted.count, "colors", sorted.values)
  }
}
