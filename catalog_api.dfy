/** The query logic of the catalog API: the filter chain and paging of `GET /stamps`, the
    resolution of `GET /stamps/{stamp_id}` to a stamp with its group of variants, the title
    search of `GET /stamp_titles` and the listings of issue years, colors and printed values.
    The table is a sequence of rows; the French or English column of a localized field is
    chosen from the `Accept-Language` header. */
module CatalogApi {
  import opened PyStr
  import opened Seqs
  import opened Outcomes
  import opened StampIds
  import opened CatalogRecords
  import opened AcceptLanguage
  import opened Wildcard

  /** The query parameters of `GET /stamps` and its `Accept-Language` header. */
  datatype StampsQuery = StampsQuery(
    title: Option<string>, issued: Option<string>, color: Option<string>,
    value: Option<string>, stampType: Option<string>,
    start: Option<int>, count: Option<int>, acceptLanguage: Option<string>)

  /** The localized columns: `title_fr`/`title_en`, `color_fr`/`color_en`,
      `value_fr`/`value_en`. */
  function TitleOf(french: bool, s: DbStamp): string
  {
    if french then s.titleFr else s.titleEn
  }

  function ColorOf(french: bool, s: DbStamp): string
  {
    if french then s.colorFr else s.colorEn
  }

  function ValueOf(french: bool, s: DbStamp): string
  {
    if french then s.valueFr else s.valueEn
  }

  /** The masks of the filter chain: equality for `title` and `value`, membership in the
      comma-split list for `issued`, `color` and `stamp-type`. */
  function TitleTest(french: bool, title: string): DbStamp -> bool
  {
    s => TitleOf(french, s) == title
  }

  function IssuedTest(years: seq<string>): DbStamp -> bool
  {
    (s: DbStamp) => s.issued in years
  }

  function ColorTest(french: bool, colors: seq<string>): DbStamp -> bool
  {
    s => ColorOf(french, s) in colors
  }

  function ValueTest(french: bool, value: string): DbStamp -> bool
  {
    s => ValueOf(french, s) == value
  }

  function TypeTest(types: seq<string>): DbStamp -> bool
  {
    (s: DbStamp) => s.typeFr in types
  }

  /** The successive filters of `get_stamps`, each applied only when its parameter is given. */
  function Filtered(db: seq<DbStamp>, q: StampsQuery, french: bool): seq<DbStamp>
  {
    var stamps := if q.title.Some? then Filter(db, TitleTest(french, q.title.value)) else db;
    var stamps := if q.issued.Some? then Filter(stamps, IssuedTest(Split(q.issued.value, ','))) else stamps;
    var stamps := if q.color.Some? then Filter(stamps, ColorTest(french, Split(q.color.value, ','))) else stamps;
    var stamps := if q.value.Some? then Filter(stamps, ValueTest(french, q.value.value)) else stamps;
    if q.stampType.Some? then Filter(stamps, TypeTest(Split(q.stampType.value, ','))) else stamps
  }

  /** A row the query selects: it passes the test of every parameter that is given. */
  predicate Selects(q: StampsQuery, french: bool, s: DbStamp)
  {
    && (q.title.Some? ==> TitleOf(french, s) == q.title.value)
    && (q.issued.Some? ==> s.issued in Split(q.issued.value, ','))
    && (q.color.Some? ==> ColorOf(french, s) in Split(q.color.value, ','))
    && (q.value.Some? ==> ValueOf(french, s) == q.value.value)
    && (q.stampType.Some? ==> s.typeFr in Split(q.stampType.value, ','))
  }

  function SelectTest(q: StampsQuery, french: bool): DbStamp -> bool
  {
    s => Selects(q, french, s)
  }

  /** The tests of the first `n` filters of the chain, each one only when its parameter is
      given. */
  predicate SelectsUpTo(q: StampsQuery, french: bool, n: nat, s: DbStamp)
  {
    && (n >= 1 && q.title.Some? ==> TitleOf(french, s) == q.title.value)
    && (n >= 2 && q.issued.Some? ==> s.issued in Split(q.issued.value, ','))
    && (n >= 3 && q.color.Some? ==> ColorOf(french, s) in Split(q.color.value, ','))
    && (n >= 4 && q.value.Some? ==> ValueOf(french, s) == q.value.value)
    && (n >= 5 && q.stampType.Some? ==> s.typeFr in Split(q.stampType.value, ','))
  }

  function UpToTest(q: StampsQuery, french: bool, n: nat): DbStamp -> bool
  {
    s => SelectsUpTo(q, french, n, s)
  }

  /** Whether the `n`-th filter of the chain runs: its parameter is given. */
  predicate On(q: StampsQuery, n: nat)
  {
    || (n == 1 && q.title.Some?)
    || (n == 2 && q.issued.Some?)
    || (n == 3 && q.color.Some?)
    || (n == 4 && q.value.Some?)
    || (n == 5 && q.stampType.Some?)
  }

  /** The mask of the `n`-th filter of the chain (the always-true test when it does not run). */
  function StepTest(q: StampsQuery, french: bool, n: nat): DbStamp -> bool
  {
    if n == 1 && q.title.Some? then TitleTest(french, q.title.value)
    else if n == 2 && q.issued.Some? then IssuedTest(Split(q.issued.value, ','))
    else if n == 3 && q.color.Some? then ColorTest(french, Split(q.color.value, ','))
    else if n == 4 && q.value.Some? then ValueTest(french, q.value.value)
    else if n == 5 && q.stampType.Some? then TypeTest(Split(q.stampType.value, ','))
    else UpToTest(q, french, 0)
  }

  /** The first `n` filters of the chain, one after the other. */
  function Chain(db: seq<DbStamp>, q: StampsQuery, french: bool, n: nat): seq<DbStamp>
  {
    if n == 0 then db
    else
      var stamps := Chain(db, q, french, n - 1);
      if On(q, n) then Filter(stamps, StepTest(q, french, n)) else stamps
  }

  /** Each filter of the chain adds its test, when it runs, to the tests before it; all five
      together are the query's test. */
  lemma UpToSteps(q: StampsQuery, french: bool, n: nat)
    requires 1 <= n <= 5
    ensures forall x ::
      UpToTest(q, french, n)(x) ==
      (UpToTest(q, french, n - 1)(x) && (On(q, n) ==> StepTest(q, french, n)(x)))
    ensures n == 5 ==> forall x :: UpToTest(q, french, n)(x) == SelectTest(q, french)(x)
  {
  }

  /** The first `n` filters keep the rows that pass the first `n` tests, in table order. */
  lemma {:induction false} ChainSelects(db: seq<DbStamp>, q: StampsQuery, french: bool, n: nat)
    requires n <= 5
    ensures Chain(db, q, french, n) == Filter(db, UpToTest(q, french, n))
  {
    if n == 0 {
      FilterAll(db, UpToTest(q, french, 0));
    } else {
      var before := Chain(db, q, french, n - 1);
      ChainSelects(db, q, french, n - 1);
      assert Chain(db, q, french, n) ==
        if On(q, n) then Filter(before, StepTest(q, french, n)) else before;
      UpToSteps(q, french, n);
      FilterStep(db, UpToTest(q, french, n - 1), On(q, n), StepTest(q, french, n),
        UpToTest(q, french, n));
    }
  }

  /** The filter chain keeps exactly the rows the query selects, in the order of the table:
      absent filters change nothing and present ones are combined with `and`. */
  lemma FilteredSelects(db: seq<DbStamp>, q: StampsQuery, french: bool)
    ensures Filtered(db, q, french) == Filter(db, SelectTest(q, french))
  {
    ChainSelects(db, q, french, 5);
    assert Chain(db, q, french, 0) == db;
    assert On(q, 1) == q.title.Some? && On(q, 2) == q.issued.Some? && On(q, 3) == q.color.Some?;
    assert On(q, 4) == q.value.Some? && On(q, 5) == q.stampType.Some?;
    var s1 := Chain(db, q, french, 1);
    assert s1 == if q.title.Some? then Filter(db, TitleTest(french, q.title.value)) else db;
    var s2 := Chain(db, q, french, 2);
    assert s2 == if q.issued.Some? then Filter(s1, IssuedTest(Split(q.issued.value, ','))) else s1;
    var s3 := Chain(db, q, french, 3);
    assert s3 == if q.color.Some? then Filter(s2, ColorTest(french, Split(q.color.value, ','))) else s2;
    var s4 := Chain(db, q, french, 4);
    assert s4 == if q.value.Some? then Filter(s3, ValueTest(french, q.value.value)) else s3;
    assert Chain(db, q, french, 5) ==
      if q.stampType.Some? then Filter(s4, TypeTest(Split(q.stampType.value, ','))) else s4;
    assert Filtered(db, q, french) == Chain(db, q, french, 5);
    UpToSteps(q, french, 5);
    FilterExt(db, UpToTest(q, french, 5), SelectTest(q, french));
  }

  /** Filtering the result of a query again by the same query changes nothing. */
  lemma FilteredIdempotent(db: seq<DbStamp>, q: StampsQuery, french: bool)
    ensures Filtered(Filtered(db, q, french), q, french) == Filtered(db, q, french)
  {
    FilteredSelects(db, q, french);
    FilteredSelects(Filtered(db, q, french), q, french);
    FilterIdempotent(db, SelectTest(q, french));
  }

  /** The rows `get_stamps` answers with: the filtered rows, cut to
      `[start - 1 : start - 1 + count]` when `count` is given (`start` defaulting to 1). */
  function Selected(db: seq<DbStamp>, q: StampsQuery, french: bool): seq<DbStamp>
  {
    var stamps := Filtered(db, q, french);
    var i := if q.start.Some? then q.start.value - 1 else 0;
    if q.count.Some? then Slice(stamps, i, i + q.count.value) else stamps
  }

  /** A row as the API answers it: its dictionary after `convert_db_stamp_to_api_stamp`. */
  function ApiStamp(s: DbStamp): Dict
  {
    ApiDictOfRow(s);
    ApiDict(RowDict(s))
  }

  function ApiStamps(rows: seq<DbStamp>): seq<Dict>
  {
    Column(rows, ApiStamp)
  }

  /** Converting one more row appends its dictionary. */
  lemma ApiStampsAppend(rows: seq<DbStamp>, k: nat)
    requires k < |rows|
    ensures ApiStamps(rows[..k + 1]) == ApiStamps(rows[..k]) + [ApiStamp(rows[k])]
  {
    ColumnAppend(rows, ApiStamp, k);
  }

  /** `GET /stamps`: `start` is checked first and `count` second, each answered with a 400
      whose body is `null` (the message the handler writes to `response.body` of the injected
      response is not sent); then the selected rows are converted, and `count` in the body is
      the number of stamps returned. */
  function StampsResource(db: seq<DbStamp>, q: StampsQuery): Outcome<ValuesList<Dict>>
    requires HeaderParses(q.acceptLanguage)
  {
    var french := FrenchLocale(q.acceptLanguage);
    if q.start.Some? && q.start.value <= 0 then BadRequest(None)
    else if q.count.Some? && q.count.value <= 0 then BadRequest(None)
    else
      var rows := Selected(db, q, french);
      Ok(ValuesList(|rows|, ApiStamps(rows)))
  }

  /** `get_stamps`: reads the language, validates `start` and `count`, reassigns `stamps`
      through the filters and the slice, then converts each record dictionary in place. */
  method GetStamps(db: seq<DbStamp>, q: StampsQuery) returns (r: Outcome<ValuesList<Dict>>)
    requires HeaderParses(q.acceptLanguage)
    ensures r == StampsResource(db, q)
  {
    var french := RequestLocale(q.acceptLanguage);
    if q.start.Some? && q.start.value <= 0 {
      return BadRequest(None);
    }
    if q.count.Some? && q.count.value <= 0 {
      return BadRequest(None);
    }
    var stamps := SelectStamps(db, q, french);
    var apistamps := ConvertRecords(stamps);
    return Ok(ValuesList(|apistamps|, apistamps));
  }

  /** The language step of `get_stamps`: the parsed header's first tag, tested for `fr`. */
  method RequestLocale(acceptLanguage: Option<string>) returns (french: bool)
    requires HeaderParses(acceptLanguage)
    ensures french == FrenchLocale(acceptLanguage)
  {
    var parsed := ParsedAcceptLanguage(acceptLanguage);
    var language := FirstTag(parsed);
    french := IsFrench(language);
  }

  /** The filters of `get_stamps`, then the slice when `count` is given. */
  method SelectStamps(db: seq<DbStamp>, q: StampsQuery, french: bool) returns (stamps: seq<DbStamp>)
    ensures stamps == Selected(db, q, french)
  {
    stamps := FilterStamps(db, q, french);
    var i := if q.start.Some? then q.start.value - 1 else 0;
    if q.count.Some? {
      stamps := Slice(stamps, i, i + q.count.value);
    }
  }

  /** The filter chain of `get_stamps`: `stamps` starts as the whole table and is reassigned
      to the rows passing each mask whose parameter is given. */
  method FilterStamps(db: seq<DbStamp>, q: StampsQuery, french: bool) returns (stamps: seq<DbStamp>)
    ensures stamps == Filtered(db, q, french)
  {
    stamps := db;
    if q.title.Some? {
      stamps := Filter(stamps, TitleTest(french, q.title.value));
    }
    if q.issued.Some? {
      var issuedYears := Split(q.issued.value, ',');
      stamps := Filter(stamps, IssuedTest(issuedYears));
    }
    if q.color.Some? {
      var colors := Split(q.color.value, ',');
      stamps := Filter(stamps, ColorTest(french, colors));
    }
    if q.value.Some? {
      stamps := Filter(stamps, ValueTest(french, q.value.value));
    }
    if q.stampType.Some? {
      var types := Split(q.stampType.value, ',');
      stamps := Filter(stamps, TypeTest(types));
    }
  }

  /** `stamps.to_dict(orient='records')` followed by `convert_db_stamp_to_api_stamp` on each
      record dictionary, in order. */
  method ConvertRecords(stamps: seq<DbStamp>) returns (apistamps: seq<Dict>)
    ensures apistamps == ApiStamps(stamps)
  {
    apistamps := [];
    for k := 0 to |stamps|
      invariant apistamps == ApiStamps(stamps[..k])
    {
      var d := new StampDict(RowDict(stamps[k]));
      ApiDictOfRow(stamps[k]);
      d.ConvertDbStampToApiStamp();
      assert d.cells == ApiStamp(stamps[k]);
      ApiStampsAppend(stamps, k);
      apistamps := apistamps + [d.cells];
    }
    assert stamps[..|stamps|] == stamps;
  }

  /** `start <= 0` is rejected whatever `count` is, `count <= 0` is rejected next, both with a
      `null` body, and valid parameters always give an answer whose `count` is its number of
      stamps. */
  lemma StampsValidation(db: seq<DbStamp>, q: StampsQuery)
    requires HeaderParses(q.acceptLanguage)
    ensures q.start.Some? && q.start.value <= 0 ==> StampsResource(db, q) == BadRequest(None)
    ensures (q.start.None? || q.start.value >= 1) && q.count.Some? && q.count.value <= 0 ==>
      StampsResource(db, q) == BadRequest(None)
    ensures StampsResource(db, q).BadRequest? <==>
      (q.start.Some? && q.start.value <= 0) || (q.count.Some? && q.count.value <= 0)
    ensures StampsResource(db, q).Ok? <==>
      (q.start.None? || q.start.value >= 1) && (q.count.None? || q.count.value >= 1)
    ensures StampsResource(db, q).Ok? ==>
      StampsResource(db, q).value.count == |StampsResource(db, q).value.values|
  {
  }

  /** Without `count` the selection is every filtered row, in table order, and `start` has no
      effect. With `count` it is the run of at most `count` filtered rows that begins at
      position `start` (1-based), cut short by the end. */
  lemma SelectedRows(db: seq<DbStamp>, q: StampsQuery, french: bool)
    requires q.start.None? || q.start.value >= 1
    requires q.count.None? || q.count.value >= 1
    ensures var rows := Filtered(db, q, french);
      var sel := Selected(db, q, french);
      var i := if q.start.Some? then q.start.value - 1 else 0;
      && (q.count.None? ==> sel == rows)
      && (q.count.Some? ==>
            && |sel| == (if |rows| <= i then 0
                         else if i + q.count.value <= |rows| then q.count.value
                         else |rows| - i)
            && forall k :: 0 <= k < |sel| ==> sel[k] == rows[i + k])
  {
    var rows := Filtered(db, q, french);
    var i := if q.start.Some? then q.start.value - 1 else 0;
    if q.count.Some? {
      assert Selected(db, q, french) == Slice(rows, i, i + q.count.value);
      SliceFrom(rows, i, i + q.count.value);
    }
  }

  /** With valid parameters the answer is the selection of `SelectedRows`, each row converted,
      and its `count` is the number of stamps in it. */
  lemma StampsPage(db: seq<DbStamp>, q: StampsQuery)
    requires HeaderParses(q.acceptLanguage)
    requires q.start.None? || q.start.value >= 1
    requires q.count.None? || q.count.value >= 1
    ensures var sel := Selected(db, q, FrenchLocale(q.acceptLanguage));
      && StampsResource(db, q).Ok?
      && StampsResource(db, q).value.count == |sel|
      && |StampsResource(db, q).value.values| == |sel|
      && forall k :: 0 <= k < |sel| ==> StampsResource(db, q).value.values[k] == ApiStamp(sel[k])
  {
  }

  /** Without `count`, a valid `start` is ignored: the answer is the one without `start`. */
  lemma StartIgnoredWithoutCount(db: seq<DbStamp>, q: StampsQuery)
    requires HeaderParses(q.acceptLanguage)
    requires q.count.None? && q.start.Some? && q.start.value >= 1
    ensures StampsResource(db, q) == StampsResource(db, q.(start := None))
  {
  }

  /** Every stamp of an answer has exactly the fields of the API's `Stamp` model, its `id` is
      the key of a selected row and its other fields are that row's columns. */
  lemma StampsAreApiStamps(db: seq<DbStamp>, q: StampsQuery, k: nat)
    requires HeaderParses(q.acceptLanguage)
    requires StampsResource(db, q).Ok? && k < |StampsResource(db, q).value.values|
    ensures var d := StampsResource(db, q).value.values[k];
      && d.Keys == StampFields
      && exists s :: s in db && Selects(q, FrenchLocale(q.acceptLanguage), s) && d == ApiStamp(s)
  {
    var french := FrenchLocale(q.acceptLanguage);
    var sel := Selected(db, q, french);
    StampsPage(db, q);
    SelectedRows(db, q, french);
    var s := sel[k];
    assert s in Filtered(db, q, french);
    FilteredSelects(db, q, french);
    ApiDictOfRow(s);
  }

  /** The group of a stamp: the variant codes of the rows with its type and number. */
  function VariantCodes(db: seq<DbStamp>, t: string, n: string): set<string>
  {
    set s | s in db && s.typeFr == t && s.idYtNo == n :: s.idYtVar
  }

  /** The row of the group with variant code `v`. */
  function Sibling(db: seq<DbStamp>, t: string, n: string, v: string): (s: DbStamp)
    requires v in VariantCodes(db, t, n)
    ensures s in db && Key(s) == StampId(t, n, v)
  {
    var w :| w in db && w.typeFr == t && w.idYtNo == n && w.idYtVar == v;
    assert Key(w) == StampId(t, n, v);
    Lookup(db, StampId(t, n, v)).value
  }

  /** `indexed_db.loc[(t, n)].to_dict('index')`: each variant code of the group mapped to its
      row's columns (the key columns are the index, not columns). */
  function VariantsMap(db: seq<DbStamp>, t: string, n: string): map<string, Dict>
  {
    map v | v in VariantCodes(db, t, n) :: IndexedRowDict(Sibling(db, t, n, v))
  }

  /** The id the loop of `get_stamp` gives the variant with code `v` (`" "` stands for the
      base stamp). */
  function VariantId(t: string, n: string, v: string): StampId
  {
    StampId(t, n, if v == " " then "" else v)
  }

  /** The variants map once each entry has its `id`. */
  function WithVariantIds(variants: map<string, Dict>, t: string, n: string): map<string, Dict>
  {
    map v | v in variants :: variants[v][Id := IdCell(VariantId(t, n, v))]
  }

  /** The `variants` field of a stamp of the group `(t, n)`: `None` for a group of one, the
      map with every entry's `id` otherwise. */
  function GroupCell(db: seq<DbStamp>, t: string, n: string): Cell
  {
    var variants := VariantsMap(db, t, n);
    if |variants| == 1 then NoneCell else VariantsCell(WithVariantIds(variants, t, n))
  }

  /** `GET /stamps/{stamp_id}`: not found for an id that does not split into 2 or 3 parts or
      whose key is not in the table; otherwise the row with the parsed `id`, the `url` built
      from the id as given, and `variants`: `None` for a group of one, else the group map. */
  function StampResource(db: seq<DbStamp>, stampId: string): Outcome<Dict>
  {
    match ParseStampId(stampId)
    case None => NotFound
    case Some(k) =>
      match Lookup(db, k)
      case None => NotFound
      case Some(s) => Ok(ResolvedDict(s, k, stampId, GroupCell(db, k.stampType, k.ytNo)))
  }

  /** The answer for the row `s` found under the id `stampId` with key `k`. */
  function ResolvedDict(s: DbStamp, k: StampId, stampId: string, variants: Cell): Dict
  {
    IndexedRowDict(s)[Id := IdCell(k)][Url := Text("stamps/" + stampId)][Variants := variants]
  }

  /** The answer has the fields of the `StampWithVariants` model: the key as `id`, the `url`
      built from the id as given, the `variants` cell, and the row's other columns. */
  lemma ResolvedDictFields(s: DbStamp, k: StampId, stampId: string, variants: Cell)
    ensures var d := ResolvedDict(s, k, stampId, variants);
      && d.Keys == StampFields + {Variants}
      && d[Id] == IdCell(k)
      && d[Url] == Text("stamps/" + stampId)
      && d[Variants] == variants
      && forall f :: f in StampFields && f != Id && f != Url ==> d[f] == RowDict(s)[f]
  {
    IndexedRowKeys(s);
  }

  /** `get_stamp`: splits the id, looks the stamp up, sets `id` and `url`, and when the group
      has more than one member gives every variant entry its `id` in a loop. */
  method GetStamp(db: seq<DbStamp>, stampId: string) returns (r: Outcome<Dict>)
    ensures r == StampResource(db, stampId)
  {
    var items := Split(stampId, '-');
    if |items| < 2 || |items| > 3 {
      return NotFound;
    }
    var ytType, ytNo, ytVariant;
    if |items| == 2 {
      ytType, ytNo := items[0], items[1];
      ytVariant := "";
    } else {
      ytType, ytNo, ytVariant := items[0], items[1], items[2];
    }
    var stamp := Lookup(db, StampId(ytType, ytNo, ytVariant));
    if stamp.None? {
      return NotFound;
    }
    var d := IndexedRowDict(stamp.value);
    d := d[Id := IdCell(StampId(ytType, ytNo, ytVariant))];
    d := d[Url := Text("stamps/" + stampId)];
    var variants := VariantsMap(db, ytType, ytNo);
    if |variants| == 1 {
      d := d[Variants := NoneCell];
    } else {
      variants := AddVariantIds(variants, ytType, ytNo);
      d := d[Variants := VariantsCell(variants)];
    }
    return Ok(d);
  }

  /** The loop of `get_stamp` over `variants.items()`: each entry gets the id of its code. */
  method AddVariantIds(variants: map<string, Dict>, ytType: string, ytNo: string)
    returns (updated: map<string, Dict>)
    ensures updated == WithVariantIds(variants, ytType, ytNo)
  {
    updated := variants;
    var pending := variants.Keys;
    while pending != {}
      invariant pending <= variants.Keys && updated.Keys == variants.Keys
      invariant forall v :: v in pending ==> updated[v] == variants[v]
      invariant forall v :: v in variants && v !in pending ==>
        updated[v] == variants[v][Id := IdCell(VariantId(ytType, ytNo, v))]
      decreases pending
    {
      var v :| v in pending;
      if v == " " {
        updated := updated[v := updated[v][Id := IdCell(StampId(ytType, ytNo, ""))]];
      } else {
        updated := updated[v := updated[v][Id := IdCell(StampId(ytType, ytNo, v))]];
      }
      pending := pending - {v};
    }
  }

  /** An id is not found exactly when it does not split into 2 or 3 parts or no row has the
      key it spells. */
  lemma StampNotFound(db: seq<DbStamp>, stampId: string)
    ensures StampResource(db, stampId).NotFound? <==>
      || ParseStampId(stampId).None?
      || !(exists s :: s in db && Key(s) == ParseStampId(stampId).value)
  {
  }

  /** A resolved stamp has the fields of the `StampWithVariants` model: its `id` is the parsed
      key, its `url` is built from the id as given, and its other fields are the row's. */
  lemma StampFound(db: seq<DbStamp>, stampId: string)
    requires StampResource(db, stampId).Ok?
    ensures var k := ParseStampId(stampId).value;
      var d := StampResource(db, stampId).value;
      && Lookup(db, k).Some?
      && d.Keys == StampFields + {Variants}
      && d[Id] == IdCell(k)
      && d[Url] == Text("stamps/" + stampId)
      && forall f :: f in StampFields && f != Id && f != Url ==> d[f] == RowDict(Lookup(db, k).value)[f]
  {
    var k := ParseStampId(stampId).value;
    ResolvedDictFields(Lookup(db, k).value, k, stampId, GroupCell(db, k.stampType, k.ytNo));
  }

  /** Resolving the id in a row's `url` gives that row back, with the row's key as `id` and
      its own `url`, when the table is a valid store and no part of the key holds a `-`. */
  lemma ResolveUrl(db: seq<DbStamp>, i: nat)
    requires ValidStore(db) && i < |db| && SeparatorFree(Key(db[i]))
    ensures db[i].url == "stamps/" + EncodeId(Key(db[i]))
    ensures var d := StampResource(db, EncodeId(Key(db[i])));
      && d.Ok?
      && d.value.Keys == StampFields + {Variants}
      && d.value[Id] == IdCell(Key(db[i]))
      && forall f :: f in StampFields && f != Id ==> d.value[f] == RowDict(db[i])[f]
  {
    var k := Key(db[i]);
    DecodeEncode(k);
    LookupUnique(db, i);
    StampFound(db, EncodeId(k));
  }

  /** The group of a resolved stamp holds the stamp itself, and `variants` is `None` exactly
      when the group has one member; otherwise it maps every code of the group, and only
      those, to the sibling's columns with the sibling's `id`. */
  lemma StampVariants(db: seq<DbStamp>, stampId: string)
    requires StampResource(db, stampId).Ok?
    ensures var k := ParseStampId(stampId).value;
      var codes := VariantCodes(db, k.stampType, k.ytNo);
      var cell := StampResource(db, stampId).value[Variants];
      && k.ytVariant in codes
      && (cell == NoneCell <==> |codes| == 1)
      && (cell != NoneCell ==>
            && cell.VariantsCell?
            && cell.variants.Keys == codes
            && forall v :: v in codes ==>
                 && cell.variants[v][Id] == IdCell(VariantId(k.stampType, k.ytNo, v))
                 && cell.variants[v] - {Id} == IndexedRowDict(Sibling(db, k.stampType, k.ytNo, v)))
  {
    var k := ParseStampId(stampId).value;
    var s := Lookup(db, k).value;
    assert s in db && s.typeFr == k.stampType && s.idYtNo == k.ytNo;
    assert k.ytVariant in VariantCodes(db, k.stampType, k.ytNo);
    ResolvedDictFields(s, k, stampId, GroupCell(db, k.stampType, k.ytNo));
    GroupCellCases(db, k.stampType, k.ytNo);
  }

  /** The `variants` cell of a group is `None` exactly for a group of one; otherwise it maps
      every code of the group, and only those, to the sibling's columns with its `id`. */
  lemma GroupCellCases(db: seq<DbStamp>, t: string, n: string)
    ensures var codes := VariantCodes(db, t, n);
      var cell := GroupCell(db, t, n);
      && (cell == NoneCell <==> |codes| == 1)
      && (cell != NoneCell ==>
            && cell.VariantsCell?
            && cell.variants.Keys == codes
            && forall v :: v in codes ==>
                 && cell.variants[v][Id] == IdCell(VariantId(t, n, v))
                 && cell.variants[v] - {Id} == IndexedRowDict(Sibling(db, t, n, v)))
  {
    var codes := VariantCodes(db, t, n);
    var variants := VariantsMap(db, t, n);
    assert variants.Keys == codes;
    forall v | v in codes
      ensures variants[v][Id := IdCell(VariantId(t, n, v))] - {Id} == variants[v]
    {
      IndexedRowKeys(Sibling(db, t, n, v));
      UpdateThenRemove(variants[v], Id, IdCell(VariantId(t, n, v)));
    }
  }

  /** Two ids of the same type and number that both resolve carry the same `variants`: the
      base stamp and each of its variants show the whole group. */
  lemma SiblingsShareVariants(db: seq<DbStamp>, id1: string, id2: string)
    requires StampResource(db, id1).Ok? && StampResource(db, id2).Ok?
    requires ParseStampId(id1).value.stampType == ParseStampId(id2).value.stampType
    requires ParseStampId(id1).value.ytNo == ParseStampId(id2).value.ytNo
    ensures StampResource(db, id1).value[Variants] == StampResource(db, id2).value[Variants]
  {
  }

  /** A localized column of the table, or the `issued` column. */
  function TitleColumn(db: seq<DbStamp>, french: bool): seq<string>
  {
    Column(db, (s: DbStamp) => TitleOf(french, s))
  }

  function ColorColumn(db: seq<DbStamp>, french: bool): seq<string>
  {
    Column(db, (s: DbStamp) => ColorOf(french, s))
  }

  function ValueColumn(db: seq<DbStamp>, french: bool): seq<string>
  {
    Column(db, (s: DbStamp) => ValueOf(french, s))
  }

  function IssuedColumn(db: seq<DbStamp>): seq<string>
  {
    Column(db, (s: DbStamp) => s.issued)
  }

  /** `GET /stamp_titles` (`start` and `count` are accepted and not used): without a query or
      for `*`, every title of the localized column once, sorted; for more than one `*`, the
      error; otherwise the distinct matching titles in order of first occurrence. */
  function StampTitles(db: seq<DbStamp>, q: Option<string>, acceptLanguage: Option<string>)
    : (r: Outcome<ValuesList<string>>)
    requires HeaderParses(acceptLanguage)
    requires q != Some("")
    ensures var titles := TitleColumn(db, FrenchLocale(acceptLanguage));
      && (q.None? || q == Some("*") ==>
            && r.Ok? && r.value.count == |r.value.values|
            && Sorted(r.value.values, StrLe) && NoDup(r.value.values)
            && forall x :: x in r.value.values <==> x in titles)
      && (q.Some? && multiset(q.value)['*'] > 1 ==> r == BadRequest(Some(MultipleStarsMessage)))
      && (q.Some? && SingleStarQuery(q.value) ==>
            && r.Ok? && r.value.count == |r.value.values|
            && r.value.values == Unique(Filter(titles, MatchTest(q.value)))
            && NoDup(r.value.values)
            && forall x :: x in r.value.values <==> x in titles && Matches(q.value, x))
  {
    var titles := TitleColumn(db, FrenchLocale(acceptLanguage));
    if q.None? || q.value == "*" then
      StrLeTotalOrder();
      Ok(Listing(titles, StrLe))
    else if multiset(q.value)['*'] > 1 then BadRequest(Some(MultipleStarsMessage))
    else
      PatternFilterMatches(q.value, titles);
      var found := Unique(PatternFilter(q.value, titles));
      Ok(ValuesList(|found|, found))
  }

  /** `GET /stamp_years`: every `issued` value once, in ascending code-point order. */
  function StampYears(db: seq<DbStamp>): (r: ValuesList<string>)
    ensures r.count == |r.values| && Sorted(r.values, StrLe) && NoDup(r.values)
    ensures forall x :: x in r.values <==> exists s :: s in db && s.issued == x
  {
    StrLeTotalOrder();
    ColumnMembers(db, (s: DbStamp) => s.issued);
    Listing(IssuedColumn(db), StrLe)
  }

  /** `GET /stamp_colors`: every color of the localized column once, sorted. */
  function StampColors(db: seq<DbStamp>, acceptLanguage: Option<string>): (r: ValuesList<string>)
    requires HeaderParses(acceptLanguage)
    ensures r.count == |r.values| && Sorted(r.values, StrLe) && NoDup(r.values)
    ensures forall x :: x in r.values <==>
      exists s :: s in db && ColorOf(FrenchLocale(acceptLanguage), s) == x
  {
    StrLeTotalOrder();
    var french := FrenchLocale(acceptLanguage);
    ColumnMembers(db, (s: DbStamp) => ColorOf(french, s));
    Listing(ColorColumn(db, french), StrLe)
  }

  /** `GET /stamp_values`: every printed value of the localized column once, sorted. */
  function StampValues(db: seq<DbStamp>, acceptLanguage: Option<string>): (r: ValuesList<string>)
    requires HeaderParses(acceptLanguage)
    ensures r.count == |r.values| && Sorted(r.values, StrLe) && NoDup(r.values)
    ensures forall x :: x in r.values <==>
      exists s :: s in db && ValueOf(FrenchLocale(acceptLanguage), s) == x
  {
    StrLeTotalOrder();
    var french := FrenchLocale(acceptLanguage);
    ColumnMembers(db, (s: DbStamp) => ValueOf(french, s));
    Listing(ValueColumn(db, french), StrLe)
  }
}
