/** The record store of the catalog API: the rows of the stamp table (one fixed set of string
    columns, with the `url` column added at startup), the dictionaries the API answers with,
    and `convert_db_stamp_to_api_stamp`, which reshapes a row dictionary in place. */
module CatalogRecords {
  import opened Outcomes
  import opened StampIds

  /** One row of the stamp table: the CSV columns (every missing value read as `""`) and the
      `url` column computed at startup. */
  datatype DbStamp = DbStamp(
    typeFr: string, idYtNo: string, idYtVar: string,
    colorEn: string, colorFr: string, descriptionFr: string, image: string, issued: string,
    perforatedDimensions: string, titleEn: string, titleFr: string, valueEn: string,
    valueFr: string, years: string, url: string)

  /** The index key of a row: `(type_fr, id_yt_no, id_yt_var)`. */
  function Key(s: DbStamp): StampId
  {
    StampId(s.typeFr, s.idYtNo, s.idYtVar)
  }

  /** The startup step that fills the `url` column from each row's key. */
  function AddUrlColumn(rows: seq<DbStamp>): seq<DbStamp>
  {
    seq(|rows|, i requires 0 <= i < |rows| => rows[i].(url := StampUrl(Key(rows[i]))))
  }

  /** After startup every row keeps its CSV columns, and its `url` leads back to its key
      whenever no part of the key holds a `-`. */
  lemma UrlColumnDecodes(rows: seq<DbStamp>, i: nat)
    requires i < |rows|
    ensures |AddUrlColumn(rows)| == |rows|
    ensures AddUrlColumn(rows)[i].(url := rows[i].url) == rows[i]
    ensures SeparatorFree(Key(rows[i])) ==>
      ParseStampId(AddUrlColumn(rows)[i].url[7..]) == Some(Key(rows[i]))
  {
    if SeparatorFree(Key(rows[i])) {
      UrlDecodes(Key(rows[i]));
    }
  }

  /** No two rows share a key (the index is unique). */
  predicate UniqueKeys(db: seq<DbStamp>)
  {
    forall i, j :: 0 <= i < |db| && 0 <= j < |db| && Key(db[i]) == Key(db[j]) ==> i == j
  }

  /** The store the services start with: unique keys and the `url` column filled in. */
  predicate ValidStore(db: seq<DbStamp>)
  {
    && UniqueKeys(db)
    && forall i :: 0 <= i < |db| ==> db[i].url == StampUrl(Key(db[i]))
  }

  /** `indexed_db.loc[k]` on the full key: the row with key `k`, if there is one (the first
      such row; with unique keys it is the only one). */
  function Lookup(db: seq<DbStamp>, k: StampId): (r: Option<DbStamp>)
    ensures r.Some? <==> exists s :: s in db && Key(s) == k
    ensures r.Some? ==> r.value in db && Key(r.value) == k
  {
    if db == [] then None
    else if Key(db[0]) == k then Some(db[0])
    else
      assert forall s :: s in db[1..] ==> s in db;
      assert forall s :: s in db && s != db[0] ==> s in db[1..];
      Lookup(db[1..], k)
  }

  /** With unique keys, looking up a row's key finds that row. */
  lemma {:induction false} LookupUnique(db: seq<DbStamp>, i: nat)
    requires UniqueKeys(db) && i < |db|
    ensures Lookup(db, Key(db[i])) == Some(db[i])
  {
    if i > 0 {
      assert Key(db[0]) != Key(db[i]);
      assert UniqueKeys(db[1..]) by {
        forall a, b | 0 <= a < |db[1..]| && 0 <= b < |db[1..]| && Key(db[1..][a]) == Key(db[1..][b])
          ensures a == b
        {
          assert db[1..][a] == db[a + 1] && db[1..][b] == db[b + 1];
        }
      }
      LookupUnique(db[1..], i - 1);
    }
  }

  /** A value in an API dictionary: a column's text, the nested `id` dictionary, Python's
      `None`, or the nested `variants` dictionary. */
  datatype Cell =
    | Text(text: string)
    | IdCell(id: StampId)
    | NoneCell
    | VariantsCell(variants: map<string, map<Field, Cell>>)

  /** The keys of the API dictionaries: the table's columns, and the `id` and `variants`
      fields the handlers add. */
  datatype Field =
    | TypeFr | IdYtNo | IdYtVar | ColorEn | ColorFr | DescriptionFr | Image | Issued
    | PerforatedDimensions | TitleEn | TitleFr | ValueEn | ValueFr | Years | Url | Id | Variants

  /** The Python key of each field. */
  function Name(f: Field): string
  {
    match f
    case TypeFr => "type_fr"
    case IdYtNo => "id_yt_no"
    case IdYtVar => "id_yt_var"
    case ColorEn => "color_en"
    case ColorFr => "color_fr"
    case DescriptionFr => "description_fr"
    case Image => "image"
    case Issued => "issued"
    case PerforatedDimensions => "perforated_dimensions"
    case TitleEn => "title_en"
    case TitleFr => "title_fr"
    case ValueEn => "value_en"
    case ValueFr => "value_fr"
    case Years => "years"
    case Url => "url"
    case Id => "id"
    case Variants => "variants"
  }

  /** Distinct fields have distinct Python keys. */
  lemma NameInjective(f: Field, g: Field)
    ensures Name(f) == Name(g) ==> f == g
  {
    assert Name(f) == Name(g) ==> |Name(f)| == |Name(g)| && Name(f)[0] == Name(g)[0];
  }

  /** A Python dictionary with string keys, as the handlers build and change them; its keys are
      given by their `Field`, which loses nothing because `Name` is injective
      (`NameInjective`). */
  type Dict = map<Field, Cell>

  /** The columns that form the index of the indexed table. */
  const IndexColumns: set<Field> := {TypeFr, IdYtNo, IdYtVar}

  /** The field names of the API's `Stamp` model. */
  const StampFields: set<Field> :=
    {ColorEn, ColorFr, DescriptionFr, Id, Url, Image, Issued,
     PerforatedDimensions, TitleEn, TitleFr, ValueEn, ValueFr, Years}

  /** `to_dict` of a row of the unindexed table: every column by name. */
  function RowDict(s: DbStamp): Dict
  {
    map[
      TypeFr := Text(s.typeFr), IdYtNo := Text(s.idYtNo), IdYtVar := Text(s.idYtVar),
      ColorEn := Text(s.colorEn), ColorFr := Text(s.colorFr),
      DescriptionFr := Text(s.descriptionFr), Image := Text(s.image),
      Issued := Text(s.issued), PerforatedDimensions := Text(s.perforatedDimensions),
      TitleEn := Text(s.titleEn), TitleFr := Text(s.titleFr),
      ValueEn := Text(s.valueEn), ValueFr := Text(s.valueFr),
      Years := Text(s.years), Url := Text(s.url)]
  }

  /** `to_dict` of a row of the indexed table: the index columns are not among its columns. */
  function IndexedRowDict(s: DbStamp): Dict
  {
    RowDict(s) - IndexColumns
  }

  /** A row of the indexed table has every field of the `Stamp` model but `id`. */
  lemma IndexedRowKeys(s: DbStamp)
    ensures IndexedRowDict(s).Keys == StampFields - {Id}
    ensures forall f :: f in IndexedRowDict(s) ==> IndexedRowDict(s)[f] == RowDict(s)[f]
  {
  }

  /** Adding a key and deleting it again leaves a dictionary as it was. */
  lemma UpdateThenRemove(m: Dict, f: Field, c: Cell)
    requires f !in m
    ensures m[f := c] - {f} == m
  {
  }

  /** A dictionary that holds the three key columns as text. */
  predicate HasDbKey(d: Dict)
  {
    && IndexColumns <= d.Keys
    && d[TypeFr].Text? && d[IdYtNo].Text? && d[IdYtVar].Text?
  }

  /** The key the three key columns of `d` spell. */
  function DbKey(d: Dict): StampId
    requires HasDbKey(d)
  {
    StampId(d[TypeFr].text, d[IdYtNo].text, d[IdYtVar].text)
  }

  /** The dictionary `convert_db_stamp_to_api_stamp` leaves behind. */
  function ApiDict(d: Dict): Dict
    requires HasDbKey(d)
  {
    d[Id := IdCell(DbKey(d))] - IndexColumns
  }

  /** A converted row has exactly the fields of the API's `Stamp` model, its `id` is the row's
      key, and every other field is the row's column of that name. */
  lemma ApiDictOfRow(s: DbStamp)
    ensures HasDbKey(RowDict(s))
    ensures ApiDict(RowDict(s)).Keys == StampFields
    ensures ApiDict(RowDict(s))[Id] == IdCell(Key(s))
    ensures forall f :: f in StampFields && f != Id ==> ApiDict(RowDict(s))[f] == RowDict(s)[f]
  {
  }

  /** A Python dictionary object that the handlers change in place. */
  class StampDict {
    var cells: Dict

    constructor (cells: Dict)
      ensures this.cells == cells
    {
      this.cells := cells;
    }

    /** `convert_db_stamp_to_api_stamp(d)`: adds the nested `id` built from the three key
        columns, then deletes those columns. */
    method ConvertDbStampToApiStamp()
      requires HasDbKey(cells)
      modifies this
      ensures cells.Keys == old(cells).Keys - IndexColumns + {Id}
      ensures cells[Id] == IdCell(DbKey(old(cells)))
      ensures forall k :: k in cells && k != Id ==> cells[k] == old(cells)[k]
      ensures cells == ApiDict(old(cells))
    {
      var id := IdCell(StampId(cells[TypeFr].text, cells[IdYtNo].text, cells[IdYtVar].text));
      cells := cells[Id := id];
      cells := cells - {IdYtNo};
      cells := cells - {IdYtVar};
      cells := cells - {TypeFr};
    }
  }
}
