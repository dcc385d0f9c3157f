/** The catalog API's reading of the `Accept-Language` request header (section 12.5.4 of
    RFC 9110): `parsed_accept_language` splits the header into `(tag, weight)` pairs, and the
    handlers take the first tag and use the French columns when it begins with `fr`. The weights
    (section 12.4.2 of RFC 9110) are kept as text and never compared. */
module AcceptLanguage {
  import opened PyStr
  import opened Outcomes

  /** An entry whose weight can be read: one without `;`, or one whose text after the first
      `;` holds a `=` (otherwise the source fails with an `IndexError`). */
  predicate EntryParses(e: string)
  {
    var parts := Split(e, ';');
    |parts| == 1 || |Split(parts[1], '=')| >= 2
  }

  /** A header every entry of which parses; a missing header always parses. */
  predicate HeaderParses(h: Option<string>)
  {
    h.Some? ==> EntriesParse(Split(h.value, ','))
  }

  /** Every entry of a list parses. */
  predicate EntriesParse(languages: seq<string>)
  {
    forall i :: 0 <= i < |languages| ==> EntryParses(languages[i])
  }

  /** One comma-separated entry as a `(tag, weight)` pair: the tag is the stripped text before
      the first `;`, the weight is `"1"` when there is no `;`, and otherwise the text between
      the first and second `=` of the piece after the first `;`. */
  function ParseEntry(language: string): (r: (string, string))
    requires EntryParses(language)
    ensures r.0 == Strip(Split(language, ';')[0])
    ensures ';' !in language ==> r.1 == "1"
    ensures ';' in language ==>
      |Split(language, ';')| >= 2 && r.1 == Split(Split(language, ';')[1], '=')[1]
  {
    SplitFirst(language, ';');
    if Split(language, ';')[0] == language then (Strip(language), "1")
    else (Strip(Split(language, ';')[0]), Split(Split(language, ';')[1], '=')[1])
  }

  /** The pairs of a list of entries: one per entry, in the entries' order. */
  function ParseEntries(languages: seq<string>): (r: seq<(string, string)>)
    requires EntriesParse(languages)
    ensures |r| == |languages|
    ensures forall i :: 0 <= i < |r| ==> r[i] == ParseEntry(languages[i])
    ensures forall i :: 0 <= i < |r| ==> r[i].0 == Strip(Split(languages[i], ';')[0])
  {
    if languages == [] then []
    else ParseEntries(languages[..|languages| - 1]) + [ParseEntry(languages[|languages| - 1])]
  }

  /** What `parsed_accept_language` returns: the bare tuple `('en', '1')` for a missing header,
      a list of pairs otherwise. */
  datatype ParsedLanguages =
    | BareTuple(tag: string, weight: string)
    | Entries(entries: seq<(string, string)>)

  /** `parsed_accept_language(h)`. */
  function ParseAcceptLanguage(h: Option<string>): (r: ParsedLanguages)
    requires HeaderParses(h)
    ensures h.None? ==> r == BareTuple("en", "1")
    ensures h.Some? ==> r.Entries? && |r.entries| == |Split(h.value, ',')|
    ensures h.Some? ==> forall i :: 0 <= i < |r.entries| ==>
      r.entries[i].0 == Strip(Split(Split(h.value, ',')[i], ';')[0])
  {
    if h.None? then BareTuple("en", "1")
    else Entries(ParseEntries(Split(h.value, ',')))
  }

  /** `parsed_accept_language(accept_language)`: the entries are appended one by one, in the
      order of the header. */
  method ParsedAcceptLanguage(acceptLanguage: Option<string>) returns (r: ParsedLanguages)
    requires HeaderParses(acceptLanguage)
    ensures r == ParseAcceptLanguage(acceptLanguage)
  {
    if acceptLanguage.None? {
      return BareTuple("en", "1");
    }
    var languages := Split(acceptLanguage.value, ',');
    var entries := ParsedEntries(languages);
    return Entries(entries);
  }

  /** The loop of `parsed_accept_language`: one pair per entry, appended in order. */
  method ParsedEntries(languages: seq<string>) returns (result: seq<(string, string)>)
    requires EntriesParse(languages)
    ensures result == ParseEntries(languages)
  {
    result := [];
    for k := 0 to |languages|
      invariant EntriesParse(languages[..k])
      invariant result == ParseEntries(languages[..k])
    {
      var pair := ParsedEntry(languages[k]);
      ParseEntriesSnoc(languages, k);
      result := result + [pair];
    }
    assert languages[..|languages|] == languages;
  }

  /** Parsing one more entry appends its pair. */
  lemma ParseEntriesSnoc(languages: seq<string>, k: nat)
    requires EntriesParse(languages) && k < |languages|
    ensures EntriesParse(languages[..k]) && EntriesParse(languages[..k + 1])
    ensures ParseEntries(languages[..k + 1]) == ParseEntries(languages[..k]) + [ParseEntry(languages[k])]
  {
    assert languages[..k + 1][..k] == languages[..k];
  }

  /** The body of the loop of `parsed_accept_language`: the pair of one entry. */
  method ParsedEntry(language: string) returns (pair: (string, string))
    requires EntryParses(language)
    ensures pair == ParseEntry(language)
  {
    var parts := Split(language, ';');
    SplitFirst(language, ';');
    if parts[0] == language {
      pair := (Strip(language), "1");
    } else {
      var locale := Strip(parts[0]);
      var q := Split(parts[1], '=')[1];
      pair := (locale, q);
    }
  }

  /** `parsed[0][0]`: the tag of the first pair of a list, and the first character of the
      first component of the bare tuple. */
  function FirstTag(parsed: ParsedLanguages): string
    requires parsed.BareTuple? ==> |parsed.tag| >= 1
    requires parsed.Entries? ==> |parsed.entries| >= 1
  {
    match parsed
    case BareTuple(tag, _) => [tag[0]]
    case Entries(entries) => entries[0].0
  }

  /** `parsed_accept_language(h)[0][0]`, the language tag the handlers go by: the first
      entry's tag, or `"e"` (the first character of `'en'`) for a missing header. */
  function Language(h: Option<string>): string
    requires HeaderParses(h)
  {
    FirstTag(ParseAcceptLanguage(h))
  }

  /** `language[0:2] == "fr"`. */
  predicate IsFrench(language: string)
  {
    Slice(language, 0, 2) == "fr"
  }

  /** The handlers use their French columns for this header. */
  predicate FrenchLocale(h: Option<string>)
    requires HeaderParses(h)
  {
    IsFrench(Language(h))
  }

  /** `language[0:2] == "fr"` holds exactly for the tags that begin with `fr`. */
  lemma IsFrenchPrefix(language: string)
    ensures IsFrench(language) <==> StartsWith(language, "fr")
  {
  }

  /** The French columns are used exactly when the stripped tag of the first entry begins with
      `fr`; without the header the language is `"e"` and the English columns are used. */
  lemma LocaleRule(h: Option<string>)
    requires HeaderParses(h)
    ensures h.None? ==> Language(h) == "e" && !FrenchLocale(h)
    ensures h.Some? ==>
      (FrenchLocale(h) <==> StartsWith(Strip(Split(Split(h.value, ',')[0], ';')[0]), "fr"))
  {
    IsFrenchPrefix(Language(h));
  }

  /** A language tag as written in a header: non-empty, without the header's delimiters and
      without surrounding whitespace. */
  predicate PlainTag(t: string)
  {
    && t != [] && ';' !in t && ',' !in t && '=' !in t
    && !IsSpace(t[0]) && !IsSpace(t[|t| - 1])
  }

  /** A weight as written in a header, without the header's delimiters. */
  predicate PlainWeight(w: string)
  {
    ';' !in w && ',' !in w && '=' !in w
  }

  /** An entry without a weight gives its tag with weight `"1"`. */
  lemma PlainEntry(t: string)
    requires PlainTag(t)
    ensures EntryParses(t) && ParseEntry(t) == (t, "1")
  {
    SplitWithoutSeparator(t, ';');
    StripOfStripped(t);
  }

  /** An entry `t;q=w` gives its tag and its weight. */
  lemma WeightedEntry(t: string, w: string)
    requires PlainTag(t) && PlainWeight(w)
    ensures EntryParses(t + ";q=" + w) && ParseEntry(t + ";q=" + w) == (t, w)
  {
    var e := t + ";q=" + w;
    JoinTwoThree(t, "q=" + w, "", ';');
    assert e == Join([t, "q=" + w], ';');
    SplitJoin([t, "q=" + w], ';');
    JoinTwoThree("q", w, "", '=');
    assert "q=" + w == Join(["q", w], '=');
    SplitJoin(["q", w], '=');
    StripOfStripped(t);
  }

  /** The pairs keep the header's order whatever their weights: in `a;q=w,b` the tag `a` comes
      first although `b` has the implicit, highest weight 1, and `a` alone decides whether the
      French columns are used. */
  lemma NotSortedByWeight(a: string, w: string, b: string)
    requires PlainTag(a) && PlainTag(b) && PlainWeight(w)
    ensures HeaderParses(Some(a + ";q=" + w + "," + b))
    ensures ParseAcceptLanguage(Some(a + ";q=" + w + "," + b)) == Entries([(a, w), (b, "1")])
    ensures FrenchLocale(Some(a + ";q=" + w + "," + b)) <==> StartsWith(a, "fr")
  {
    var h := a + ";q=" + w + "," + b;
    var e := a + ";q=" + w;
    JoinTwoThree(e, b, "", ',');
    assert h == Join([e, b], ',');
    SplitJoin([e, b], ',');
    WeightedEntry(a, w);
    PlainEntry(b);
    assert ParseEntries([e, b]) == [(a, w), (b, "1")];
    IsFrenchPrefix(a);
  }
}
