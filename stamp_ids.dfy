/** The composite stamp identifier of the catalog API: the `url` column built at startup
    (`stamps/T-N-V`, or `stamps/T-N` for the base stamp) and the decoding of a `stamp_id` path
    segment by splitting it on `-`. */
module StampIds {
  import opened PyStr
  import opened Outcomes

  /** The key of a stamp: its type (`type_fr`), its Yvert-Tellier number and its variant code
      (`""` for the base stamp). */
  datatype StampId = StampId(stampType: string, ytNo: string, ytVariant: string)

  /** The `stamp_id` text of a key: the parts joined with `-`, the variant left out when it is
      empty (Python's truth test on `x[2]`). */
  function EncodeId(k: StampId): string
  {
    if k.ytVariant != "" then k.stampType + "-" + k.ytNo + "-" + k.ytVariant
    else k.stampType + "-" + k.ytNo
  }

  /** The `url` column value of a row with key `k`. */
  function StampUrl(k: StampId): string
  {
    "stamps/" + EncodeId(k)
  }

  /** `stamp_id.split("-")` then the 2-or-3 part check of `get_stamp`: `None` stands for the 404
      answer given to a malformed identifier. */
  function ParseStampId(stampId: string): (r: Option<StampId>)
    ensures r.None? <==> multiset(stampId)['-'] != 1 && multiset(stampId)['-'] != 2
    ensures r.Some? && multiset(stampId)['-'] == 1 ==> r.value.ytVariant == ""
    ensures r.Some? ==> '-' !in r.value.stampType && '-' !in r.value.ytNo && '-' !in r.value.ytVariant
  {
    var items := Split(stampId, '-');
    SplitCount(stampId, '-');
    if |items| < 2 || |items| > 3 then None
    else if |items| == 2 then Some(StampId(items[0], items[1], ""))
    else Some(StampId(items[0], items[1], items[2]))
  }

  /** No part of the key contains the separator. */
  predicate SeparatorFree(k: StampId)
  {
    '-' !in k.stampType && '-' !in k.ytNo && '-' !in k.ytVariant
  }

  /** Decoding the id of a key whose parts hold no `-` gives the key back: a two-part id for
      the base stamp, a three-part id for a variant. */
  lemma DecodeEncode(k: StampId)
    requires SeparatorFree(k)
    ensures ParseStampId(EncodeId(k)) == Some(k)
  {
    JoinTwoThree(k.stampType, k.ytNo, k.ytVariant, '-');
    if k.ytVariant != "" {
      assert EncodeId(k) == Join([k.stampType, k.ytNo, k.ytVariant], '-');
      SplitJoin([k.stampType, k.ytNo, k.ytVariant], '-');
    } else {
      assert EncodeId(k) == Join([k.stampType, k.ytNo], '-');
      SplitJoin([k.stampType, k.ytNo], '-');
    }
  }

  /** The `url` column of a row is `"stamps/"` followed by an id that decodes to the row's
      key, when no part of the key holds a `-`. */
  lemma UrlDecodes(k: StampId)
    requires SeparatorFree(k)
    ensures StampUrl(k)[..7] == "stamps/"
    ensures ParseStampId(StampUrl(k)[7..]) == Some(k)
  {
    assert StampUrl(k)[7..] == EncodeId(k);
    DecodeEncode(k);
  }

  /** Every id that decodes is the encoding of its key, or that encoding followed by one `-`
      (a three-part id with an empty variant, such as `Poste-1-`, decodes like `Poste-1`). */
  lemma {:induction false} EncodeDecode(stampId: string)
    requires ParseStampId(stampId).Some?
    ensures var k := ParseStampId(stampId).value;
      stampId == EncodeId(k) || stampId == EncodeId(k) + "-"
  {
    var items := Split(stampId, '-');
    if |items| == 2 {
      SplitTwo(stampId, '-');
    } else {
      SplitThree(stampId, '-');
    }
  }

  /** The encoding is lossy when a part holds the separator: the type `A-B` with number `1`
      is read back as type `A`, number `B`, variant `1`. */
  lemma SeparatorInTypeIsAmbiguous()
    ensures EncodeId(StampId("A-B", "1", "")) == "A-B-1"
    ensures ParseStampId("A-B-1") == Some(StampId("A", "B", "1"))
  {
    JoinTwoThree("A", "B", "1", '-');
    assert "A-B-1" == Join(["A", "B", "1"], '-');
    SplitJoin(["A", "B", "1"], '-');
  }
}
