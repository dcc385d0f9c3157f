/** The title search of both catalogue services: a query with at most one `*`, applied to a
    column of titles (or to its distinct values) by `startswith`, `endswith` and `contains`
    masks chosen from where the `*` stands. */
module Wildcard {
  import opened PyStr
  import opened Seqs

  /** `titles.str.startswith(p)` and `titles.str.endswith(p)` as tests on one title, and a
      substring test for `titles.str.contains(p)`. pandas' `contains` searches `p` as a regular
      expression by default; the substring test stands for it only because the branch using it
      is never reached (`BothEndsUnreachable`), so no answer depends on the difference. */
  function StartsTest(p: string): string -> bool
  {
    t => StartsWith(t, p)
  }

  function EndsTest(p: string): string -> bool
  {
    t => EndsWith(t, p)
  }

  function ContainsTest(p: string): string -> bool
  {
    t => Contains(t, p)
  }

  /** The masks the handlers apply for the query `q` (`q[-1]` and `q[0]` need a non-empty
      query): a star at both ends keeps the titles that contain the middle, a trailing star
      those that start with the rest, a leading star those that end with the rest, and
      otherwise those that start with the text before the first star and, of these, those that
      end with the text after it (`find` gives -1 when there is no star). */
  function PatternFilter(q: string, titles: seq<string>): seq<string>
    requires |q| >= 1
  {
    var prefix := q[|q| - 1] == '*';
    var suffix := q[0] == '*';
    if prefix && suffix then Filter(titles, ContainsTest(Slice(q, 1, -1)))
    else if prefix then Filter(titles, StartsTest(Slice(q, 0, -1)))
    else if suffix then Filter(titles, EndsTest(Slice(q, 1, |q|)))
    else
      var starpos := Find(q, '*');
      var titles := Filter(titles, StartsTest(Slice(q, 0, starpos)));
      Filter(titles, EndsTest(Slice(q, starpos + 1, |q|)))
  }

  /** The body of the 400 answer to a query with more than one `*`. */
  const MultipleStarsMessage := "Multiple wildcard stars '*' in query is not supported."

  /** The queries that reach the pattern masks: not empty (the source fails on `q[-1]`), not
      the lone `*` (answered with every title) and with at most one `*` (more is rejected). */
  predicate SingleStarQuery(q: string)
  {
    |q| >= 1 && q != "*" && multiset(q)['*'] <= 1
  }

  /** What a single-star query means, stated on the pieces around its star: a title matches
      when it starts with the piece before the star and ends with the piece after it, the two
      tested independently of each other. A query without a star matches the titles that
      start with all of it but its last character and end with all of it. */
  predicate Matches(q: string, t: string)
    requires SingleStarQuery(q)
  {
    var pieces := Split(q, '*');
    if |pieces| == 2 then StartsWith(t, pieces[0]) && EndsWith(t, pieces[1])
    else StartsWith(t, q[..|q| - 1]) && EndsWith(t, q)
  }

  function MatchTest(q: string): string -> bool
    requires SingleStarQuery(q)
  {
    t => Matches(q, t)
  }

  /** A query with one star is the piece before it, the star and the piece after it, and it
      splits into exactly those two pieces. */
  lemma StarPieces(q: string)
    requires multiset(q)['*'] == 1
    ensures Find(q, '*') >= 0
    ensures Split(q, '*') == [q[..Find(q, '*')], q[Find(q, '*') + 1..]]
    ensures q == q[..Find(q, '*')] + "*" + q[Find(q, '*') + 1..]
  {
    assert '*' in multiset(q);
    var p := Find(q, '*');
    var left, right := q[..p], q[p + 1..];
    assert q == left + [q[p]] + right;
    assert multiset(q) == multiset(left) + multiset{'*'} + multiset(right);
    assert '*' !in multiset(right);
    SplitAfterPiece(left, '*', right);
    SplitWithoutSeparator(right, '*');
  }

  /** No single-star query has a star at both ends, so the `contains` mask is never used. */
  lemma BothEndsUnreachable(q: string)
    requires SingleStarQuery(q)
    ensures !(q[0] == '*' && q[|q| - 1] == '*')
  {
    if |q| == 1 {
      assert q == [q[0]];
    } else {
      assert q == [q[0]] + q[1..|q| - 1] + [q[|q| - 1]];
    }
  }

  /** The masks of every single-star query select exactly the titles that match it, in the
      order of the column: a trailing star is a prefix search, a leading star a suffix search
      and a middle star a prefix and a suffix search. */
  lemma PatternFilterMatches(q: string, titles: seq<string>)
    requires SingleStarQuery(q)
    ensures PatternFilter(q, titles) == Filter(titles, MatchTest(q))
  {
    BothEndsUnreachable(q);
    if q[|q| - 1] == '*' {
      TrailingStarMask(q, titles);
    } else if q[0] == '*' {
      LeadingStarMask(q, titles);
    } else if '*' in q {
      InnerStarMasks(q, titles);
    } else {
      NoStarMasks(q, titles);
    }
  }

  /** A trailing star: the `startswith` mask on the rest of the query. */
  lemma TrailingStarMask(q: string, titles: seq<string>)
    requires SingleStarQuery(q) && q[|q| - 1] == '*'
    ensures PatternFilter(q, titles) == Filter(titles, MatchTest(q))
  {
    BothEndsUnreachable(q);
    assert PatternFilter(q, titles) == Filter(titles, StartsTest(Slice(q, 0, -1)));
    assert '*' in multiset(q) by { assert q[|q| - 1] in q; }
    SliceEnds(q);
    StarPieces(q);
    var p := Find(q, '*');
    assert p == |q| - 1 && Slice(q, 0, -1) == q[..p] && q[p + 1..] == [];
    FilterExt(titles, StartsTest(Slice(q, 0, -1)), MatchTest(q));
  }

  /** A leading star: the `endswith` mask on the rest of the query. */
  lemma LeadingStarMask(q: string, titles: seq<string>)
    requires SingleStarQuery(q) && q[0] == '*' && q[|q| - 1] != '*'
    ensures PatternFilter(q, titles) == Filter(titles, MatchTest(q))
  {
    assert PatternFilter(q, titles) == Filter(titles, EndsTest(Slice(q, 1, |q|)));
    assert '*' in multiset(q) by { assert q[0] in q; }
    SliceEnds(q);
    StarPieces(q);
    var p := Find(q, '*');
    assert p == 0 && Slice(q, 1, |q|) == q[p + 1..] && q[..p] == [];
    FilterExt(titles, EndsTest(Slice(q, 1, |q|)), MatchTest(q));
  }

  /** A star inside the query: the `startswith` mask on the text before it, then the
      `endswith` mask on the text after it. */
  lemma InnerStarMasks(q: string, titles: seq<string>)
    requires SingleStarQuery(q) && '*' in q && q[0] != '*' && q[|q| - 1] != '*'
    ensures PatternFilter(q, titles) == Filter(titles, MatchTest(q))
  {
    var p := Find(q, '*');
    assert PatternFilter(q, titles) ==
      Filter(Filter(titles, StartsTest(Slice(q, 0, p))), EndsTest(Slice(q, p + 1, |q|)));
    assert '*' in multiset(q);
    StarPieces(q);
    assert Slice(q, 0, p) == q[..p] && Slice(q, p + 1, |q|) == q[p + 1..];
    FilterFilter(titles, StartsTest(q[..p]), EndsTest(q[p + 1..]), MatchTest(q));
  }

  /** No star: `find` gives -1, so the masks are `startswith` on all but the last character
      and `endswith` on the whole query. */
  lemma NoStarMasks(q: string, titles: seq<string>)
    requires SingleStarQuery(q) && '*' !in q
    ensures PatternFilter(q, titles) == Filter(titles, MatchTest(q))
  {
    SplitWithoutSeparator(q, '*');
    assert Find(q, '*') == -1;
    assert PatternFilter(q, titles) ==
      Filter(Filter(titles, StartsTest(Slice(q, 0, -1))), EndsTest(Slice(q, 0, |q|)));
    assert Slice(q, 0, -1) == q[..|q| - 1] && Slice(q, 0, |q|) == q;
    FilterFilter(titles, StartsTest(q[..|q| - 1]), EndsTest(q), MatchTest(q));
  }

  /** `a*b` keeps the titles that start with `a` and end with `b`: with an empty `b` it is
      the prefix search `Ce*`, with an empty `a` the suffix search `*nt`, and otherwise a
      search such as `C*s`. */
  lemma StarQuery(a: string, b: string, t: string)
    requires '*' !in a && '*' !in b
    requires a != [] || b != []
    ensures SingleStarQuery(a + "*" + b)
    ensures Matches(a + "*" + b, t) <==> StartsWith(t, a) && EndsWith(t, b)
  {
    var q := a + "*" + b;
    assert multiset(q) == multiset(a) + multiset{'*'} + multiset(b);
    assert multiset(a)['*'] == 0 && multiset(b)['*'] == 0;
    assert |q| >= 2 && q != "*";
    SplitAfterPiece(a, '*', b);
    SplitWithoutSeparator(b, '*');
    assert Split(q, '*') == [a, b];
  }

  /** A title equal to a query without a star matches it. */
  lemma ExactTitleMatches(q: string)
    requires SingleStarQuery(q) && '*' !in q
    ensures Matches(q, q)
  {
    SplitWithoutSeparator(q, '*');
  }

  /** A query without a star is not an exact-match test: `ab` also matches `aab`. */
  lemma NoStarIsNotExact(a: char, b: char)
    requires a != '*' && b != '*'
    ensures SingleStarQuery([a, b]) && Matches([a, b], [a, a, b]) && [a, a, b] != [a, b]
  {
    assert '*' !in [a, b];
    assert multiset([a, b])['*'] == 0;
    SplitWithoutSeparator([a, b], '*');
    assert [a, a, b][..1] == [a] && [a, a, b][1..] == [a, b];
  }

  /** The two halves of a middle star may overlap: `a*a` matches the one-letter title `a`. */
  lemma HalvesMayOverlap(a: char)
    requires a != '*'
    ensures SingleStarQuery([a, '*', a]) && Matches([a, '*', a], [a])
  {
    var q := [a, '*', a];
    assert multiset(q)['*'] == 1;
    StarPieces(q);
    assert Find(q, '*') == 1;
    assert q[..1] == [a] && q[2..] == [a];
  }
}
