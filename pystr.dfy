/** The Python `str` and slicing operations the stamp services use, with CPython's semantics
    written out: `split` on one separator character, `strip`, `startswith`, `endswith`, `in`,
    `find`, and `a[i:j]` with negative and out-of-range indices. */
module PyStr {
  import opened Outcomes

  /** The position `a[i:j]` clamps the index `i` to, for a sequence of length `n`. */
  function SliceIndex(i: int, n: nat): (k: nat)
    ensures k <= n
    ensures 0 <= i <= n ==> k == i
    ensures i > n ==> k == n
    ensures i < 0 && 0 <= i + n ==> k == n + i
    ensures i + n < 0 ==> k == 0
  {
    if i < 0 then (if i + n < 0 then 0 else i + n) else if i > n then n else i
  }

  /** Python's `s[i:j]` (step 1) on a list or a string. */
  function Slice<T>(s: seq<T>, i: int, j: int): seq<T>
  {
    var lo, hi := SliceIndex(i, |s|), SliceIndex(j, |s|);
    if lo < hi then s[lo..hi] else []
  }

  /** With a non-negative start, `s[i:j]` is the run of `s` that begins at `i` and holds
      `j - i` elements, cut short by the end of `s`. */
  lemma SliceFrom<T>(s: seq<T>, i: int, j: int)
    requires 0 <= i && 0 <= j
    ensures |Slice(s, i, j)| == if j <= i || |s| <= i then 0 else (if j <= |s| then j else |s|) - i
    ensures forall k :: 0 <= k < |Slice(s, i, j)| ==> Slice(s, i, j)[k] == s[i + k]
  {
  }

  /** `s[0:-1]` drops the last element, and `s[1:]` (written `s[1:len(s)]`) the first. */
  lemma SliceEnds<T>(s: seq<T>)
    requires |s| >= 1
    ensures Slice(s, 0, -1) == s[..|s| - 1]
    ensures Slice(s, 1, |s|) == s[1..]
    ensures Slice(s, 0, |s|) == s
  {
  }

  /** Python's `str.isspace()` on one character: the characters `str.strip()` removes. */
  predicate IsSpace(c: char)
  {
    || c == ' ' || c == '\t' || c == '\n' || c == '\r'
    || c == '\U{000B}' || c == '\U{000C}'
    || ('\U{001C}' <= c <= '\U{001F}')
    || c == '\U{0085}' || c == '\U{00A0}' || c == '\U{1680}'
    || ('\U{2000}' <= c <= '\U{200A}')
    || c == '\U{2028}' || c == '\U{2029}' || c == '\U{202F}' || c == '\U{205F}' || c == '\U{3000}'
  }

  /** `s.lstrip()`: `s` without its leading whitespace. */
  function StripLeading(s: string): (r: string)
    ensures |r| <= |s| && r == s[|s| - |r|..]
    ensures forall i :: 0 <= i < |s| - |r| ==> IsSpace(s[i])
    ensures r != [] ==> !IsSpace(r[0])
  {
    if s != [] && IsSpace(s[0]) then StripLeading(s[1..]) else s
  }

  /** `s.rstrip()`: `s` without its trailing whitespace. */
  function StripTrailing(s: string): (r: string)
    ensures |r| <= |s| && r == s[..|r|]
    ensures forall i :: |r| <= i < |s| ==> IsSpace(s[i])
    ensures r != [] ==> !IsSpace(r[|r| - 1])
  {
    if s != [] && IsSpace(s[|s| - 1]) then StripTrailing(s[..|s| - 1]) else s
  }

  /** `s.strip()`. */
  function Strip(s: string): string
  {
    StripTrailing(StripLeading(s))
  }

  /** A string with no whitespace at either end is its own `strip()`. */
  lemma StripOfStripped(s: string)
    requires s != [] ==> !IsSpace(s[0]) && !IsSpace(s[|s| - 1])
    ensures Strip(s) == s
  {
  }

  /** `s.startswith(p)`. */
  predicate StartsWith(s: string, p: string)
  {
    |p| <= |s| && s[..|p|] == p
  }

  /** `s.endswith(p)`. */
  predicate EndsWith(s: string, p: string)
  {
    |p| <= |s| && s[|s| - |p|..] == p
  }

  /** `sub in s`: `sub` occurs somewhere in `s` (the empty string occurs everywhere). */
  predicate Contains(s: string, sub: string)
  {
    exists i :: 0 <= i <= |s| - |sub| && s[i..][..|sub|] == sub
  }

  /** `s.find(c)`: the index of the first `c`, or -1. */
  function Find(s: string, c: char): (r: int)
    ensures -1 <= r < |s|
    ensures r == -1 <==> c !in s
    ensures r >= 0 ==> s[r] == c && c !in s[..r]
  {
    if s == [] then -1
    else if s[0] == c then 0
    else
      var k := Find(s[1..], c);
      assert k >= 0 ==> s[..k + 1] == [s[0]] + s[1..][..k];
      if k == -1 then -1 else k + 1
  }

  /** `s.split(sep)` for a one-character separator: the pieces between separators, empty
      pieces included. */
  function Split(s: string, sep: char): (parts: seq<string>)
    ensures |parts| >= 1
    ensures forall p :: p in parts ==> sep !in p
  {
    if s == [] then [""]
    else
      var rest := Split(s[1..], sep);
      if s[0] == sep then [""] + rest else [[s[0]] + rest[0]] + rest[1..]
  }

  /** `sep.join(parts)`. */
  function Join(parts: seq<string>, sep: char): string
    requires |parts| >= 1
  {
    if |parts| == 1 then parts[0] else parts[0] + [sep] + Join(parts[1..], sep)
  }

  /** Joining the pieces of a split gives back the string. */
  lemma {:induction false} JoinSplit(s: string, sep: char)
    ensures Join(Split(s, sep), sep) == s
  {
    if s != [] {
      var rest := Split(s[1..], sep);
      JoinSplit(s[1..], sep);
      assert s == [s[0]] + s[1..];
      if s[0] == sep {
        assert Split(s, sep) == [""] + rest;
        assert ([""] + rest)[1..] == rest;
        assert Join([""] + rest, sep) == "" + [sep] + Join(rest, sep);
      } else {
        var parts := [[s[0]] + rest[0]] + rest[1..];
        assert Split(s, sep) == parts;
        if |rest| > 1 {
          assert parts[1..] == rest[1..];
          assert Join(rest, sep) == rest[0] + [sep] + Join(rest[1..], sep);
          assert Join(parts, sep) == parts[0] + [sep] + Join(rest[1..], sep);
        } else {
          assert Join(parts, sep) == parts[0];
        }
      }
    }
  }

  /** A string without the separator splits into itself alone. */
  lemma {:induction false} SplitWithoutSeparator(p: string, sep: char)
    requires sep !in p
    ensures Split(p, sep) == [p]
  {
    if p != [] {
      SplitWithoutSeparator(p[1..], sep);
      assert [p[0]] + p[1..] == p;
    }
  }

  /** A separator-free piece followed by the separator splits off as the first piece. */
  lemma {:induction false} SplitAfterPiece(p: string, sep: char, t: string)
    requires sep !in p
    ensures Split(p + [sep] + t, sep) == [p] + Split(t, sep)
  {
    var s := p + [sep] + t;
    if p == [] {
      assert s[1..] == t;
    } else {
      assert s[1..] == p[1..] + [sep] + t;
      SplitAfterPiece(p[1..], sep, t);
      assert [p[0]] + p[1..] == p;
    }
  }

  /** Splitting a join of separator-free pieces recovers the pieces. */
  lemma {:induction false} SplitJoin(parts: seq<string>, sep: char)
    requires |parts| >= 1
    requires forall p :: p in parts ==> sep !in p
    ensures Split(Join(parts, sep), sep) == parts
  {
    if |parts| == 1 {
      SplitWithoutSeparator(parts[0], sep);
    } else {
      SplitJoin(parts[1..], sep);
      SplitAfterPiece(parts[0], sep, Join(parts[1..], sep));
    }
  }

  /** The first piece of a split is the whole string exactly when the separator does not
      occur, and otherwise there is a second piece. */
  lemma SplitFirst(s: string, sep: char)
    ensures Split(s, sep)[0] == s <==> sep !in s
    ensures sep in s ==> |Split(s, sep)| >= 2
  {
    SplitCount(s, sep);
    if sep !in s {
      SplitWithoutSeparator(s, sep);
    }
  }

  /** `s.split(sep)` has one more piece than `s` has separators (`s.count(sep) + 1`). */
  lemma {:induction false} SplitCount(s: string, sep: char)
    ensures |Split(s, sep)| == multiset(s)[sep] + 1
  {
    if s != [] {
      SplitCount(s[1..], sep);
      assert s == [s[0]] + s[1..];
      assert multiset(s) == multiset{s[0]} + multiset(s[1..]);
    }
  }

  /** The joins of two and of three pieces, written out. */
  lemma JoinTwoThree(a: string, b: string, c: string, sep: char)
    ensures Join([a, b], sep) == a + [sep] + b
    ensures Join([a, b, c], sep) == a + [sep] + b + [sep] + c
  {
    assert [a, b][1..] == [b];
    assert [a, b, c][1..] == [b, c];
    assert [b, c][1..] == [c];
    assert Join([b, c], sep) == b + [sep] + c;
    assert Join([a, b, c], sep) == a + [sep] + Join([b, c], sep);
  }

  /** A string that splits into two pieces is those pieces around the separator. */
  lemma SplitTwo(s: string, sep: char)
    requires |Split(s, sep)| == 2
    ensures s == Split(s, sep)[0] + [sep] + Split(s, sep)[1]
  {
    var parts := Split(s, sep);
    JoinSplit(s, sep);
    assert parts == [parts[0], parts[1]];
    JoinTwoThree(parts[0], parts[1], "", sep);
  }

  /** A string that splits into three pieces is those pieces between two separators. */
  lemma SplitThree(s: string, sep: char)
    requires |Split(s, sep)| == 3
    ensures s == Split(s, sep)[0] + [sep] + Split(s, sep)[1] + [sep] + Split(s, sep)[2]
  {
    var parts := Split(s, sep);
    JoinSplit(s, sep);
    assert parts == [parts[0], parts[1], parts[2]];
    JoinTwoThree(parts[0], parts[1], parts[2], sep);
  }

  /** An ASCII decimal digit and its value. */
  predicate IsDigit(c: char)
  {
    '0' <= c <= '9'
  }

  function DigitValue(c: char): nat
    requires IsDigit(c)
  {
    c as int - '0' as int
  }

  function DigitChar(d: nat): (c: char)
    requires d < 10
    ensures IsDigit(c) && DigitValue(c) == d
  {
    ('0' as int + d) as char
  }

  /** The digits `int()` accepts after the sign: digits and single `_` separators, beginning
      and ending with a digit. Read from the end: a final digit, preceded by nothing, by digit
      groups, or by a `_` that follows digit groups. */
  predicate DigitGroups(s: string)
    decreases |s|
  {
    && |s| >= 1
    && IsDigit(s[|s| - 1])
    && (|s| == 1 ||
        var t := s[..|s| - 1];
        DigitGroups(t) || (|t| >= 2 && t[|t| - 1] == '_' && DigitGroups(t[..|t| - 1])))
  }

  /** The number that digit groups spell in base 10, the underscores skipped. */
  function DigitsValue(s: string): nat
    requires DigitGroups(s)
    decreases |s|
  {
    if |s| == 1 then DigitValue(s[0])
    else
      var t := s[..|s| - 1];
      var groups := if t[|t| - 1] == '_' then t[..|t| - 1] else t;
      assert DigitGroups(t) ==> IsDigit(t[|t| - 1]);
      DigitsValue(groups) * 10 + DigitValue(s[|s| - 1])
  }

  /** The text after an optional leading sign. */
  function Unsigned(t: string): string
  {
    if |t| >= 1 && (t[0] == '-' || t[0] == '+') then t[1..] else t
  }

  /** Python's `int(s)` on a string: surrounding whitespace, an optional sign and base-10 digit
      groups; anything else raises `ValueError`, written `None` here. */
  function ParseInt(s: string): (r: Option<int>)
    ensures r.Some? <==> DigitGroups(Unsigned(Strip(s)))
    ensures r.Some? && Strip(s)[0] == '-' ==> r.value <= 0
    ensures r.Some? && Strip(s)[0] != '-' ==> r.value >= 0
  {
    var t := Strip(s);
    var body := Unsigned(t);
    if DigitGroups(body) then
      var v: int := DigitsValue(body);
      Some(if t[0] == '-' then -v else v)
    else None
  }

  /** The base-10 digits of a natural number, most significant first. */
  function Decimal(n: nat): string
  {
    if n < 10 then [DigitChar(n)] else Decimal(n / 10) + [DigitChar(n % 10)]
  }

  /** Python's `str(n)` on an integer. */
  function IntString(n: int): string
  {
    if n < 0 then "-" + Decimal(-n) else Decimal(n)
  }

  /** The digits of a number are digit groups that spell the number. */
  lemma {:induction false} DecimalValue(n: nat)
    ensures |Decimal(n)| >= 1
    ensures IsDigit(Decimal(n)[0])
    ensures DigitGroups(Decimal(n))
    ensures DigitsValue(Decimal(n)) == n
  {
    if n >= 10 {
      DecimalValue(n / 10);
      var d := Decimal(n);
      assert d[..|d| - 1] == Decimal(n / 10);
    }
  }

  /** `int(str(n)) == n`. */
  lemma IntRoundTrip(n: int)
    ensures ParseInt(IntString(n)) == Some(n)
  {
    var m := if n < 0 then -n else n;
    DecimalValue(m);
    var d := Decimal(m);
    var s := IntString(n);
    StrippedNumber(n);
    assert Unsigned(s) == d;
    assert n >= 0 ==> s[0] == d[0];
  }

  /** The text of a number has no surrounding whitespace. */
  lemma StrippedNumber(n: int)
    ensures Strip(IntString(n)) == IntString(n)
  {
    var m := if n < 0 then -n else n;
    DecimalValue(m);
    var d := Decimal(m);
    var s := IntString(n);
    assert s[|s| - 1] == d[|d| - 1];
    DigitNotSpace(d[|d| - 1]);
    DigitNotSpace(s[0]);
    StripOfStripped(s);
  }

  lemma DigitNotSpace(c: char)
    requires IsDigit(c) || c == '-'
    ensures !IsSpace(c)
  {
  }
}
