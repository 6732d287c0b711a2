/** Python's text helpers used across the repository: `split`/`join` on one
    separator, code-point order, `sorted(set(...))` and whitespace. */
module Text {

  // ---- split and join --------------------------------------------------

  /** `s.split(sep)`: always at least one part. */
  function Split<T(==)>(sep: T, s: seq<T>): (parts: seq<seq<T>>)
    ensures |parts| >= 1
  {
    if s == [] then [[]]
    else
      var rest := Split(sep, s[1..]);
      if s[0] == sep then [[]] + rest else [[s[0]] + rest[0]] + rest[1..]
  }

  /** `sep.join(parts)`. */
  function Join<T>(sep: T, parts: seq<seq<T>>): seq<T> {
    if |parts| == 0 then []
    else if |parts| == 1 then parts[0]
    else parts[0] + [sep] + Join(sep, parts[1..])
  }

  function Count<T(==)>(x: T, s: seq<T>): nat {
    if s == [] then 0 else (if s[0] == x then 1 else 0) + Count(x, s[1..])
  }

  function Last<T>(s: seq<T>): T
    requires s != []
  {
    s[|s| - 1]
  }

  function Front<T>(s: seq<T>): seq<T>
    requires s != []
  {
    s[..|s| - 1]
  }

  lemma {:induction false} SplitWhole<T>(sep: T, s: seq<T>)
    requires sep !in s
    ensures Split(sep, s) == [s]
  {
    if s != [] {
      SplitWhole(sep, s[1..]);
      assert [s[0]] + s[1..] == s;
    }
  }

  /** Two part lists glued at the seam. */
  ghost function Glue<T>(xs: seq<seq<T>>, ys: seq<seq<T>>): seq<seq<T>>
    requires xs != [] && ys != []
  {
    Front(xs) + [Last(xs) + ys[0]] + ys[1..]
  }

  lemma GlueStep<T>(head: seq<T>, xs: seq<seq<T>>, ys: seq<seq<T>>)
    requires xs != [] && ys != []
    ensures Glue([head] + xs, ys) == [head] + Glue(xs, ys)
    ensures Glue([head + xs[0]] + xs[1..], ys) == [head + Glue(xs, ys)[0]] + Glue(xs, ys)[1..]
  {
    assert Front([head] + xs) == [head] + Front(xs);
    var zs := [head + xs[0]] + xs[1..];
    if |xs| == 1 {
      assert zs == [head + xs[0]] && Front(zs) == [];
      assert Glue(xs, ys) == [xs[0] + ys[0]] + ys[1..];
      assert head + (xs[0] + ys[0]) == (head + xs[0]) + ys[0];
    } else {
      assert Front(zs) == [head + xs[0]] + Front(xs)[1..];
      assert Glue(xs, ys)[1..] == Front(xs)[1..] + [Last(xs) + ys[0]] + ys[1..];
    }
  }

  /** Splitting a concatenation glues the last part of the left half to the
      first part of the right half and leaves every other part alone. */
  lemma {:induction false} SplitConcat<T>(sep: T, a: seq<T>, b: seq<T>)
    ensures Split(sep, a + b) == Glue(Split(sep, a), Split(sep, b))
  {
    var sb := Split(sep, b);
    if a == [] {
      assert a + b == b;
      assert Last(Split(sep, a)) + sb[0] == sb[0];
      assert [sb[0]] + sb[1..] == sb;
    } else {
      SplitConcat(sep, a[1..], b);
      assert (a + b)[1..] == a[1..] + b;
      var rest := Split(sep, a[1..]);
      GlueStep([], rest, sb);
      GlueStep([a[0]], rest, sb);
    }
  }

  lemma SplitAtSeparator<T>(sep: T, a: seq<T>, b: seq<T>)
    ensures Split(sep, a + [sep] + b) == Split(sep, a) + Split(sep, b)
  {
    SplitConcat(sep, a, [sep] + b);
    assert a + [sep] + b == a + ([sep] + b);
    assert ([sep] + b)[1..] == b;
    assert Split(sep, [sep] + b) == [[]] + Split(sep, b);
    var sa := Split(sep, a);
    assert Last(sa) + [] == Last(sa);
    assert Front(sa) + [Last(sa)] == sa;
  }

  lemma {:induction false} SplitLength<T>(sep: T, s: seq<T>)
    ensures |Split(sep, s)| == Count(sep, s) + 1
  {
    if s != [] {
      SplitLength(sep, s[1..]);
    }
  }

  lemma {:induction false} CountConcat<T>(x: T, a: seq<T>, b: seq<T>)
    ensures Count(x, a + b) == Count(x, a) + Count(x, b)
  {
    if a == [] {
      assert a + b == b;
    } else {
      CountConcat(x, a[1..], b);
      assert (a + b)[1..] == a[1..] + b;
    }
  }

  lemma {:induction false} SplitPartsClean<T>(sep: T, s: seq<T>)
    ensures forall p :: p in Split(sep, s) ==> sep !in p
  {
    if s != [] {
      SplitPartsClean(sep, s[1..]);
    }
  }

  /** Joining what was split gives the text back. */
  lemma {:induction false} JoinSplit<T>(sep: T, s: seq<T>)
    ensures Join(sep, Split(sep, s)) == s
  {
    if s != [] {
      JoinSplit(sep, s[1..]);
      var rest := Split(sep, s[1..]);
      var parts := Split(sep, s);
      if s[0] == sep {
        assert parts[1..] == rest;
      } else if |rest| == 1 {
        assert parts == [[s[0]] + rest[0]];
      } else {
        assert parts[1..] == rest[1..];
      }
    }
  }

  /** Splitting what was joined gives the parts back, unless there were none. */
  lemma {:induction false} SplitJoin<T>(sep: T, parts: seq<seq<T>>)
    requires parts != []
    requires forall p :: p in parts ==> sep !in p
    ensures Split(sep, Join(sep, parts)) == parts
  {
    SplitWhole(sep, parts[0]);
    if |parts| > 1 {
      assert forall p :: p in parts[1..] ==> p in parts;
      SplitJoin(sep, parts[1..]);
      SplitAtSeparator(sep, parts[0], Join(sep, parts[1..]));
      assert [parts[0]] + parts[1..] == parts;
    }
  }

  // ---- code-point order and sorted(set(...)) ---------------------------

  /** `a < b` on Python strings. */
  predicate Before(a: string, b: string) {
    b != [] && (a == [] || a[0] < b[0] || (a[0] == b[0] && Before(a[1..], b[1..])))
  }

  lemma {:induction false} BeforeIrreflexive(a: string)
    ensures !Before(a, a)
  {
    if a != [] {
      BeforeIrreflexive(a[1..]);
    }
  }

  lemma {:induction false} BeforeTransitive(a: string, b: string, c: string)
    requires Before(a, b) && Before(b, c)
    ensures Before(a, c)
  {
    if a != [] && a[0] == b[0] == c[0] {
      BeforeTransitive(a[1..], b[1..], c[1..]);
    }
  }

  lemma {:induction false} BeforeTotal(a: string, b: string)
    ensures a == b || Before(a, b) || Before(b, a)
  {
    if a != [] && b != [] && a[0] == b[0] {
      BeforeTotal(a[1..], b[1..]);
      assert [a[0]] + a[1..] == a && [b[0]] + b[1..] == b;
    }
  }

  ghost predicate StrictlySorted(s: seq<string>) {
    forall i, j :: 0 <= i < j < |s| ==> Before(s[i], s[j])
  }

  function Insert(x: string, s: seq<string>): seq<string> {
    if s == [] then [x]
    else if x == s[0] then s
    else if Before(x, s[0]) then [x] + s
    else [s[0]] + Insert(x, s[1..])
  }

  /** `sorted(set(xs))`. */
  function SortedSet(xs: seq<string>): seq<string> {
    if xs == [] then [] else Insert(xs[0], SortedSet(xs[1..]))
  }

  lemma {:induction false} InsertKeepsSorted(x: string, s: seq<string>)
    requires StrictlySorted(s)
    ensures StrictlySorted(Insert(x, s))
    ensures forall y :: y in Insert(x, s) <==> y == x || y in s
  {
    if s != [] && x != s[0] {
      if Before(x, s[0]) {
        forall j | 0 <= j < |s| ensures Before(x, s[j]) {
          if j > 0 { BeforeTransitive(x, s[0], s[j]); }
        }
      } else {
        BeforeTotal(x, s[0]);
        InsertKeepsSorted(x, s[1..]);
        var r := Insert(x, s[1..]);
        forall j | 0 <= j < |r| ensures Before(s[0], r[j]) {
          assert r[j] in r;
        }
        assert s == [s[0]] + s[1..];
      }
    }
  }

  lemma {:induction false} SortedSetSpec(xs: seq<string>)
    ensures StrictlySorted(SortedSet(xs))
    ensures forall y :: y in SortedSet(xs) <==> y in xs
  {
    if xs != [] {
      SortedSetSpec(xs[1..]);
      InsertKeepsSorted(xs[0], SortedSet(xs[1..]));
      assert xs == [xs[0]] + xs[1..];
    }
  }

  /** A set of strings has exactly one strictly sorted listing. */
  lemma {:induction false} SortedUnique(a: seq<string>, b: seq<string>)
    requires StrictlySorted(a) && StrictlySorted(b)
    requires forall y :: y in a <==> y in b
    ensures a == b
  {
    assert a != [] ==> a[0] in a;
    assert b != [] ==> b[0] in b;
    if a != [] && b != [] {
      assert a[0] in b && b[0] in a;
      if a[0] != b[0] {
        var i :| 0 <= i < |b| && b[i] == a[0];
        var j :| 0 <= j < |a| && a[j] == b[0];
        BeforeTransitive(a[0], b[0], a[0]);
        BeforeIrreflexive(a[0]);
        assert false;
      }
      BeforeIrreflexive(a[0]);
      assert forall k :: 0 <= k < |a[1..]| ==> a[1..][k] == a[k + 1];
      assert forall k :: 0 <= k < |b[1..]| ==> b[1..][k] == b[k + 1];
      forall y ensures y in a[1..] <==> y in a && y != a[0] {
        assert a == [a[0]] + a[1..];
      }
      forall y ensures y in b[1..] <==> y in b && y != a[0] {
        assert b == [b[0]] + b[1..];
      }
      SortedUnique(a[1..], b[1..]);
      assert a == [a[0]] + a[1..] && b == [b[0]] + b[1..];
    }
  }

  lemma SortedSetOfSorted(s: seq<string>)
    requires StrictlySorted(s)
    ensures SortedSet(s) == s
  {
    SortedSetSpec(s);
    SortedUnique(SortedSet(s), s);
  }

  // ---- whitespace ------------------------------------------------------

  /** The characters `str.isspace`, `str.strip` and the regular expression `\s` agree on. */
  predicate IsSpace(c: char) {
    var n := c as int;
    || 0x09 <= n <= 0x0d || 0x1c <= n <= 0x20 || n == 0x85 || n == 0xa0 || n == 0x1680
    || 0x2000 <= n <= 0x200a || n == 0x2028 || n == 0x2029 || n == 0x202f || n == 0x205f || n == 0x3000
  }

  function LStrip(s: string): string {
    if s != [] && IsSpace(s[0]) then LStrip(s[1..]) else s
  }

  function RStrip(s: string): string {
    if s != [] && IsSpace(Last(s)) then RStrip(Front(s)) else s
  }

  /** `s.strip()`. */
  function Strip(s: string): string {
    RStrip(LStrip(s))
  }

  ghost predicate AllSpace(s: string) {
    forall c | c in s :: IsSpace(c)
  }

  lemma {:induction false} LStripMeaning(s: string) returns (gone: string)
    ensures s == gone + LStrip(s) && AllSpace(gone)
    ensures LStrip(s) != "" ==> !IsSpace(LStrip(s)[0])
  {
    if s != "" && IsSpace(s[0]) {
      var more := LStripMeaning(s[1..]);
      gone := [s[0]] + more;
      assert s == [s[0]] + s[1..];
    } else {
      gone := "";
    }
  }

  lemma {:induction false} RStripMeaning(s: string) returns (gone: string)
    ensures s == RStrip(s) + gone && AllSpace(gone)
    ensures RStrip(s) != "" ==> !IsSpace(Last(RStrip(s)))
  {
    if s != "" && IsSpace(Last(s)) {
      var more := RStripMeaning(Front(s));
      gone := more + [Last(s)];
      assert s == Front(s) + [Last(s)];
    } else {
      gone := "";
    }
  }

  /** Stripping takes the white space at both ends and nothing else. */
  lemma StripMeaning(s: string) returns (left: string, right: string)
    ensures s == left + Strip(s) + right && AllSpace(left) && AllSpace(right)
    ensures Strip(s) != "" ==> !IsSpace(Strip(s)[0]) && !IsSpace(Last(Strip(s)))
  {
    left := LStripMeaning(s);
    right := RStripMeaning(LStrip(s));
    if Strip(s) != "" { assert LStrip(s)[0] == Strip(s)[0]; }
  }

  lemma {:induction false} LStripAround(left: string, rest: string)
    requires AllSpace(left) && (rest != "" ==> !IsSpace(rest[0]))
    ensures LStrip(left + rest) == rest
  {
    if left == "" {
      assert left + rest == rest;
    } else {
      assert left[0] in left && (left + rest)[1..] == left[1..] + rest;
      LStripAround(left[1..], rest);
    }
  }

  lemma {:induction false} RStripAround(rest: string, right: string)
    requires AllSpace(right) && (rest != "" ==> !IsSpace(Last(rest)))
    ensures RStrip(rest + right) == rest
  {
    if right == "" {
      assert rest + right == rest;
    } else {
      assert Last(right) in right && Front(rest + right) == rest + Front(right);
      RStripAround(rest, Front(right));
    }
  }

  /** Text that has none at its ends is found again between any white space. */
  lemma StripAround(left: string, text: string, right: string)
    requires AllSpace(left) && AllSpace(right) && text != "" && !IsSpace(text[0]) && !IsSpace(Last(text))
    ensures Strip(left + text + right) == text
  {
    assert left + text + right == left + (text + right);
    LStripAround(left, text + right);
    RStripAround(text, right);
  }

  lemma BlankExactly(s: string)
    ensures Strip(s) == "" <==> AllSpace(s)
  {
    var left, right := StripMeaning(s);
    if Strip(s) != "" {
      assert s[|left|] == Strip(s)[0];
    }
  }

  // ---- hexadecimal digests ------------------------------------------------

  predicate Hex(c: char) { '0' <= c <= '9' || 'a' <= c <= 'f' }

  /** What `hexdigest` of a SHA-256 looks like. */
  predicate HexDigest(s: string) {
    |s| == 64 && forall c :: c in s ==> Hex(c)
  }
}
