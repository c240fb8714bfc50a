/**
 Go's string helpers, as the program relies on them: white space as
 `unicode.IsSpace` defines it, `strings.TrimSpace`, `strings.HasPrefix`,
 `strings.Contains`, `strings.Fields`, `strings.Join`, and the decimal
 rendering `fmt` uses for a non-negative `%d`.
 */
module Text {

  /** The code points `unicode.IsSpace` accepts (the Unicode White_Space property). */
  predicate IsSpace(c: char) {
    || c == ' ' || c == '\t' || c == '\n' || c == '\U{0B}' || c == '\U{0C}' || c == '\r'
    || c == '\U{85}' || c == '\U{A0}' || c == '\U{1680}'
    || ('\U{2000}' <= c <= '\U{200A}')
    || c == '\U{2028}' || c == '\U{2029}' || c == '\U{202F}' || c == '\U{205F}' || c == '\U{3000}'
  }

  /** No white space at either end. */
  predicate Unpadded(s: string) {
    s == [] || (!IsSpace(s[0]) && !IsSpace(s[|s| - 1]))
  }

  /** Every character of `s` is white space. */
  predicate AllSpace(s: string) {
    forall k | 0 <= k < |s| :: IsSpace(s[k])
  }

  /** Number of white-space characters at the front of `s`. */
  function LeadingSpace(s: string): (n: nat)
    ensures n <= |s|
    ensures forall k | 0 <= k < n :: IsSpace(s[k])
    ensures n == |s| || !IsSpace(s[n])
  {
    if s != [] && IsSpace(s[0]) then 1 + LeadingSpace(s[1..]) else 0
  }

  /** `strings.TrimLeftFunc(s, unicode.IsSpace)`: the suffix after the leading white space. */
  function TrimLeft(s: string): (r: string)
    ensures r == s[LeadingSpace(s)..]
    ensures r == [] || !IsSpace(r[0])
  {
    if s != [] && IsSpace(s[0]) then TrimLeft(s[1..]) else s
  }

  /** `strings.TrimRightFunc(s, unicode.IsSpace)`: the prefix before the trailing white space. */
  function TrimRight(s: string): (r: string)
    ensures |r| <= |s| && r == s[..|r|]
    ensures r == [] || !IsSpace(r[|r| - 1])
    ensures forall k | |r| <= k < |s| :: IsSpace(s[k])
  {
    if s != [] && IsSpace(s[|s| - 1]) then TrimRight(s[..|s| - 1]) else s
  }

  /**
   `strings.TrimSpace`: the longest white-space-free-ended slice of `s`;
   everything cut away is white space, and nothing is left exactly when
   `s` is all white space.
   */
  function TrimSpace(s: string): (r: string)
    ensures Unpadded(r)
    ensures LeadingSpace(s) + |r| <= |s|
    ensures r == s[LeadingSpace(s)..LeadingSpace(s) + |r|]
    ensures forall k | LeadingSpace(s) + |r| <= k < |s| :: IsSpace(s[k])
    ensures r == [] <==> AllSpace(s)
  {
    TrimRight(TrimLeft(s))
  }

  /** Trimming an already trimmed string changes nothing. */
  lemma {:induction false} TrimSpaceOfUnpadded(s: string)
    requires Unpadded(s)
    ensures TrimSpace(s) == s
  {
    if s != [] {
      assert LeadingSpace(s) == 0;
    }
  }

  /** `strings.HasPrefix`. */
  predicate HasPrefix(s: string, prefix: string) {
    |prefix| <= |s| && s[..|prefix|] == prefix
  }

  /** `pattern` occurs in `s` starting at index `k`. */
  ghost predicate OccursAt(s: string, pattern: string, k: int) {
    0 <= k && k + |pattern| <= |s| && s[k..k + |pattern|] == pattern
  }

  /** `strings.Contains`: a left-to-right search for `pattern`. */
  predicate Contains(s: string, pattern: string)
    decreases |s|
  {
    HasPrefix(s, pattern) || (s != [] && Contains(s[1..], pattern))
  }

  /** The search finds `pattern` exactly when it occurs at some index of `s`. */
  lemma {:induction false} ContainsIffOccurs(s: string, pattern: string)
    ensures Contains(s, pattern) <==> exists k :: OccursAt(s, pattern, k)
    decreases |s|
  {
    if HasPrefix(s, pattern) {
      assert OccursAt(s, pattern, 0);
    } else if s == [] {
    } else {
      ContainsIffOccurs(s[1..], pattern);
      if exists k :: OccursAt(s[1..], pattern, k) {
        var k :| OccursAt(s[1..], pattern, k);
        assert s[k + 1..k + 1 + |pattern|] == s[1..][k..k + |pattern|];
        assert OccursAt(s, pattern, k + 1);
      }
      if exists k :: OccursAt(s, pattern, k) {
        var k :| OccursAt(s, pattern, k);
        assert k != 0;
        assert s[1..][k - 1..k - 1 + |pattern|] == s[k..k + |pattern|];
        assert OccursAt(s[1..], pattern, k - 1);
      }
    }
  }

  /** A pattern found in `s` is also found in `p + s`. */
  lemma {:induction false} ContainsAfterPrefix(p: string, s: string, pattern: string)
    requires Contains(s, pattern)
    ensures Contains(p + s, pattern)
    decreases |p|
  {
    if p != [] {
      ContainsAfterPrefix(p[1..], s, pattern);
      assert (p + s)[1..] == p[1..] + s;
      assert Contains((p + s)[1..], pattern);
    } else {
      assert p + s == s;
    }
  }

  /** A pattern found in `s` is also found in `s + t`. */
  lemma ContainsBeforeSuffix(s: string, t: string, pattern: string)
    requires Contains(s, pattern)
    ensures Contains(s + t, pattern)
  {
    ContainsIffOccurs(s, pattern);
    ContainsIffOccurs(s + t, pattern);
    var k :| OccursAt(s, pattern, k);
    assert (s + t)[k..k + |pattern|] == s[k..k + |pattern|];
    assert OccursAt(s + t, pattern, k);
  }

  /** Every string is found in any text that has it as a piece. */
  lemma ContainsPiece(a: string, x: string, b: string)
    ensures Contains(a + x + b, x)
  {
    assert (x + b)[..|x|] == x;
    assert Contains(x + b, x);
    ContainsAfterPrefix(a, x + b, x);
    assert a + x + b == a + (x + b);
  }

  /** Length of the longest prefix of `s` holding no white space. */
  function WordLength(s: string): (n: nat)
    ensures n <= |s|
    ensures forall k | 0 <= k < n :: !IsSpace(s[k])
    ensures n == |s| || IsSpace(s[n])
  {
    if s != [] && !IsSpace(s[0]) then 1 + WordLength(s[1..]) else 0
  }

  /** `s` with every white-space character removed. */
  function NonSpace(s: string): string
  {
    if s == [] then []
    else (if IsSpace(s[0]) then [] else [s[0]]) + NonSpace(s[1..])
  }

  /** The concatenation of a sequence of strings. */
  function Concat(parts: seq<string>): string
  {
    if parts == [] then [] else parts[0] + Concat(parts[1..])
  }

  lemma {:induction false} NonSpaceAppend(a: string, b: string)
    ensures NonSpace(a + b) == NonSpace(a) + NonSpace(b)
    decreases |a|
  {
    if a != [] {
      var head := if IsSpace(a[0]) then [] else [a[0]];
      assert (a + b)[0] == a[0];
      assert (a + b)[1..] == a[1..] + b;
      NonSpaceAppend(a[1..], b);
      assert NonSpace(a + b) == head + NonSpace(a[1..] + b);
      assert NonSpace(a) == head + NonSpace(a[1..]);
    } else {
      assert a + b == b;
    }
  }

  lemma {:induction false} NonSpaceOfAllSpace(s: string)
    requires AllSpace(s)
    ensures NonSpace(s) == []
    decreases |s|
  {
    if s != [] {
      NonSpaceOfAllSpace(s[1..]);
    }
  }

  lemma {:induction false} NonSpaceOfWord(s: string)
    requires forall k | 0 <= k < |s| :: !IsSpace(s[k])
    ensures NonSpace(s) == s
    decreases |s|
  {
    if s != [] {
      NonSpaceOfWord(s[1..]);
      assert s == [s[0]] + s[1..];
    }
  }

  /**
   `strings.Fields`: the maximal runs of non-white-space characters of `s`,
   in order. No field is empty or holds white space.
   */
  function Fields(s: string): (r: seq<string>)
    ensures forall i | 0 <= i < |r| :: IsWord(r[i])
    decreases |s|
  {
    var t := TrimLeft(s);
    if t == [] then []
    else
      var w := WordLength(t);
      LeadingWord(t);
      [t[..w]] + Fields(t[w..])
  }

  /** A non-empty string without white space. */
  predicate IsWord(w: string) {
    w != [] && forall k | 0 <= k < |w| :: !IsSpace(w[k])
  }

  /** A string that starts with a non-space character starts with a word. */
  lemma LeadingWord(t: string)
    requires t != [] && !IsSpace(t[0])
    ensures IsWord(t[..WordLength(t)])
  {
  }

  /** Together the fields are exactly the non-white-space characters of `s`. */
  lemma {:induction false} FieldsCoverNonSpace(s: string)
    ensures Concat(Fields(s)) == NonSpace(s)
    decreases |s|
  {
    var t := TrimLeft(s);
    NonSpaceAfterLeadingSpace(s);
    if t != [] {
      var w := WordLength(t);
      NonSpaceOfLeadingWord(t);
      FieldsCoverNonSpace(t[w..]);
      var parts := [t[..w]] + Fields(t[w..]);
      assert parts[0] == t[..w] && parts[1..] == Fields(t[w..]);
    }
  }

  /** Leading white space contributes nothing to the non-space characters. */
  lemma NonSpaceAfterLeadingSpace(s: string)
    ensures NonSpace(s) == NonSpace(TrimLeft(s))
  {
    var n := LeadingSpace(s);
    assert s == s[..n] + TrimLeft(s);
    NonSpaceOfAllSpace(s[..n]);
    NonSpaceAppend(s[..n], TrimLeft(s));
  }

  /** A leading word is kept whole by `NonSpace`. */
  lemma NonSpaceOfLeadingWord(t: string)
    ensures NonSpace(t) == t[..WordLength(t)] + NonSpace(t[WordLength(t)..])
  {
    var w := WordLength(t);
    assert t == t[..w] + t[w..];
    NonSpaceAppend(t[..w], t[w..]);
    NonSpaceOfWord(t[..w]);
  }

  /** A non-empty string without white space is a single field. */
  lemma {:induction false} FieldsOfWord(s: string)
    requires s != []
    requires forall k | 0 <= k < |s| :: !IsSpace(s[k])
    ensures Fields(s) == [s]
  {
    assert LeadingSpace(s) == 0;
    var w := WordLength(s);
    assert w == |s|;
    assert TrimLeft(s) == s;
    assert s[..w] == s;
    assert s[w..] == [];
    assert TrimLeft(s[w..]) == [];
    assert Fields(s[w..]) == [];
  }

  /** A string that starts with white space has the fields of the rest of it. */
  lemma FieldsDropSpace(s: string)
    requires s != [] && IsSpace(s[0])
    ensures Fields(s) == Fields(s[1..])
  {
    assert TrimLeft(s) == TrimLeft(s[1..]);
  }

  /** A string of white space only has no fields. */
  lemma FieldsOfAllSpace(s: string)
    requires AllSpace(s)
    ensures Fields(s) == []
  {
    assert LeadingSpace(s) == |s|;
  }

  /** Appending to `a` does not lengthen its leading word when that word ends inside `a` or at white space. */
  lemma {:induction false} WordLengthAppend(a: string, x: string)
    requires WordLength(a) < |a| || (x != [] && IsSpace(x[0]))
    ensures WordLength(a + x) == WordLength(a)
    decreases |a|
  {
    if a == [] {
      assert a + x == x;
    } else {
      assert (a + x)[0] == a[0];
      if !IsSpace(a[0]) {
        assert (a + x)[1..] == a[1..] + x;
        WordLengthAppend(a[1..], x);
      }
    }
  }

  /** A string that starts with a non-space character has its leading word as first field. */
  lemma FieldsOfLeadingWord(t: string)
    requires t != [] && !IsSpace(t[0])
    ensures Fields(t) == [t[..WordLength(t)]] + Fields(t[WordLength(t)..])
  {
    assert TrimLeft(t) == t;
  }

  /**
   `strings.Fields` splits at every white-space character and nowhere else:
   the fields around a white-space character are the fields of the two sides.
   With `FieldsOfWord` and `FieldsOfAllSpace` this makes each field a maximal
   run of non-white-space characters.
   */
  lemma {:induction false} FieldsSplitAtSpace(a: string, c: char, b: string)
    requires IsSpace(c)
    ensures Fields(a + [c] + b) == Fields(a) + Fields(b)
    decreases |a|
  {
    if a == [] {
      SpaceThenRest(c, b);
    } else if IsSpace(a[0]) {
      FieldsSplitAtSpace(a[1..], c, b);
      SplitPastSpace(a, c, b);
    } else if WordLength(a) == |a| {
      WordThenSpace(a, c, b);
      FieldsOfWord(a);
    } else {
      FieldsSplitAtSpace(a[WordLength(a)..], c, b);
      SplitPastWord(a, c, b);
    }
  }

  /** White space in front of `b` adds no field. */
  lemma SpaceThenRest(c: char, b: string)
    requires IsSpace(c)
    ensures Fields([] + [c] + b) == Fields([]) + Fields(b)
  {
    assert [] + [c] + b == [c] + b && ([c] + b)[1..] == b;
    FieldsDropSpace([c] + b);
  }

  /** The step of `FieldsSplitAtSpace` past leading white space of `a`. */
  lemma SplitPastSpace(a: string, c: char, b: string)
    requires IsSpace(c) && a != [] && IsSpace(a[0])
    requires Fields(a[1..] + [c] + b) == Fields(a[1..]) + Fields(b)
    ensures Fields(a + [c] + b) == Fields(a) + Fields(b)
  {
    ConsAround(a, [c], b);
    FieldsDropSpace(a + [c] + b);
    FieldsDropSpace(a);
  }

  /** Dropping the first character of `a + m + b` drops it from `a`. */
  lemma ConsAround(a: string, m: string, b: string)
    requires a != []
    ensures (a + m + b)[0] == a[0]
    ensures (a + m + b)[1..] == a[1..] + m + b
  {
  }

  /** The step of `FieldsSplitAtSpace` past a leading word that ends inside `a`. */
  lemma SplitPastWord(a: string, c: char, b: string)
    requires IsSpace(c) && a != [] && !IsSpace(a[0]) && WordLength(a) < |a|
    requires Fields(a[WordLength(a)..] + [c] + b) == Fields(a[WordLength(a)..]) + Fields(b)
    ensures Fields(a + [c] + b) == Fields(a) + Fields(b)
  {
    var w := WordLength(a);
    WordThenMore(a, c, b);
    FieldsOfLeadingWord(a);
    AppendAssoc([a[..w]], Fields(a[w..]), Fields(b));
  }

  lemma AppendAssoc<T>(x: seq<T>, y: seq<T>, z: seq<T>)
    ensures x + (y + z) == (x + y) + z
  {
  }

  /** A word followed by white space is the first field, and the rest is split on its own. */
  lemma WordThenSpace(a: string, c: char, b: string)
    requires IsSpace(c) && a != [] && WordLength(a) == |a|
    ensures Fields(a + [c] + b) == [a] + Fields(b)
  {
    var s := a + ([c] + b);
    assert a + [c] + b == s;
    WordLengthAppend(a, [c] + b);
    FieldsOfLeadingWord(s);
    assert s[..|a|] == a && s[|a|..] == [c] + b;
    FieldsDropSpace([c] + b);
    assert ([c] + b)[1..] == b;
  }

  /** A leading word that ends inside `a` is the first field of `a + [c] + b` too. */
  lemma WordThenMore(a: string, c: char, b: string)
    requires IsSpace(c) && a != [] && !IsSpace(a[0]) && WordLength(a) < |a|
    ensures Fields(a + [c] + b) == [a[..WordLength(a)]] + Fields(a[WordLength(a)..] + [c] + b)
  {
    var w := WordLength(a);
    var s := a + ([c] + b);
    calc {
      Fields(a + [c] + b);
    == { assert a + [c] + b == s; }
      Fields(s);
    == { WordLengthAppend(a, [c] + b); FieldsOfLeadingWord(s); }
      [s[..w]] + Fields(s[w..]);
    == { assert s[..w] == a[..w]; assert s[w..] == a[w..] + [c] + b; }
      [a[..w]] + Fields(a[w..] + [c] + b);
    }
  }

  /** The lengths of all the parts, added up. */
  function TotalLength(parts: seq<string>): nat
  {
    if parts == [] then 0 else |parts[0]| + TotalLength(parts[1..])
  }

  /** The length of the separators between `n` parts: one fewer than there are parts. */
  function SeparatorLength(n: nat, sep: string): nat
  {
    if n <= 1 then 0 else |sep| + SeparatorLength(n - 1, sep)
  }

  lemma {:induction false} SeparatorLengthIsProduct(n: nat, sep: string)
    requires n >= 1
    ensures SeparatorLength(n, sep) == (n - 1) * |sep|
  {
    if n > 1 {
      SeparatorLengthIsProduct(n - 1, sep);
      assert (n - 1) * |sep| == |sep| + (n - 2) * |sep|;
    }
  }

  /**
   `strings.Join`: the parts in order with `sep` between neighbours, so the
   result is as long as the parts together plus one separator fewer than
   there are parts.
   */
  function Join(parts: seq<string>, sep: string): (r: string)
    ensures |r| == TotalLength(parts) + SeparatorLength(|parts|, sep)
  {
    if parts == [] then []
    else if |parts| == 1 then parts[0]
    else parts[0] + sep + Join(parts[1..], sep)
  }

  /** Every part can be found in the joined text. */
  lemma {:induction false} JoinContainsEachPart(parts: seq<string>, sep: string, k: nat)
    requires k < |parts|
    ensures Contains(Join(parts, sep), parts[k])
    decreases |parts|
  {
    if |parts| == 1 {
      ContainsPiece([], parts[0], []);
      assert [] + parts[0] + [] == parts[0];
    } else if k == 0 {
      ContainsPiece([], parts[0], sep + Join(parts[1..], sep));
      assert [] + parts[0] + (sep + Join(parts[1..], sep)) == Join(parts, sep);
    } else {
      JoinContainsEachPart(parts[1..], sep, k - 1);
      ContainsAfterPrefix(parts[0] + sep, Join(parts[1..], sep), parts[k]);
    }
  }

  /**
   Joining two non-empty lists of parts is joining each and putting the
   separator between them: the parts come in order, with `sep` between
   every two neighbours and nowhere else.
   */
  lemma {:induction false} JoinAppend(a: seq<string>, b: seq<string>, sep: string)
    requires a != [] && b != []
    ensures Join(a + b, sep) == Join(a, sep) + sep + Join(b, sep)
    decreases |a|
  {
    assert (a + b)[0] == a[0];
    if |a| == 1 {
      assert (a + b)[1..] == b;
    } else {
      assert (a + b)[1..] == a[1..] + b;
      JoinAppend(a[1..], b, sep);
      AppendAssoc(a[0] + sep, Join(a[1..], sep), sep + Join(b, sep));
    }
  }

  /** Adding a part at the end adds the separator and that part. */
  lemma JoinSnoc(parts: seq<string>, x: string, sep: string)
    requires parts != []
    ensures Join(parts + [x], sep) == Join(parts, sep) + sep + x
  {
    JoinAppend(parts, [x], sep);
  }

  /** The decimal digit for `d`. */
  function DigitChar(d: nat): char
    requires d < 10
  {
    "0123456789"[d]
  }

  /** The value of a decimal digit character. */
  function DigitValue(c: char): nat
    requires IsDigit(c)
  {
    (c as int - '0' as int) as nat
  }

  predicate IsDigit(c: char) {
    '0' <= c <= '9'
  }

  /** How `%d` renders a non-negative integer: digits only, no leading zero. */
  function Decimal(n: nat): (r: string)
    ensures r != []
    ensures forall k | 0 <= k < |r| :: IsDigit(r[k])
    ensures r[0] == '0' ==> n == 0
  {
    if n < 10 then [DigitChar(n)] else Decimal(n / 10) + [DigitChar(n % 10)]
  }

  /** The value of a string of decimal digits. */
  function DecimalValue(s: string): nat
    requires forall k | 0 <= k < |s| :: IsDigit(s[k])
  {
    if s == [] then 0
    else
      assert IsDigit(s[|s| - 1]);
      10 * DecimalValue(s[..|s| - 1]) + DigitValue(s[|s| - 1])
  }

  /** Reading back a rendered number gives the number. */
  lemma {:induction false} DecimalRoundTrip(n: nat)
    ensures DecimalValue(Decimal(n)) == n
  {
    if n >= 10 {
      var r := Decimal(n);
      assert r[..|r| - 1] == Decimal(n / 10);
      DecimalRoundTrip(n / 10);
    }
  }

  /** Different numbers render differently. */
  lemma DecimalInjective(m: nat, n: nat)
    requires Decimal(m) == Decimal(n)
    ensures m == n
  {
    DecimalRoundTrip(m);
    DecimalRoundTrip(n);
  }
}
