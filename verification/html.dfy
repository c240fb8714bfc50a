/**
 `html.EscapeString` as the report applies it to scan output, and the
 decoding that undoes it.
 */
module Html {

  /** The five characters `html.EscapeString` rewrites. */
  predicate IsSpecial(c: char) {
    c == '<' || c == '>' || c == '&' || c == '\'' || c == '"'
  }

  predicate NoSpecial(s: string) {
    forall k | 0 <= k < |s| :: !IsSpecial(s[k])
  }

  /** What one character becomes in escaped text. */
  function EscapeChar(c: char): string
  {
    if c == '<' then "&lt;"
    else if c == '>' then "&gt;"
    else if c == '&' then "&amp;"
    else if c == '\'' then "&#39;"
    else if c == '"' then "&#34;"
    else [c]
  }

  /**
   `html.EscapeString`: the result carries no raw `<`, `>`, `'` or `"`; it is
   never shorter than the input, and it has the input's length exactly when
   the input has nothing to escape, in which case it is the input.
   */
  function Escape(s: string): (r: string)
    ensures forall k | 0 <= k < |r| :: r[k] != '<' && r[k] != '>' && r[k] != '\'' && r[k] != '"'
    ensures |r| >= |s|
    ensures |r| == |s| <==> NoSpecial(s)
    ensures NoSpecial(s) ==> r == s
  {
    if s == [] then []
    else
      var head := EscapeChar(s[0]);
      var rest := Escape(s[1..]);
      assert NoSpecial(s) <==> !IsSpecial(s[0]) && NoSpecial(s[1..]) by {
        if !IsSpecial(s[0]) && NoSpecial(s[1..]) {
          forall k | 0 <= k < |s|
            ensures !IsSpecial(s[k])
          {
            if k > 0 {
              assert s[k] == s[1..][k - 1];
            }
          }
        }
      }
      head + rest
  }

  /** Escaping a concatenation escapes the pieces. */
  lemma {:induction false} EscapeAppend(a: string, b: string)
    ensures Escape(a + b) == Escape(a) + Escape(b)
    decreases |a|
  {
    if a == [] {
      assert a + b == b;
    } else {
      assert (a + b)[0] == a[0];
      assert (a + b)[1..] == a[1..] + b;
      EscapeAppend(a[1..], b);
    }
  }

  /** Decodes the five entities `Escape` produces and copies every other character. */
  function Unescape(s: string): string
    decreases |s|
  {
    if s == [] then []
    else if s[0] != '&' then [s[0]] + Unescape(s[1..])
    else if |s| >= 4 && s[1] == 'l' && s[2] == 't' && s[3] == ';' then "<" + Unescape(s[4..])
    else if |s| >= 4 && s[1] == 'g' && s[2] == 't' && s[3] == ';' then ">" + Unescape(s[4..])
    else if |s| >= 5 && s[1] == 'a' && s[2] == 'm' && s[3] == 'p' && s[4] == ';' then "&" + Unescape(s[5..])
    else if |s| >= 5 && s[1] == '#' && s[2] == '3' && s[3] == '9' && s[4] == ';' then "'" + Unescape(s[5..])
    else if |s| >= 5 && s[1] == '#' && s[2] == '3' && s[3] == '4' && s[4] == ';' then "\"" + Unescape(s[5..])
    else [s[0]] + Unescape(s[1..])
  }

  lemma UnescapeAfterChar(c: char, rest: string)
    ensures Unescape(EscapeChar(c) + rest) == [c] + Unescape(rest)
  {
    var x := EscapeChar(c);
    var e := x + rest;
    assert e[|x|..] == rest;
    assert forall i | 0 <= i < |x| :: e[i] == x[i];
  }

  /** Escaped output decodes back to the scan output it came from. */
  lemma {:induction false} EscapeRoundTrip(s: string)
    ensures Unescape(Escape(s)) == s
    decreases |s|
  {
    if s != [] {
      UnescapeAfterChar(s[0], Escape(s[1..]));
      EscapeRoundTrip(s[1..]);
      assert s == [s[0]] + s[1..];
    }
  }

  /** Different outputs escape differently. */
  lemma EscapeInjective(a: string, b: string)
    requires Escape(a) == Escape(b)
    ensures a == b
  {
    EscapeRoundTrip(a);
    EscapeRoundTrip(b);
  }
}
