/**
 The domain list read by `-f`: each line is trimmed of white space and
 kept when something is left, in file order.
 */
module DomainList {
  import opened Text

  /** The trimmed line, if it names a domain. */
  function DomainOfLine(line: string): seq<string>
  {
    var d := TrimSpace(line);
    if d != "" then [d] else []
  }

  /**
   `readDomainsFromFile` over the lines the scanner yields. At most one
   domain per line, and no domain is empty or carries white space at either
   end.
   */
  function ReadDomains(lines: seq<string>): (r: seq<string>)
    ensures |r| <= |lines|
    ensures forall k | 0 <= k < |r| :: r[k] != "" && Unpadded(r[k])
  {
    if lines == [] then [] else DomainOfLine(lines[0]) + ReadDomains(lines[1..])
  }

  /** Reading a file in two pieces gives the two readings one after the other. */
  lemma {:induction false} ReadDomainsAppend(a: seq<string>, b: seq<string>)
    ensures ReadDomains(a + b) == ReadDomains(a) + ReadDomains(b)
    decreases |a|
  {
    if a == [] {
      assert a + b == b;
    } else {
      assert (a + b)[0] == a[0];
      assert (a + b)[1..] == a[1..] + b;
      ReadDomainsAppend(a[1..], b);
    }
  }

  /**
   A string is read as a domain exactly when it is the non-empty trim of
   some line.
   */
  lemma {:induction false} ReadDomainsMembership(lines: seq<string>, d: string)
    ensures d in ReadDomains(lines) <==>
      d != "" && exists k | 0 <= k < |lines| :: TrimSpace(lines[k]) == d
    decreases |lines|
  {
    if lines != [] {
      ReadDomainsMembership(lines[1..], d);
      if exists k | 0 <= k < |lines[1..]| :: TrimSpace(lines[1..][k]) == d {
        var k :| 0 <= k < |lines[1..]| && TrimSpace(lines[1..][k]) == d;
        assert TrimSpace(lines[k + 1]) == d;
      }
      if exists k | 0 <= k < |lines| :: TrimSpace(lines[k]) == d {
        var k :| 0 <= k < |lines| && TrimSpace(lines[k]) == d;
        if k > 0 {
          assert TrimSpace(lines[1..][k - 1]) == d;
        }
      }
    }
  }

  /** Reading the domain list back as a file gives the same list. */
  lemma {:induction false} ReadDomainsIdempotent(lines: seq<string>)
    ensures ReadDomains(ReadDomains(lines)) == ReadDomains(lines)
    decreases |lines|
  {
    if lines != [] {
      var head := DomainOfLine(lines[0]);
      var tail := ReadDomains(lines[1..]);
      ReadDomainsAppend(head, tail);
      ReadDomainsIdempotent(lines[1..]);
      if head != [] {
        TrimSpaceOfUnpadded(head[0]);
        assert ReadDomains(head) == DomainOfLine(head[0]) + ReadDomains([]);
      }
    }
  }

  lemma ReadDomainsSnoc(lines: seq<string>, i: nat)
    requires i < |lines|
    ensures ReadDomains(lines[..i + 1]) == ReadDomains(lines[..i]) + DomainOfLine(lines[i])
  {
    assert lines[..i + 1] == lines[..i] + [lines[i]];
    ReadDomainsAppend(lines[..i], [lines[i]]);
    assert [lines[i]][1..] == [];
  }

  /** The scanning loop of `readDomainsFromFile`. */
  method ReadDomainLines(lines: seq<string>) returns (domains: seq<string>)
    ensures domains == ReadDomains(lines)
  {
    domains := [];
    var i := 0;
    while i < |lines|
      invariant i <= |lines|
      invariant domains == ReadDomains(lines[..i])
    {
      var domain := TrimSpace(lines[i]);
      ReadDomainsSnoc(lines, i);
      if domain != "" {
        domains := domains + [domain];
      }
      i := i + 1;
    }
    assert lines[..i] == lines;
  }
}
