/**
 The URL set of one domain: harvester output lines, each given a scheme
 when it lacks one, collected into a set.
 */
module UrlSet {
  import opened Wrappers
  import opened Text

  const SchemeSeparator: string := "://"
  const DefaultScheme: string := "https://"

  lemma DefaultSchemeHasSeparator(rest: string)
    ensures Contains(DefaultScheme + rest, SchemeSeparator)
  {
    var s := DefaultScheme + rest;
    assert s == "https" + (SchemeSeparator + rest);
    assert HasPrefix(SchemeSeparator + rest, SchemeSeparator);
    ContainsAfterPrefix("https", SchemeSeparator + rest, SchemeSeparator);
  }

  /**
   The normalisation in `addURLsFromFile`: a line with `://` anywhere is kept
   as it is, any other line gets `https://` in front. The result always has
   `://`.
   */
  function Normalize(line: string): (url: string)
    ensures Contains(url, SchemeSeparator)
    ensures url == line <==> Contains(line, SchemeSeparator)
    ensures url != line ==> url == DefaultScheme + line
  {
    if Contains(line, SchemeSeparator) then line
    else
      DefaultSchemeHasSeparator(line);
      DefaultScheme + line
  }

  /** Normalising a normalised URL changes nothing. */
  lemma NormalizeIdempotent(line: string)
    ensures Normalize(Normalize(line)) == Normalize(line)
  {
  }

  /** A blank line becomes the bare scheme. */
  lemma NormalizeBlank()
    ensures Normalize("") == "https://"
  {
    assert !HasPrefix("", SchemeSeparator);
  }

  /**
   A line without a scheme and the same line with `https://` collapse to one
   entry: `example.com/a` and `https://example.com/a` both give the latter.
   */
  lemma NormalizeMergesSchemeless(line: string)
    requires !Contains(line, SchemeSeparator)
    ensures Normalize(line) == Normalize(DefaultScheme + line) == DefaultScheme + line
  {
  }

  /** The URLs the given lines contribute. */
  function Normalized(lines: seq<string>): set<string>
  {
    set k | 0 <= k < |lines| :: Normalize(lines[k])
  }

  /**
   The line loop of `addURLsFromFile` over a set: the result is the old set
   together with every normalised line, and it grows by at most one entry
   per line.
   */
  function AddUrls(urls: set<string>, lines: seq<string>): (r: set<string>)
    ensures r == urls + Normalized(lines)
    ensures |r| <= |urls| + |lines|
    decreases |lines|
  {
    if lines == [] then urls
    else
      NormalizedCons(lines);
      AddUrls(urls + {Normalize(lines[0])}, lines[1..])
  }

  lemma NormalizedCons(lines: seq<string>)
    requires lines != []
    ensures Normalized(lines) == {Normalize(lines[0])} + Normalized(lines[1..])
  {
    forall u | u in Normalized(lines)
      ensures u in {Normalize(lines[0])} + Normalized(lines[1..])
    {
      var k :| 0 <= k < |lines| && Normalize(lines[k]) == u;
      if k > 0 {
        assert Normalize(lines[1..][k - 1]) == u;
      }
    }
    forall u | u in Normalized(lines[1..])
      ensures u in Normalized(lines)
    {
      var k :| 0 <= k < |lines[1..]| && Normalize(lines[1..][k]) == u;
      assert Normalize(lines[k + 1]) == u;
    }
  }

  /** Every entry of a URL set has a scheme separator. */
  predicate AllHaveScheme(urls: set<string>) {
    forall u | u in urls :: Contains(u, SchemeSeparator)
  }

  /** Adding lines keeps the invariant that every entry has a scheme, and keeps every old entry. */
  lemma AddUrlsKeepsScheme(urls: set<string>, lines: seq<string>)
    requires AllHaveScheme(urls)
    ensures AllHaveScheme(AddUrls(urls, lines))
    ensures urls <= AddUrls(urls, lines)
  {
  }

  /** A file read twice adds nothing the first reading did not. */
  lemma AddUrlsDuplicateLines(urls: set<string>, lines: seq<string>)
    ensures AddUrls(urls, lines + lines) == AddUrls(urls, lines)
  {
    assert Normalized(lines + lines) == Normalized(lines) by {
      forall u | u in Normalized(lines + lines)
        ensures u in Normalized(lines)
      {
        var k :| 0 <= k < |lines + lines| && Normalize((lines + lines)[k]) == u;
        if k < |lines| {
          assert Normalize(lines[k]) == u;
        } else {
          assert Normalize(lines[k - |lines|]) == u;
        }
      }
      forall u | u in Normalized(lines)
        ensures u in Normalized(lines + lines)
      {
        var k :| 0 <= k < |lines| && Normalize(lines[k]) == u;
        assert Normalize((lines + lines)[k]) == u;
      }
    }
  }

  /**
   Two harvesters' files give the same set whichever is merged first, so the
   order in which concurrent harvesters finish does not matter.
   */
  lemma AddUrlsCommute(urls: set<string>, a: seq<string>, b: seq<string>)
    ensures AddUrls(AddUrls(urls, a), b) == AddUrls(AddUrls(urls, b), a)
  {
  }

  /** A line without a colon gets the default scheme. */
  lemma ColonFreeLineGetsScheme(s: string)
    requires forall k | 0 <= k < |s| :: s[k] != ':'
    ensures Normalize(s) == DefaultScheme + s
  {
    ContainsIffOccurs(s, SchemeSeparator);
    forall k
      ensures !OccursAt(s, SchemeSeparator, k)
    {
      if 0 <= k && k + |SchemeSeparator| <= |s| {
        assert s[k..k + |SchemeSeparator|][0] == s[k];
        assert s[k] != ':';
      }
    }
  }

  /**
   A file holding a URL both without and with `https://`
   (`example.com/a`, `https://example.com/a`) adds a single entry.
   */
  lemma SchemelessDuplicatesCollapse(urls: set<string>, line: string)
    requires !Contains(line, SchemeSeparator)
    ensures AddUrls(urls, [line, DefaultScheme + line]) == urls + {DefaultScheme + line}
  {
    var full := DefaultScheme + line;
    var lines := [line, full];
    DefaultSchemeHasSeparator(line);
    assert Normalize(full) == full;
    assert Normalized(lines) == {full} by {
      forall u | u in Normalized(lines)
        ensures u == full
      {
        var k :| 0 <= k < 2 && Normalize(lines[k]) == u;
      }
      assert Normalize(lines[0]) == full;
    }
  }

  /**
   The scanning loop of `addURLsFromFile`, inserting one line at a time into
   the set.
   */
  method AddUrlsFromLines(urls: set<string>, lines: seq<string>) returns (r: set<string>)
    ensures r == urls + Normalized(lines)
  {
    r := urls;
    var i := 0;
    while i < |lines|
      invariant i <= |lines|
      invariant r == urls + Normalized(lines[..i])
    {
      var url := lines[i];
      if !Contains(url, SchemeSeparator) {
        url := DefaultScheme + url;
      }
      assert url == Normalize(lines[i]);
      assert Normalized(lines[..i + 1]) == Normalized(lines[..i]) + {url} by {
        assert lines[..i + 1] == lines[..i] + [lines[i]];
        forall u | u in Normalized(lines[..i + 1])
          ensures u in Normalized(lines[..i]) + {url}
        {
          var k :| 0 <= k < i + 1 && Normalize(lines[..i + 1][k]) == u;
          if k < i {
            assert Normalize(lines[..i][k]) == u;
          }
        }
        forall u | u in Normalized(lines[..i]) + {url}
          ensures u in Normalized(lines[..i + 1])
        {
          if u == url {
            assert Normalize(lines[..i + 1][i]) == u;
          } else {
            var k :| 0 <= k < i && Normalize(lines[..i][k]) == u;
            assert Normalize(lines[..i + 1][k]) == u;
          }
        }
      }
      r := r + {url};
      i := i + 1;
    }
    assert lines[..i] == lines;
  }

  /**
   The harvester fan-out of one domain: each tool either produced lines or
   failed (`None`), and a failed tool adds nothing. A URL is harvested
   exactly when some successful tool printed a line that normalises to it.
   */
  function Harvest(outputs: seq<Option<seq<string>>>): (r: set<string>)
    ensures AllHaveScheme(r)
    ensures forall u :: u in r <==>
      exists t | 0 <= t < |outputs| && outputs[t].Some? :: u in Normalized(outputs[t].value)
  {
    if outputs == [] then {}
    else
      var rest := Harvest(outputs[1..]);
      var here := match outputs[0] case Some(lines) => Normalized(lines) case None => {};
      var r := here + rest;
      assert forall u :: u in r <==>
        exists t | 0 <= t < |outputs| && outputs[t].Some? :: u in Normalized(outputs[t].value) by {
        forall u | u in r
          ensures exists t | 0 <= t < |outputs| && outputs[t].Some? :: u in Normalized(outputs[t].value)
        {
          if u !in here {
            var t :| 0 <= t < |outputs[1..]| && outputs[1..][t].Some? && u in Normalized(outputs[1..][t].value);
            assert outputs[t + 1] == outputs[1..][t];
          }
        }
        forall u, t | 0 <= t < |outputs| && outputs[t].Some? && u in Normalized(outputs[t].value)
          ensures u in r
        {
          if t > 0 {
            assert outputs[1..][t - 1] == outputs[t];
          }
        }
      }
      r
  }
}
