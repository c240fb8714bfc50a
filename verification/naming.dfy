/**
 File names the program derives: the sanitised domain, the template
 basename, the scan output path, the path the report reads, and the report
 file name.
 */
module Naming {
  import opened Text

  /** `s` holds no `/`. */
  predicate NoSlash(s: string) {
    forall k | 0 <= k < |s| :: s[k] != '/'
  }

  /**
   `sanitizeFileName`: every `/` becomes `_`, every other character stays
   where it is, so the length is kept and no `/` is left.
   */
  function Sanitize(name: string): (r: string)
    ensures |r| == |name|
    ensures NoSlash(r)
    ensures forall k | 0 <= k < |name| :: name[k] == '/' ==> r[k] == '_'
    ensures forall k | 0 <= k < |name| :: name[k] != '/' ==> r[k] == name[k]
  {
    if name == [] then []
    else [if name[0] == '/' then '_' else name[0]] + Sanitize(name[1..])
  }

  /** Sanitising changes nothing in a name without `/`, so sanitising twice is sanitising once. */
  lemma SanitizeIdentity(name: string)
    requires NoSlash(name)
    ensures Sanitize(name) == name
  {
  }

  lemma SanitizeIdempotent(name: string)
    ensures Sanitize(Sanitize(name)) == Sanitize(name)
  {
    SanitizeIdentity(Sanitize(name));
  }

  /** `path` with its trailing `/` characters removed. */
  function StripTrailingSlashes(path: string): (r: string)
    ensures |r| <= |path| && r == path[..|r|]
    ensures r == [] || r[|r| - 1] != '/'
    ensures forall k | |r| <= k < |path| :: path[k] == '/'
  {
    if path != [] && path[|path| - 1] == '/' then StripTrailingSlashes(path[..|path| - 1]) else path
  }

  /**
   `r` is the last element of `s`: a `/`-free suffix of `s` that is either
   all of `s` or preceded by a `/`.
   */
  predicate LastElement(s: string, r: string) {
    && |r| <= |s| && r == s[|s| - |r|..]
    && NoSlash(r)
    && (|r| == |s| || s[|s| - |r| - 1] == '/')
  }

  /** `path` holds nothing but `/`. */
  predicate AllSlashes(path: string) {
    forall k | 0 <= k < |path| :: path[k] == '/'
  }

  /** The part of `s` after its last `/`, or all of `s` when it has none. */
  function AfterLastSlash(s: string): (r: string)
    ensures LastElement(s, r)
  {
    if s == [] || s[|s| - 1] == '/' then []
    else AfterLastSlash(s[..|s| - 1]) + [s[|s| - 1]]
  }

  /**
   `filepath.Base` with `/` as separator: `"."` for the empty path, `"/"`
   exactly for a non-empty path of slashes only, and otherwise the last
   element of the path once its trailing slashes are removed. The result is
   never empty and holds a `/` only when it is exactly `"/"`.
   */
  function Base(path: string): (r: string)
    ensures r != []
    ensures r == "/" || NoSlash(r)
    ensures path == [] ==> r == "."
    ensures r == "/" <==> path != [] && AllSlashes(path)
    ensures path != [] && r != "/" ==> LastElement(StripTrailingSlashes(path), r)
    ensures path != [] && NoSlash(path) ==> r == path
  {
    if path == [] then "."
    else
      var stripped := StripTrailingSlashes(path);
      if stripped == [] then "/"
      else
        var r := AfterLastSlash(stripped);
        if |r| < |stripped| then r
        else
          assert r == stripped;
          r
  }

  /**
   A path whose part after the `/` at `slash` is a non-empty `/`-free name
   has that name as its basename: `fuzzing-templates/lfi` has `lfi`.
   */
  lemma BaseAfterSlash(path: string, slash: nat)
    requires slash < |path| - 1 && path[slash] == '/'
    requires NoSlash(path[slash + 1..])
    ensures Base(path) == path[slash + 1..]
  {
    var name := path[slash + 1..];
    assert path[|path| - 1] == name[|name| - 1];
    var stripped := StripTrailingSlashes(path);
    assert stripped == path;
  }

  /** A template is its own basename exactly when it is a non-empty `/`-free name, or `"/"`. */
  lemma BaseFixedPoint(t: string)
    ensures Base(t) == t <==> (t != [] && NoSlash(t)) || t == "/"
  {
    if t == "/" {
      assert StripTrailingSlashes(t) == [];
    }
  }

  const ResultsDir: string := "Results/"
  const OutputSuffix: string := "_output.txt"

  /** Where `performNucleiScan` writes: the sanitised domain and the template's basename. */
  function ScanOutputPath(domain: string, template: string): string
  {
    ResultsDir + Sanitize(domain) + "_" + Base(template) + OutputSuffix
  }

  /** Where `generateHTMLReport` reads a template's output: the template path as given. */
  function ReportLookupPath(domain: string, template: string): string
  {
    ResultsDir + Sanitize(domain) + "_" + template + OutputSuffix
  }

  /** The report `generateHTMLReport` creates in the working directory. */
  function ReportFileName(domain: string): string
  {
    Sanitize(domain) + ReportSuffix
  }

  /**
   The scan output path is a file directly in the results directory: past
   the directory prefix it holds no `/`, unless the template is all slashes.
   */
  lemma ScanOutputPathIsFlat(domain: string, template: string)
    requires Base(template) != "/"
    ensures HasPrefix(ScanOutputPath(domain, template), ResultsDir)
    ensures NoSlash(ScanOutputPath(domain, template)[|ResultsDir|..])
  {
    assert ScanOutputPath(domain, template)
      == ResultsDir + (Sanitize(domain) + "_" + Base(template) + OutputSuffix);
    FlatOutputName(Sanitize(domain), Base(template));
    PrefixAndRest(ResultsDir, Sanitize(domain) + "_" + Base(template) + OutputSuffix);
  }

  /** A path built as `a + rest` starts with `a` and continues with `rest`. */
  lemma PrefixAndRest(a: string, rest: string)
    ensures HasPrefix(a + rest, a)
    ensures (a + rest)[|a|..] == rest
  {
    assert (a + rest)[..|a|] == a;
  }

  /** The first characters of a path built from pieces are those of its first piece. */
  lemma FirstPiece(a: string, b: string, c: string, d: string, e: string, i: nat)
    requires i < |a|
    ensures (a + b + c + d + e)[i] == a[i]
  {
  }

  lemma FlatOutputName(a: string, b: string)
    requires NoSlash(a) && NoSlash(b)
    ensures NoSlash(a + "_" + b + OutputSuffix)
  {
    assert NoSlash(OutputSuffix);
    NoSlashAppend(a, "_");
    NoSlashAppend(a + "_", b);
    NoSlashAppend(a + "_" + b, OutputSuffix);
  }

  lemma NoSlashAppend(a: string, b: string)
    requires NoSlash(a) && NoSlash(b)
    ensures NoSlash(a + b)
  {
    forall k | 0 <= k < |a + b|
      ensures (a + b)[k] != '/'
    {
      if k >= |a| {
        assert (a + b)[k] == b[k - |a|];
      }
    }
  }

  /** `s` ends with `suffix`. */
  predicate EndsWith(s: string, suffix: string) {
    |suffix| <= |s| && s[|s| - |suffix|..] == suffix
  }

  const ReportSuffix: string := ".html"

  /** The report file name holds no `/`, so it lies in the working directory, and it ends in `.html`. */
  lemma ReportFileNameIsFlat(domain: string)
    ensures NoSlash(ReportFileName(domain))
    ensures EndsWith(ReportFileName(domain), ReportSuffix)
  {
    var n := ReportFileName(domain);
    forall k | 0 <= k < |n|
      ensures n[k] != '/'
    {
      if k < |Sanitize(domain)| {
        assert n[k] == Sanitize(domain)[k];
      } else {
        assert n[k] == ReportSuffix[k - |Sanitize(domain)|];
      }
    }
  }

  /** Equal prefix and suffix around two middles: the middles are equal. */
  lemma CancelAround(p: string, x: string, y: string, q: string)
    requires p + x + q == p + y + q
    ensures x == y
  {
    var a := p + x + q;
    var b := p + y + q;
    assert |x| == |y|;
    forall k | 0 <= k < |x|
      ensures x[k] == y[k]
    {
      assert a[|p| + k] == x[k];
      assert b[|p| + k] == y[k];
    }
  }

  /**
   The report reads the file the scan wrote exactly when the template is
   its own basename; for any template with a directory part the two paths
   differ.
   */
  lemma LookupMatchesScanIff(domain: string, template: string)
    ensures ReportLookupPath(domain, template) == ScanOutputPath(domain, template)
      <==> Base(template) == template
  {
    var p := ResultsDir + Sanitize(domain) + "_";
    assert ReportLookupPath(domain, template) == p + template + OutputSuffix;
    assert ScanOutputPath(domain, template) == p + Base(template) + OutputSuffix;
    if ReportLookupPath(domain, template) == ScanOutputPath(domain, template) {
      CancelAround(p, template, Base(template), OutputSuffix);
    }
  }

  /**
   Two scans of one domain write the same file exactly when their templates
   have the same basename.
   */
  lemma SameScanOutputIff(domain: string, t1: string, t2: string)
    ensures ScanOutputPath(domain, t1) == ScanOutputPath(domain, t2) <==> Base(t1) == Base(t2)
  {
    var p := ResultsDir + Sanitize(domain) + "_";
    assert ScanOutputPath(domain, t1) == p + Base(t1) + OutputSuffix;
    assert ScanOutputPath(domain, t2) == p + Base(t2) + OutputSuffix;
    if ScanOutputPath(domain, t1) == ScanOutputPath(domain, t2) {
      CancelAround(p, Base(t1), Base(t2), OutputSuffix);
    }
  }

  /** Two templates of one domain are looked up at the same path exactly when they are equal. */
  lemma SameLookupPathIff(domain: string, t1: string, t2: string)
    ensures ReportLookupPath(domain, t1) == ReportLookupPath(domain, t2) <==> t1 == t2
  {
    var p := ResultsDir + Sanitize(domain) + "_";
    assert ReportLookupPath(domain, t1) == p + t1 + OutputSuffix;
    assert ReportLookupPath(domain, t2) == p + t2 + OutputSuffix;
    if ReportLookupPath(domain, t1) == ReportLookupPath(domain, t2) {
      CancelAround(p, t1, t2, OutputSuffix);
    }
  }

  /**
   A template with a directory part is looked up at a path no scan of the
   same domain ever writes, whatever that scan's template.
   */
  lemma NestedLookupMissesEveryScan(domain: string, template: string, slash: nat, other: string)
    requires slash < |template| && template[slash] == '/'
    requires template != "/"
    ensures ReportLookupPath(domain, template) != ScanOutputPath(domain, other)
  {
    var p := ResultsDir + Sanitize(domain) + "_";
    assert ReportLookupPath(domain, template) == p + template + OutputSuffix;
    assert ScanOutputPath(domain, other) == p + Base(other) + OutputSuffix;
    if ReportLookupPath(domain, template) == ScanOutputPath(domain, other) {
      CancelAround(p, template, Base(other), OutputSuffix);
    }
  }
}
