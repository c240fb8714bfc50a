# Th3 Collect0r, modelled in Dafny

Th3 Collect0r is a command-line reconnaissance tool written in Go (`th3Collect0r.go`).
It takes a single target domain (`-d`) or a file of domains (`-f`).
For each domain it runs URL harvesters and collects their output lines into one URL set.
It then runs a Nuclei scan per template and writes one HTML report per domain.
Domains are processed in batches of `-p` at a time.

This project models the sequential rules beneath that plumbing, as pure Dafny functions with proved contracts:

- `Cli` (`cli.dfy`): the argument loop of `main`. It yields a configuration or a stop reason. It also holds the five default templates and the choice between single-target and domain-file runs.
- `DomainList` (`domains.dfy`): `readDomainsFromFile`, which trims each line and drops blank ones.
- `UrlSet` (`urls.dfy`): the `https://` normalisation of `addURLsFromFile` and its insertion into a set. It also covers the union over the four harvesters of a domain.
- `Batching` (`batching.dfy`): the batch arithmetic of `processDomains` and `min`. It includes what the loop does with parallelism zero or below.
- `Naming` (`naming.dfy`):
  - `sanitizeFileName`;
  - `filepath.Base` for `/`-separated paths (exact, including `"."`, `"/"` and trailing slashes);
  - the path the scan writes, the path the report reads, and the report file name.
- `Html` (`html.dfy`): `html.EscapeString` and a decoder that undoes it.
- `Report` (`report.dfy`): `generateHTMLReport` over a working directory modelled as `map<string, string>`. The module covers:
  - the report file being created before its inputs are read;
  - the style sheet and script;
  - the numbered, escaped sections joined by a newline;
  - the page template;
  - the scans that write the output files the report reads.
- `Text` (`text.dfy`): the Go string routines the program relies on:
  - `strings.TrimSpace`, with exactly the white space of `unicode.IsSpace`;
  - `strings.Contains` and `strings.HasPrefix`;
  - `strings.Fields` and `strings.Join`;
  - `%d` formatting.
- `Wrappers` (`wrappers.dfy`): `Option` and `Result`.

The model follows the code where the code and its usage text differ:

- `-nf` flags are stored but never reach the scanner command.
- `-tp` sets a global that nothing reads.
- `-s` appears in the usage text but is an unrecognised option.
- The sanitised name is built from the whole domain argument, scheme included.
- The report looks up the full template path, while the scan writes under the basename (Finding 1).

The source file has CRLF line endings. A Go raw string drops carriage returns, so the report template in `Report.HeadLayout` uses `\n` only.

## Model

| member | source | states |
|---|---|---|
| Cli.Step | th3Collect0r.go:54-117 | One turn of the loop moves the index strictly forward, so parsing ends. `-t` passes over the arguments after it up to the first one starting with `-`. Every other turn that continues consumes an option and its value and leaves the templates alone. A turn stops exactly on `-h`, `--help`, an unknown argument, or a value-taking option given last, and it names which one. |
| Cli.StepOnTemplates | th3Collect0r.go:84-89 | A `-t` turn never stops the loop. It appends exactly the arguments it passes over to the templates and changes nothing else in the configuration. |
| Cli.TemplateRunEnd | th3Collect0r.go:86-89 | The `-t` run ends at the first argument starting with `-`, or at the end of the list. Every argument inside the run lacks a leading `-`. |
| Cli.TakeTemplates | th3Collect0r.go:84-89 | The inner `-t` loop stops where `TemplateRunEnd` says and appends exactly the arguments it passed over. |
| Cli.ParseArgs | th3Collect0r.go:31-118 | The imperative loop, with its early returns, computes the same outcome as the recursive definition `Parse`. An empty argument list stops before the loop. |
| Cli.ParseFromExtendsTemplates | th3Collect0r.go:84-89 | From any index, the templates already collected stay a prefix. Every template added is an argument from that index on which does not start with `-`. |
| Cli.ParsedTemplatesExtendDefaults | th3Collect0r.go:42-89 | A parsed configuration starts with the five default templates in their order. `-t` never removes or reorders them. Each extra template is a command-line argument that does not start with `-`. |
| Cli.ParseFromStopReasons | th3Collect0r.go:54-117 | Each stop from the loop names its cause. A missing value is always for the last argument, which is a value-taking option. An unrecognised option, `-h` or `--help` appears among the arguments. The loop never reports an empty list. |
| Cli.ParseStopReasons | th3Collect0r.go:32-117 | The run stops for "no arguments" exactly when the list is empty. The other stop reasons are those of the loop. |
| Cli.TemplateRunEndExtend | th3Collect0r.go:86-89 | A `-t` run that ends inside a prefix ends at the same place after arguments starting with an option are appended. |
| Cli.ParseFromAcrossBoundary | th3Collect0r.go:53-118 | Appending arguments that start with an option after a complete command line leaves the turns inside it unchanged. Parsing reaches the end of the prefix with the same configuration. |
| Cli.OptionAfterCompleteLine | th3Collect0r.go:99-116 | After any complete command line, an argument starting with `-` decides the outcome alone. A value option given last is a missing value, `-h` and `--help` print usage, and any other such argument is unrecognised. |
| Cli.CommandLineRoundTrip | th3Collect0r.go:38-129 | Parsing `-d D -f F -p P -nf N -tp T -t X…` (no X starting with `-`) gives back D, F, N and T. The parallelism is what the integer scan reads from P, or 4 when that fails. The templates are the defaults followed by X…. A non-empty D selects the single-target run and an empty one the domain file. |
| Cli.TemplateRunCoversTail | th3Collect0r.go:86-89 | A `-t` run over arguments none of which starts with `-` consumes the rest of the list. |
| Cli.ValueOptionStep | th3Collect0r.go:57-113 | A value-taking option with a value after it stores that value and lets the loop resume two arguments later. |
| Cli.TemplatesLast | th3Collect0r.go:84-89 | A final `-t` whose following arguments all lack a leading `-` appends all of them to the templates and ends the loop with a configuration. |
| Cli.TakesValue | th3Collect0r.go:55-113 | Definition: the options whose case reads the next argument: `-d`, `-p`, `-nf`, `-f` and `-tp`. |
| Cli.IsOption | th3Collect0r.go:55-116 | Definition: the cases of the switch, that is the value options, `-t`, `-h` and `--help`. Any other argument reaches the `default` case. `Cli.ParseFromStopReasons` states how each kind ends the loop. |
| Cli.ParseInt | th3Collect0r.go:243-251 | Definition: the integer the read gives for `s`, or the fallback when the read fails. It is used with the current parallelism as fallback (line 68). |
| Cli.SetValue | th3Collect0r.go:57-113 | Definition: a value option stores its value in the field it names; `-p` stores what `ParseInt` reads. `Cli.RepeatedOptionOverwrites` states what a repeated option leaves. |
| Cli.RepeatedOptionOverwrites | th3Collect0r.go:57-113 | A repeated option keeps only its last value, except that an unreadable `-p` value keeps the parallelism read before it. |
| Cli.ParseFrom | th3Collect0r.go:53-118 | Definition: the loop from an index, turn by turn with `Step`, ending with the configuration at the end of the list or with the first stop. Its properties are stated by `Cli.ParseFromExtendsTemplates`, `Cli.ParseFromStopReasons` and `Cli.ParseFromAcrossBoundary`. |
| Cli.Parse | th3Collect0r.go:31-118 | Definition: an empty argument list stops with short usage, and otherwise the loop runs from the defaults. `Cli.ParseArgs` and `Cli.ParseStopReasons` state its properties. |
| Cli.ModeOf | th3Collect0r.go:123-135 | Definition: a non-empty `-d` value selects the single-target run, and otherwise the domain file is read. `Cli.CommandLineRoundTrip` states which mode a command line selects. |
| DomainList.DomainOfLine | th3Collect0r.go:263-266 | Definition: the trimmed line as a one-element list when it is not empty, and no domain otherwise. `DomainList.ReadDomainsMembership` states what the reader keeps. |
| DomainList.ReadDomains | th3Collect0r.go:262-267 | The reader keeps at most one domain per line. No kept domain is empty or has white space at either end. |
| DomainList.ReadDomainsAppend | th3Collect0r.go:262-267 | Reading two pieces of a file gives the two readings in order, so line order is preserved. |
| DomainList.ReadDomainsMembership | th3Collect0r.go:262-267 | A string is read as a domain exactly when it is the non-empty trim of some line, in both directions. |
| DomainList.ReadDomainsIdempotent | th3Collect0r.go:263-266 | Reading the resulting domain list as a file again gives the same list. |
| DomainList.ReadDomainLines | th3Collect0r.go:260-271 | The scanning loop with `append` computes `ReadDomains`. |
| Text.IsSpace | th3Collect0r.go:263 | Definition: the code points `unicode.IsSpace` accepts, that is the Unicode White_Space property. `strings.TrimSpace` (line 263) and `strings.Fields` (line 463) both split on them. `Text.TrimSpace` and `Text.FieldsSplitAtSpace` state their use. |
| Text.TrimSpace | th3Collect0r.go:263 | The result has no white space at either end. It is the slice of the input after its leading white space. Only white space follows it in the input. It is empty exactly when the line is all white space. |
| Text.TrimSpaceOfUnpadded | th3Collect0r.go:263 | Trimming a string with no white space at either end returns it unchanged. |
| Text.Contains | th3Collect0r.go:528 | Definition: `strings.Contains` as a search from the left, trying each starting index in turn. `Text.ContainsIffOccurs` states what it finds. |
| Text.ContainsIffOccurs | th3Collect0r.go:528 | The left-to-right search of `strings.Contains` succeeds exactly when the pattern occurs at some index. |
| Text.HasPrefix | th3Collect0r.go:86 | Definition: the first characters of the argument are the prefix. `Cli.TemplateRunEnd` uses it for the `-` test of the `-t` loop. |
| Text.Fields | th3Collect0r.go:463 | Every field is a non-empty run of non-white-space characters. Where the runs are split is stated by `Text.FieldsSplitAtSpace`. |
| Text.FieldsCoverNonSpace | th3Collect0r.go:463 | The fields, concatenated in order, are exactly the non-white-space characters of the input. |
| Text.FieldsOfWord | th3Collect0r.go:463 | A non-empty template path without white space splits into itself alone. |
| Text.FieldsSplitAtSpace | th3Collect0r.go:463 | The fields split at every white-space character and nowhere else: around a white-space character they are the fields of the left side followed by those of the right side. With `Text.FieldsOfWord` this makes each field a maximal run. |
| Text.FieldsOfAllSpace | th3Collect0r.go:463 | A string of white space only has no fields. |
| Text.JoinContainsEachPart | th3Collect0r.go:602 | Every section can be found in the newline-joined text. |
| Text.Join | th3Collect0r.go:602 | The joined text is as long as all the parts together plus one separator between each two neighbours, that is `n - 1` separators for `n` parts (`Text.SeparatorLengthIsProduct`). `Text.JoinAppend` and `Text.JoinSnoc` state how joins compose and so where the parts and separators lie. |
| Text.JoinAppend | th3Collect0r.go:602 | Joining two non-empty lists of parts gives the join of the first, the separator, then the join of the second. So the parts appear in order, with the separator between every two neighbours and nowhere else. |
| Text.JoinSnoc | th3Collect0r.go:602 | Adding a part at the end of a non-empty list adds the separator and then that part to the joined text. |
| Text.Decimal | th3Collect0r.go:587-588 | `%d` of a non-negative number is a non-empty string of digits, with a leading `0` only for zero. |
| Text.DecimalRoundTrip | th3Collect0r.go:587-588 | Reading the digits back gives the number. |
| Text.DecimalInjective | th3Collect0r.go:587-588 | Different section numbers render differently. |
| UrlSet.Normalize | th3Collect0r.go:527-531 | The result always contains `://`. It equals the line exactly when the line already contains `://`. Otherwise it is `https://` followed by the line. |
| UrlSet.NormalizeIdempotent | th3Collect0r.go:527-531 | Normalising twice is normalising once. |
| UrlSet.NormalizeBlank | th3Collect0r.go:527-531 | A blank line becomes `https://`. |
| UrlSet.NormalizeMergesSchemeless | th3Collect0r.go:527-531 | A line without a scheme and the same line with `https://` normalise to the same URL. |
| UrlSet.ColonFreeLineGetsScheme | th3Collect0r.go:528-531 | A line without any `:` gets `https://` in front. |
| UrlSet.AddUrls | th3Collect0r.go:523-535 | After a file is processed, the set is the old set united with the normalised lines. It grows by at most one entry per line. |
| UrlSet.AddUrlsKeepsScheme | th3Collect0r.go:523-535 | Processing a file keeps every old entry. It preserves the invariant that every entry contains `://`. |
| UrlSet.AddUrlsDuplicateLines | th3Collect0r.go:523-535 | A file whose lines repeat adds nothing beyond one copy of it. |
| UrlSet.SchemelessDuplicatesCollapse | th3Collect0r.go:527-534 | A file holding `x` and `https://x` (with `x` scheme-less) adds the single entry `https://x`. |
| UrlSet.AddUrlsCommute | th3Collect0r.go:353-419 | The set does not depend on which harvester's file is merged first. |
| UrlSet.AddUrlsFromLines | th3Collect0r.go:523-535 | The scanning loop, inserting one line at a time, computes the set union. |
| UrlSet.Harvest | th3Collect0r.go:336-423 | Every harvested URL contains `://`. A URL is harvested exactly when some harvester that succeeded printed a line that normalises to it. A failed harvester adds nothing. |
| Batching.Min | th3Collect0r.go:302-307 | `min` returns one of its arguments and is at most both. |
| Batching.BatchesFrom | th3Collect0r.go:279-297 | From any index inside the list, the batches concatenated are exactly the domains from that index on. |
| Batching.BatchesFromSizes | th3Collect0r.go:279-284 | Every batch holds between 1 and P domains. Every batch but the last holds exactly P. |
| Batching.BatchesPartition | th3Collect0r.go:279-297 | The batches concatenated give back the domain list, so each domain is dispatched once and in order. No batch exceeds P. |
| Batching.Batches | th3Collect0r.go:279-297 | Definition: the batches from index 0. `Batching.BatchesPartition` states that they partition the list. |
| Batching.BatchesFromPositions | th3Collect0r.go:279-285 | Batch k starts at `i + k*P` and holds `min(P, len - (i + k*P))` domains. |
| Batching.Turns | th3Collect0r.go:279-296 | Up to n turns of the outer loop as written, for any parallelism `make` accepts. The loop leaves only at the end of the list or when the turns run out. What it has launched is exactly the domains before its index. |
| Batching.ZeroParallelismSpins | th3Collect0r.go:279-281 | With `-p 0` and a non-empty list, after any number of turns the index is still 0, so the loop condition still holds. Every turn launched an empty batch. |
| Batching.TurnsReachBatches | th3Collect0r.go:279-296 | With P of at least 1, enough turns reach the end of the list, having launched exactly the batches of `BatchesFrom`. |
| Batching.ScheduleAsWritten | th3Collect0r.go:276-297 | A negative P panics at `make`. P = 0 on a non-empty list never leaves the loop: the index stays inside the list after any number of turns. Any other P ends with the batches the turns launched. They concatenate to the domain list and hold 1 to P domains each. |
| Batching.EffectiveParallelism | th3Collect0r.go:276-279 | The guarded parallelism is always at least 1. It equals P whenever P is at least 1. |
| Batching.ScheduleGuarded | th3Collect0r.go:276-297 | Definition: the loop of `processDomains` run with a parallelism below one replaced by the default 4. This guard is the corrected behaviour, not the program's. `Batching.GuardedScheduleDispatchesAll` states that it dispatches every domain. |
| Batching.GuardedScheduleDispatchesAll | th3Collect0r.go:276-297 | With the guard, every parallelism value yields batches that dispatch each domain exactly once, in order, with at most the effective parallelism per batch. |
| Batching.LaunchBatch | th3Collect0r.go:284-293 | The inner loop launches exactly the domains `i .. i + batchSize`. |
| Batching.DispatchBatch | th3Collect0r.go:279-296 | One outer turn launches the batch at `i` and moves on by P. It keeps the invariant that the batches launched so far, followed by those still to come from the new index, are all the batches. The launched domains grow by exactly the domains from the old index up to the new one. |
| Batching.Dispatch | th3Collect0r.go:274-300 | The two loops of `processDomains` launch exactly the batches of `Batches`, whose concatenation is the domain list. Before each turn, the domains launched so far are exactly those before the index. |
| Html.EscapeChar | th3Collect0r.go:597 | Definition: `<`, `>`, `&`, `'` and `"` become `&lt;`, `&gt;`, `&amp;`, `&#39;` and `&#34;`. Every other character stays as it is. `Html.EscapeRoundTrip` states that the decoder undoes it. |
| Html.Escape | th3Collect0r.go:597 | Escaped output has no raw `<`, `>`, `'` or `"`. It is never shorter than the input. It has the input's length exactly when there is nothing to escape, and then it is the input. |
| Html.EscapeAppend | th3Collect0r.go:597 | Escaping a concatenation escapes the pieces separately. |
| Html.EscapeRoundTrip | th3Collect0r.go:597 | Decoding the five entities undoes escaping. |
| Html.EscapeInjective | th3Collect0r.go:597 | Different outputs escape to different text. |
| Naming.Sanitize | th3Collect0r.go:628-630 | Every `/` becomes `_` and every other character stays in place. The length is kept and no `/` is left. |
| Naming.SanitizeIdentity | th3Collect0r.go:628-630 | Sanitising a name with no `/` leaves it unchanged. |
| Naming.SanitizeIdempotent | th3Collect0r.go:628-630 | Sanitising twice is sanitising once. |
| Naming.Base | th3Collect0r.go:499 | The basename of the empty path is `.`. It is `/` exactly for a non-empty path of slashes only. Otherwise it is the last element of the path once trailing slashes are removed: a `/`-free suffix that is the whole path or follows a `/`. It is never empty. |
| Naming.BaseFixedPoint | th3Collect0r.go:499 | A template is its own basename exactly when it is a non-empty name with no `/`, or `"/"`. |
| Naming.BaseAfterSlash | th3Collect0r.go:499 | A path whose part after some `/` is a non-empty name without `/` has that name as its basename. |
| Naming.ScanOutputPath | th3Collect0r.go:499-500 | Definition: `Results/`, the sanitised domain, `_`, the template basename and `_output.txt`. `Naming.ScanOutputPathIsFlat` and `Naming.SameScanOutputIff` state its properties. |
| Naming.ReportLookupPath | th3Collect0r.go:590 | Definition: the same path built from the template path as given. `Naming.LookupMatchesScanIff` states when it is the scan output path. |
| Naming.ReportFileName | th3Collect0r.go:546 | Definition: the sanitised domain followed by `.html`. `Naming.ReportFileNameIsFlat` and `Report.ReportNameIsNoInput` state its properties. |
| Naming.ScanOutputPathIsFlat | th3Collect0r.go:499-500 | The scan output path is `Results/` followed by a name with no `/` (unless the template is all slashes). |
| Naming.ReportFileNameIsFlat | th3Collect0r.go:546 | The report file name has no `/` and ends with `.html`. |
| Naming.LookupMatchesScanIff | th3Collect0r.go:590 | The report reads the file the scan wrote exactly when the template is its own basename. |
| Naming.SameScanOutputIff | th3Collect0r.go:499-500 | Two scans of one domain build the same output path exactly when their templates share a basename. So, while the shell passes that path through unchanged (see Left out), templates with different basenames never overwrite each other. |
| Naming.SameLookupPathIff | th3Collect0r.go:590 | Two templates of one domain are looked up at the same path exactly when they are equal. |
| Naming.NestedLookupMissesEveryScan | th3Collect0r.go:590 | A template with a directory part is looked up at a path that no scan of the same domain writes, whatever the scan's template. |
| Report.Sections | th3Collect0r.go:585-600 | The section loop succeeds exactly when every output file exists. Section k then holds template k's output, escaped, under number `n + k`. On failure the error names a path of the list that is missing. |
| Report.OutputPaths | th3Collect0r.go:586-590 | Definition: the path each template's output is read from, in template order, under the given lookup rule. `Report.OutputPathsCollide` states when two of them coincide. |
| Report.OutputPathsCollide | th3Collect0r.go:586-590 | Two templates of one report read the same file exactly when, as written, the templates are equal, and, by basename, when their basenames are equal. |
| Report.SectionsFailAtFirstMissing | th3Collect0r.go:590-594 | A failing section loop stops at the first missing output: every earlier output exists. |
| Report.FirstOutputMissing | th3Collect0r.go:576-594 | With the style sheet and script present, a missing output for the first template makes the report fail on that template's path. |
| Report.GenerateReportFailure | th3Collect0r.go:545-594 | When the report content fails on a missing file, the run reports that same file as its error, even though the report file was created first. |
| Report.SectionIdsDistinct | th3Collect0r.go:587 | Different template numbers get different section anchors. |
| Report.SectionId | th3Collect0r.go:587 | Definition: `template` followed by the section number. `Report.SectionIdsDistinct` states that different numbers give different anchors. |
| Report.SectionTitle | th3Collect0r.go:588 | Definition: `Template <n> Results:`. |
| Report.Section | th3Collect0r.go:599 | Definition: the numbered heading followed by the escaped output in a `pre` element. `Report.ReportShowsEveryOutput` states that each one appears in the page. |
| Report.Page | th3Collect0r.go:553-602 | Definition: the report template with the domain, style sheet, script, domain again and joined sections filled in, in that order. |
| Report.ReportContent | th3Collect0r.go:576-602 | The report text is produced exactly when the style sheet, the script and every output exist. Otherwise the error names a missing file: the style sheet, the script or an output path. |
| Report.ReportShowsEveryOutput | th3Collect0r.go:585-602 | A produced report contains each template's output file, escaped, in the section numbered after the template's position. |
| Report.ReportNameIsNoInput | th3Collect0r.go:546-590 | The report file name is neither the style sheet, the script, nor any scan output path under either lookup rule. |
| Report.ReportIgnoresOwnFile | th3Collect0r.go:546-590 | Creating or emptying the report file changes nothing that the report then reads. |
| Report.GenerateReport | th3Collect0r.go:545-610 | A run adds the report file and changes no other file. It succeeds exactly when every input exists, and then the report holds the page. On failure the report file is left empty and the error names a missing file. |
| Report.GenerateReportIdempotent | th3Collect0r.go:545-610 | Running the report again over its own result changes nothing. |
| Report.ScanAll | th3Collect0r.go:444-456 | The scans add exactly the scan output paths of the successful scans. Every other file keeps its contents. |
| Report.WriteScan | th3Collect0r.go:499-508 | Definition: a successful scan writes its output at its scan output path; a failed one changes nothing. `Report.ScanAll` states the effect of a sequence of scans. |
| Report.ScanAllLastWrite | th3Collect0r.go:499-500 | A scan output file holds the output of the last scan that wrote it. |
| Report.ScanKeepsOwnOutput | th3Collect0r.go:499-500 | When template basenames are distinct, each template's output file holds that scan's own output. |
| Report.AlignedReportAfterScans | th3Collect0r.go:585-594 | With lookup by basename, a run in which every scan succeeded produces a report once the style sheet and script exist. |
| Report.ScanWritesOwnPath | th3Collect0r.go:499-500 | The output path a successful scan writes is exactly the path the basename lookup reads for its template. |
| Report.AlignedReportShowsEachScan | th3Collect0r.go:585-600 | With lookup by basename and distinct basenames, the report shows each scan's own output under its template's number. |
| Report.NestedTemplateReportFails | th3Collect0r.go:590-593 | As written, a report whose first template has a directory part fails on that template's lookup path, whatever scans ran before it, unless that path already existed. |
| Report.DefaultReportMissesScanOutputs | th3Collect0r.go:474-477 | A report over the default templates, as written, fails on `fuzzing-templates/lfi`, whatever the scans did, unless that path already existed. As written the program never reaches this final report (see Left out). |
| Report.DefaultScanOutput | th3Collect0r.go:499-500 | The scan of `fuzzing-templates/lfi` writes `Results/<domain>_lfi_output.txt`. |
| Report.DefaultTemplateReportFails | th3Collect0r.go:460-468 | The per-template report task launched at line 460 for `fuzzing-templates/lfi` fails, as written, on `Results/<domain>_fuzzing-templates/lfi_output.txt`, whatever the scans wrote, unless that path already existed. That path is not the one the scan writes. |
| Report.PerTemplateReport | th3Collect0r.go:463 | The report task launched at line 460 for each template, which runs alongside that template's scan, adds the report file to the directory. |
| Report.PerTemplateReportOfPlainPath | th3Collect0r.go:463 | For a template path without white space, the per-template report covers that template alone. |

## Left out

- Running the external tools (`waybackurls`, `gau`, `katana`, `hakrawler`, and `nuclei` through `sh -c`) is not modelled: their output is a parameter (`UrlSet.Harvest`, `Report.ScanAll`).
- The semaphore mix-up in `processDomain` is not modelled. Both the scan task (line 450) and the report task (line 462) of each template take a token back from `semaphoreNuclei`, but only one token per template is put in (line 445). So with T templates, T of the 2T deferred receives block forever before their `Done`; which ones depends on timing. Then `wgNuclei.Wait()` or `wgHTML.Wait()` (lines 471-472) never returns. Read from the text (nothing was run), in single-target mode every goroutine is then asleep, so the Go runtime would stop the program with its "all goroutines are asleep - deadlock!" error, and the deferred clean-up and `os.Exit(0)` would not run. Either way processing never passes line 472: the final report, the real-IP lookup and the Shodan request (lines 474-494) are not reached. The model treats those steps as if they were reached.
- Naming.NestedLookupMissesEveryScan: the paths are compared as literal strings. Operating-system path resolution is not modelled: no `.` or `..` segments, no directories inside `Results/`. So a template such as `x/../d_lfi`, with a directory `Results/d_x/` present, would reach a scan's file through the resolver.
- Report.NestedTemplateReportFails: the same limit applies. Lookup is by literal path, with no `.`/`..` resolution, so the failure holds for templates whose lookup path the operating system does not resolve to a scan output.
- Report.DefaultTemplateReportFails: rests on the same literal-path lookup. The looked-up path of `fuzzing-templates/lfi` has no `.` or `..` segment, so resolving it reaches that literal path, as long as no symbolic link is involved.
- Report.DefaultReportMissesScanOutputs: the same holds for the final report over the default templates.
- Go strings and file contents are byte strings and may be invalid UTF-8. Here a `string` is a sequence of Unicode characters. So domain lines, harvester output and scan output with stray bytes cannot be represented, and `Html.Escape`, `Text.TrimSpace` and `Text.Fields` are modelled on valid UTF-8 text only.
- Report.WriteScan: the scan command is built as one string and run through `sh -c` (line 502), with nothing quoted. The model assumes that the domain, the template path and the output path hold no white space or shell metacharacters, so that `nuclei` is started once and writes the literal path `ScanOutputPath(domain, template)`. It is not so in general: with `-d "a b"` the shell reads `-o Results/a` and an extra word `b_<template>_output.txt`, so all five default scans write `Results/a`; a domain holding `&` or `;` ends the command early; a template with a space gives `nuclei` two arguments.
- Report.ScanAll: the same assumption carries over to `Report.ScanWritesOwnPath`, `Report.ScanKeepsOwnOutput`, `Report.ScanAllLastWrite`, `Report.DefaultScanOutput` and `Naming.SameScanOutputIff`. What they state about the files a scan writes holds for domains and templates free of white space and shell metacharacters. For other inputs they state only the path strings.
- Report.ScanAllLastWrite: "last" means later in the template list. The scans run concurrently (lines 444-456), so when two templates share a basename the program does not fix whose output survives.
- The Go runtime panic of `make(chan struct{}, p)` for a negative `p` is taken as given in `Batching.ScheduleAsWritten`; it is not derived.
- Goroutines, wait groups and channel semaphores are not modelled. This includes the report task releasing the scan semaphore, the unsynchronised writes of four harvesters into one Go map, and the per-template reports racing on the same report file. Only the batch arithmetic and the resulting sets and files are modelled.
- Real file and directory I/O (`os.Mkdir`, `os.MkdirTemp`, `os.RemoveAll`, `bufio.Scanner`) and the `defer os.Exit(0)` that ends the process after the first domain are left out. Files are a map from path to contents, and a file's lines are a `seq<string>`.
- `Report.GenerateReport`: assumes `os.Create` and the final write succeed. Their I/O errors are not modelled.
- `Report.ScanAll`: a failed scan writes nothing. A `nuclei` run that fails part-way may leave a file behind, and that is not modelled.
- `bufio.Scanner` details are not modelled: the stripping of a final `\r` and the 64 KiB line limit.
- The order in which URLs are written to `urls.txt` is not modelled, because Go map iteration order is unspecified.
- How `fmt.Sscanf(s, "%d", …)` reads an integer (line 246) is not modelled. It is a table parameter `scan` (`Cli.IntReads`) holding the strings the read succeeds on, with their values. The model keeps the rule that a failed read leaves the previous parallelism in place (lines 247-248).
- DNS lookup, the Shodan HTTP request, and the real-IP file are not modelled.
- The banner, usage text and log messages are not modelled. The style sheet and script contents are opaque strings.
- The `-nf` flags and the `-tp` path are stored in the configuration but are not used anywhere.

## Findings

| source | as written | input that shows it | evidently intended | confidence | as-written member | corrected member |
|---|---|---|---|---|---|---|
| th3Collect0r.go:590 | The report reads `Results/<domain>_<template path>_output.txt`, but the scan writes under the template's basename (line 500). | The first default template `fuzzing-templates/lfi`. Its scan writes `Results/<d>_lfi_output.txt`. The per-template report task launched at line 460 for it (line 463), which runs alongside the scan, looks for `Results/<d>_fuzzing-templates/lfi_output.txt`, which no scan writes, so unless that file existed before the run that report fails. The final report (line 475) would fail the same way, but it is not reached as written. | Look the output up under the template's basename, as the scan writes it. | high; not executed | Report.DefaultTemplateReportFails | Report.AlignedReportAfterScans |
| th3Collect0r.go:279 | The batch loop advances by `parallelProcesses` with no check that it is positive. | `-p 0` with one domain: after any number of turns the index is still 0 and nothing was launched, so the loop never ends. `-p -1` panics in `make(chan struct{}, -1)` (line 276). | Fall back to the default parallelism when the value is below one. | high; not executed | Batching.ZeroParallelismSpins | Batching.GuardedScheduleDispatchesAll |
