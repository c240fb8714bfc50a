/**
 The command-line loop of `main`: a left-to-right pass over the arguments
 that either yields a configuration or stops the program (a missing option
 value, an unrecognised option, or a request for usage text).
 */
module Cli {
  import opened Text

  /** The five scan templates every run starts with, in report order. */
  const DefaultTemplates: seq<string> := [
    "fuzzing-templates/lfi",
    "fuzzing-templates/xss",
    "fuzzing-templates/sqli",
    "fuzzing-templates/redirect",
    "fuzzing-templates/ssrf"
  ]

  /** Parallelism when `-p` is absent or unreadable. */
  const DefaultParallelism: int := 4

  /**
   What the loop collects. `templatesPath` is the process-wide value `-tp`
   sets; `nucleiFlags` is what `-nf` sets.
   */
  datatype Config = Config(
    domain: string,
    filePath: string,
    parallelism: int,
    nucleiFlags: string,
    templates: seq<string>,
    templatesPath: string)

  const Defaults: Config := Config("", "", DefaultParallelism, "", DefaultTemplates, "")

  /** Why the program stops without processing anything. */
  datatype Stop =
    | NoArguments              // no arguments at all: short usage is printed
    | MissingValue(option: string)
    | Unrecognized(option: string)
    | ShortUsage               // `-h`
    | FullUsage                // `--help`

  datatype Parsed = Run(config: Config) | Halt(reason: Stop)

  /** One turn of the loop: where it resumes and with what, or why it stops. */
  datatype Turn = Continue(next: nat, config: Config) | Stopped(reason: Stop)

  /** Which unit of work `main` runs after the loop. */
  datatype Mode = SingleTarget(domain: string) | DomainFile(path: string)

  /** The options that consume the following argument as their value. */
  predicate TakesValue(a: string) {
    a == "-d" || a == "-p" || a == "-nf" || a == "-f" || a == "-tp"
  }

  predicate IsOption(a: string) {
    TakesValue(a) || a == "-t" || a == "-h" || a == "--help"
  }

  /**
   What `fmt.Sscanf(s, "%d", …)` makes of each string: the strings it reads
   an integer from, each with that integer. A string outside the table is
   one the read fails on.
   */
  type IntReads = map<string, int>

  /** `parseInt`: the integer read from `s`, or `fallback` when the read fails. */
  function ParseInt(s: string, fallback: int, scan: IntReads): int
  {
    if s in scan then scan[s] else fallback
  }

  /** Stores the value of a value-taking option; a repeated option overwrites. */
  function SetValue(c: Config, option: string, value: string, scan: IntReads): Config
    requires TakesValue(option)
  {
    if option == "-d" then c.(domain := value)
    else if option == "-p" then c.(parallelism := ParseInt(value, c.parallelism, scan))
    else if option == "-nf" then c.(nucleiFlags := value)
    else if option == "-f" then c.(filePath := value)
    else c.(templatesPath := value)
  }

  /**
   A repeated option keeps only its last value, except that a `-p` value
   the integer read fails on keeps the parallelism read before it.
   */
  lemma RepeatedOptionOverwrites(c: Config, option: string, v1: string, v2: string, scan: IntReads)
    requires TakesValue(option)
    ensures option != "-p" || v2 in scan ==>
      SetValue(SetValue(c, option, v1, scan), option, v2, scan) == SetValue(c, option, v2, scan)
    ensures option == "-p" && v2 !in scan ==>
      SetValue(SetValue(c, option, v1, scan), option, v2, scan) == SetValue(c, option, v1, scan)
  {
  }

  /**
   The index at which a `-t` run that starts at `i` ends: the first argument
   from `i` on that starts with `-`, or the end of the list.
   */
  function TemplateRunEnd(args: seq<string>, i: nat): (j: nat)
    requires i <= |args|
    ensures i <= j <= |args|
    ensures forall k | i <= k < j :: !HasPrefix(args[k], "-")
    ensures j == |args| || HasPrefix(args[j], "-")
    decreases |args| - i
  {
    if i < |args| && !HasPrefix(args[i], "-") then TemplateRunEnd(args, i + 1) else i
  }

  /**
   One turn of the loop at index `i`. A turn that continues strictly advances
   the index, so the loop ends. `-t` passes over the arguments after it up
   to the next option (`StepOnTemplates` says what it stores); every other
   continuing turn consumes exactly an option and its value and leaves the
   templates alone. The turn stops
   exactly on a help request, an unknown option, or a value-taking option
   with nothing after it.
   */
  function Step(args: seq<string>, i: nat, c: Config, scan: IntReads): (r: Turn)
    requires i < |args|
    ensures r.Continue? ==> i < r.next <= |args|
    ensures r.Continue? && args[i] == "-t" ==> forall k | i < k < r.next :: !HasPrefix(args[k], "-")
    ensures r.Continue? && args[i] == "-t" ==> r.next == |args| || HasPrefix(args[r.next], "-")
    ensures r.Continue? && args[i] != "-t" ==>
      r.next == i + 2 && r.config.templates == c.templates
    ensures r.Stopped? <==> args[i] != "-t" && (!TakesValue(args[i]) || i + 1 == |args|)
    ensures r.Stopped? && args[i] == "-h" ==> r.reason == ShortUsage
    ensures r.Stopped? && args[i] == "--help" ==> r.reason == FullUsage
    ensures r.Stopped? && TakesValue(args[i]) ==> r.reason == MissingValue(args[i])
    ensures r.Stopped? && !IsOption(args[i]) ==> r.reason == Unrecognized(args[i])
  {
    var a := args[i];
    if a == "-t" then
      var j := TemplateRunEnd(args, i + 1);
      Continue(j, c.(templates := c.templates + args[i + 1..j]))
    else if a == "-h" then Stopped(ShortUsage)
    else if a == "--help" then Stopped(FullUsage)
    else if !TakesValue(a) then Stopped(Unrecognized(a))
    else if i + 1 == |args| then Stopped(MissingValue(a))
    else Continue(i + 2, SetValue(c, a, args[i + 1], scan))
  }

  /**
   A `-t` turn always continues. It appends exactly the arguments it passes
   over to the templates and changes nothing else in the configuration.
   */
  lemma StepOnTemplates(args: seq<string>, i: nat, c: Config, scan: IntReads)
    requires i < |args| && args[i] == "-t"
    ensures Step(args, i, c, scan).Continue?
    ensures var r := Step(args, i, c, scan);
      i < r.next <= |args| && r.config == c.(templates := c.templates + args[i + 1..r.next])
  {
  }

  /** The loop from index `i` with configuration `c` collected so far. */
  function ParseFrom(args: seq<string>, i: nat, c: Config, scan: IntReads): Parsed
    requires i <= |args|
    decreases |args| - i
  {
    if i == |args| then Run(c)
    else
      match Step(args, i, c, scan)
      case Stopped(reason) => Halt(reason)
      case Continue(j, c') => ParseFrom(args, j, c', scan)
  }

  /** Argument handling of `main`, from the empty-list check to the end of the loop. */
  function Parse(args: seq<string>, scan: IntReads): Parsed
  {
    if |args| == 0 then Halt(NoArguments) else ParseFrom(args, 0, Defaults, scan)
  }

  /** A non-empty `-d` value selects the single-target run; otherwise the domain file is read. */
  function ModeOf(c: Config): Mode
  {
    if c.domain != "" then SingleTarget(c.domain) else DomainFile(c.filePath)
  }

  /**
   The inner loop of `-t`: appends arguments from `i` on until one starts
   with `-`, and returns where it stopped.
   */
  method TakeTemplates(args: seq<string>, i: nat, c: Config) returns (j: nat, c': Config)
    requires i <= |args|
    ensures j == TemplateRunEnd(args, i)
    ensures c' == c.(templates := c.templates + args[i..j])
  {
    j, c' := i, c;
    while j < |args| && !HasPrefix(args[j], "-")
      invariant i <= j <= |args|
      invariant TemplateRunEnd(args, j) == TemplateRunEnd(args, i)
      invariant c' == c.(templates := c.templates + args[i..j])
      decreases |args| - j
    {
      assert args[i..j + 1] == args[i..j] + [args[j]];
      c' := c'.(templates := c'.templates + [args[j]]);
      j := j + 1;
    }
  }

  /**
   The loop as `main` writes it, with the inner `-t` loop, computing what
   `Parse` defines.
   */
  method ParseArgs(args: seq<string>, scan: IntReads) returns (r: Parsed)
    ensures r == Parse(args, scan)
  {
    if |args| < 1 {
      return Halt(NoArguments);
    }
    var c := Defaults;
    var i := 0;
    while i < |args|
      invariant i <= |args|
      invariant ParseFrom(args, i, c, scan) == Parse(args, scan)
      decreases |args| - i
    {
      var arg := args[i];
      ghost var start := i;
      ghost var before := c;
      if arg == "-t" {
        i, c := TakeTemplates(args, i + 1, c);
        assert Step(args, start, before, scan) == Continue(i, c);
      } else if arg == "-h" {
        return Halt(ShortUsage);
      } else if arg == "--help" {
        return Halt(FullUsage);
      } else if TakesValue(arg) {
        i := i + 1;
        if i < |args| {
          c := SetValue(c, arg, args[i], scan);
          i := i + 1;
          assert Step(args, start, before, scan) == Continue(i, c);
        } else {
          return Halt(MissingValue(arg));
        }
      } else {
        return Halt(Unrecognized(arg));
      }
    }
    return Run(c);
  }

  /**
   Whatever the loop collects from index `i` on keeps the templates it
   started with as a prefix, and everything it appends is an argument from
   `i` on that does not start with `-`.
   */
  lemma {:induction false} ParseFromExtendsTemplates(args: seq<string>, i: nat, c: Config, scan: IntReads)
    requires i <= |args|
    requires ParseFrom(args, i, c, scan).Run?
    ensures c.templates <= ParseFrom(args, i, c, scan).config.templates
    ensures var t := ParseFrom(args, i, c, scan).config.templates;
      forall k | |c.templates| <= k < |t| :: t[k] in args[i..] && !HasPrefix(t[k], "-")
    decreases |args| - i
  {
    if i < |args| {
      var s := Step(args, i, c, scan);
      ParseFromExtendsTemplates(args, s.next, s.config, scan);
      var t := ParseFrom(args, i, c, scan).config.templates;
      forall k | |c.templates| <= k < |t|
        ensures t[k] in args[i..] && !HasPrefix(t[k], "-")
      {
        if k < |s.config.templates| {
          assert args[i] == "-t";
          var m := k - |c.templates|;
          assert t[k] == args[i + 1..s.next][m] == args[i + 1 + m];
          assert args[i + 1 + m] == args[i..][1 + m];
        } else {
          assert t[k] in args[s.next..];
          assert args[s.next..] == args[i..][s.next - i..];
        }
      }
    }
  }

  /**
   `-t` only adds: a parsed configuration starts with the five defaults in
   their order, and every template after them came from the command line and
   does not start with `-`.
   */
  lemma ParsedTemplatesExtendDefaults(args: seq<string>, scan: IntReads)
    requires Parse(args, scan).Run?
    ensures DefaultTemplates <= Parse(args, scan).config.templates
    ensures var t := Parse(args, scan).config.templates;
      forall k | |DefaultTemplates| <= k < |t| :: t[k] in args && !HasPrefix(t[k], "-")
  {
    ParseFromExtendsTemplates(args, 0, Defaults, scan);
    assert args[0..] == args;
  }

  /**
   Every stop names its cause: a missing value is always for the last
   argument, which is a value-taking option; an unrecognised option, `-h` and
   `--help` are arguments from `i` on; and the loop itself never reports an
   empty argument list.
   */
  lemma {:induction false} ParseFromStopReasons(args: seq<string>, i: nat, c: Config, scan: IntReads)
    requires i <= |args|
    requires ParseFrom(args, i, c, scan).Halt?
    ensures var s := ParseFrom(args, i, c, scan).reason;
      && !s.NoArguments?
      && (s.MissingValue? ==> TakesValue(s.option) && |args| > 0 && args[|args| - 1] == s.option)
      && (s.Unrecognized? ==> !IsOption(s.option) && s.option in args[i..])
      && (s.ShortUsage? ==> "-h" in args[i..])
      && (s.FullUsage? ==> "--help" in args[i..])
    decreases |args| - i
  {
    var st := Step(args, i, c, scan);
    if st.Continue? {
      ParseFromStopReasons(args, st.next, st.config, scan);
      assert args[st.next..] == args[i..][st.next - i..];
    } else {
      assert args[i] == args[i..][0];
    }
  }

  /** `Parse` stops only for the reasons its arguments give. */
  lemma ParseStopReasons(args: seq<string>, scan: IntReads)
    requires Parse(args, scan).Halt?
    ensures var s := Parse(args, scan).reason;
      && (s.NoArguments? <==> args == [])
      && (s.MissingValue? ==> TakesValue(s.option) && args[|args| - 1] == s.option)
      && (s.Unrecognized? ==> !IsOption(s.option) && s.option in args)
      && (s.ShortUsage? ==> "-h" in args)
      && (s.FullUsage? ==> "--help" in args)
  {
    if args != [] {
      ParseFromStopReasons(args, 0, Defaults, scan);
      assert args[0..] == args;
    }
  }

  /** A `-t` run that ends inside `p` ends at the same place in `p + tail`. */
  lemma {:induction false} TemplateRunEndExtend(p: seq<string>, tail: seq<string>, i: nat)
    requires i <= |p|
    requires tail == [] || HasPrefix(tail[0], "-")
    ensures TemplateRunEnd(p + tail, i) == TemplateRunEnd(p, i)
    decreases |p| - i
  {
    if i < |p| {
      assert (p + tail)[i] == p[i];
      if !HasPrefix(p[i], "-") {
        TemplateRunEndExtend(p, tail, i + 1);
      }
    } else if tail != [] {
      assert (p + tail)[i] == tail[0];
    }
  }

  /**
   When `p` parses to completion from `i`, appending arguments that begin
   with an option does not disturb the turns taken inside `p`: parsing
   `p + tail` reaches the end of `p` with the same configuration.
   */
  lemma {:induction false} ParseFromAcrossBoundary(p: seq<string>, tail: seq<string>, i: nat, c: Config, scan: IntReads)
    requires i <= |p|
    requires ParseFrom(p, i, c, scan).Run?
    requires tail == [] || HasPrefix(tail[0], "-")
    ensures ParseFrom(p + tail, i, c, scan) == ParseFrom(p + tail, |p|, ParseFrom(p, i, c, scan).config, scan)
    decreases |p| - i
  {
    if i < |p| {
      var s := Step(p, i, c, scan);
      assert (p + tail)[i] == p[i];
      if p[i] == "-t" {
        TemplateRunEndExtend(p, tail, i + 1);
        assert (p + tail)[i + 1..s.next] == p[i + 1..s.next];
      } else {
        assert (p + tail)[i + 1] == p[i + 1];
      }
      assert Step(p + tail, i, c, scan) == s;
      ParseFromAcrossBoundary(p, tail, s.next, s.config, scan);
    }
  }

  /**
   After a complete command line `p`, an argument `o` that starts with `-`
   decides the outcome on its own: a value-taking option with nothing after
   it is a missing value, `-h` and `--help` print usage, and any other such
   argument is unrecognised — whatever `rest` holds.
   */
  lemma OptionAfterCompleteLine(p: seq<string>, o: string, rest: seq<string>, scan: IntReads)
    requires ParseFrom(p, 0, Defaults, scan).Run?
    requires HasPrefix(o, "-")
    ensures TakesValue(o) && rest == [] ==> Parse(p + [o] + rest, scan) == Halt(MissingValue(o))
    ensures o == "-h" ==> Parse(p + [o] + rest, scan) == Halt(ShortUsage)
    ensures o == "--help" ==> Parse(p + [o] + rest, scan) == Halt(FullUsage)
    ensures !IsOption(o) ==> Parse(p + [o] + rest, scan) == Halt(Unrecognized(o))
  {
    var args := p + [o] + rest;
    assert args == p + ([o] + rest);
    ParseFromAcrossBoundary(p, [o] + rest, 0, Defaults, scan);
    assert args[|p|] == o;
  }

  /** A command line built from option values, the inverse of parsing it. */
  function CommandLine(domain: string, file: string, p: string, flags: string, tp: string, extra: seq<string>): seq<string>
  {
    ["-d", domain, "-f", file, "-p", p, "-nf", flags, "-tp", tp, "-t"] + extra
  }

  /**
   Parsing a command line built from values gives those values back, the
   extra templates after the five defaults and the parallelism the integer
   scan reads (4 when it fails); a non-empty domain selects the
   single-target run.
   */
  lemma CommandLineRoundTrip(domain: string, file: string, p: string, flags: string, tp: string,
                             extra: seq<string>, scan: IntReads)
    requires forall k | 0 <= k < |extra| :: !HasPrefix(extra[k], "-")
    ensures Parse(CommandLine(domain, file, p, flags, tp, extra), scan)
      == Run(Config(domain, file, ParseInt(p, DefaultParallelism, scan), flags, DefaultTemplates + extra, tp))
    ensures ModeOf(Parse(CommandLine(domain, file, p, flags, tp, extra), scan).config)
      == if domain != "" then SingleTarget(domain) else DomainFile(file)
  {
    var args := CommandLine(domain, file, p, flags, tp, extra);
    var c4 := Defaults.(domain := domain, filePath := file, parallelism := ParseInt(p, DefaultParallelism, scan),
                        nucleiFlags := flags, templatesPath := tp);
    CommandLineOptions(domain, file, p, flags, tp, extra, scan);
    assert args[11..] == extra;
    forall k | 11 <= k < |args|
      ensures !HasPrefix(args[k], "-")
    {
      assert args[k] == extra[k - 11];
    }
    TemplatesLast(args, 10, c4, scan);
  }

  /** The five value options of a built command line are stored in turn, up to the `-t` at index 10. */
  lemma CommandLineOptions(domain: string, file: string, p: string, flags: string, tp: string,
                           extra: seq<string>, scan: IntReads)
    ensures CommandLine(domain, file, p, flags, tp, extra)[10] == "-t"
    ensures ParseFrom(CommandLine(domain, file, p, flags, tp, extra), 0, Defaults, scan)
      == ParseFrom(CommandLine(domain, file, p, flags, tp, extra), 10,
                   Defaults.(domain := domain, filePath := file, parallelism := ParseInt(p, DefaultParallelism, scan),
                             nucleiFlags := flags, templatesPath := tp), scan)
  {
    var args := CommandLine(domain, file, p, flags, tp, extra);
    assert args[0] == "-d" && args[1] == domain && args[2] == "-f" && args[3] == file;
    assert args[4] == "-p" && args[5] == p && args[6] == "-nf" && args[7] == flags;
    assert args[8] == "-tp" && args[9] == tp && args[10] == "-t";
    var c0 := Defaults.(domain := domain);
    var c1 := c0.(filePath := file);
    var c2 := c1.(parallelism := ParseInt(p, DefaultParallelism, scan));
    var c3 := c2.(nucleiFlags := flags);
    assert SetValue(Defaults, args[0], args[1], scan) == c0;
    assert SetValue(c0, args[2], args[3], scan) == c1;
    assert SetValue(c1, args[4], args[5], scan) == c2;
    assert SetValue(c2, args[6], args[7], scan) == c3;
    ValueOptionStep(args, 0, Defaults, scan);
    ValueOptionStep(args, 2, c0, scan);
    ValueOptionStep(args, 4, c1, scan);
    ValueOptionStep(args, 6, c2, scan);
    ValueOptionStep(args, 8, c3, scan);
  }

  /** A final `-t` whose arguments do not start with `-` appends them all and ends the loop. */
  lemma TemplatesLast(args: seq<string>, i: nat, c: Config, scan: IntReads)
    requires i < |args| && args[i] == "-t"
    requires forall k | i < k < |args| :: !HasPrefix(args[k], "-")
    ensures ParseFrom(args, i, c, scan) == Run(c.(templates := c.templates + args[i + 1..]))
  {
    TemplateRunCoversTail(args, i + 1);
    assert Step(args, i, c, scan) == Continue(|args|, c.(templates := c.templates + args[i + 1..]));
  }

  /** A value-taking option followed by a value: the loop stores it and moves past both. */
  lemma ValueOptionStep(args: seq<string>, i: nat, c: Config, scan: IntReads)
    requires i + 1 < |args| && TakesValue(args[i])
    ensures ParseFrom(args, i, c, scan) == ParseFrom(args, i + 2, SetValue(c, args[i], args[i + 1], scan), scan)
  {
  }

  /** A `-t` run over arguments none of which starts with `-` reaches the end. */
  lemma {:induction false} TemplateRunCoversTail(args: seq<string>, i: nat)
    requires i <= |args|
    requires forall k | i <= k < |args| :: !HasPrefix(args[k], "-")
    ensures TemplateRunEnd(args, i) == |args|
    decreases |args| - i
  {
    if i < |args| {
      TemplateRunCoversTail(args, i + 1);
    }
  }
}
