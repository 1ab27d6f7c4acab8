/** The visual-test script: its command line, the defaults applied to the
    options, and the prompt and query options it sends to the agent. The
    agent's streamed reply is only logged, so it is left out together with
    the logging and `process.exit`. */
module VisualTest {
  import opened Wrappers
  import opened Strings

  /** `VisualTestOptions`: an absent field is `undefined`. The script
      does not check theme or viewport names, so any strings are kept. */
  datatype VisualOptions = VisualOptions(
    componentName: string,
    themes: Option<seq<string>>,
    viewports: Option<seq<string>>,
    outputDir: Option<string>)

  /** `Usage` is the usage message and exit; `MissingValue` is the
      `TypeError` thrown by `undefined.split` for a trailing flag. */
  datatype CliError = Usage | MissingValue(flag: string)

  const ThemesFlag: string := "--themes"
  const ViewportsFlag: string := "--viewports"
  const OutputFlag: string := "--output"

  /** `args[i]`, `undefined` past the end. */
  function ValueAt(args: seq<string>, i: nat): Option<string> {
    if i < |args| then Some(args[i]) else None
  }

  /** One case of the `switch`: a list flag needs a value to split, the
      output flag takes whatever is there (possibly `undefined`), and any
      other flag is ignored. */
  function ApplyFlag(o: VisualOptions, flag: string, value: Option<string>): (r: Result<VisualOptions, CliError>)
    ensures r.Failure? <==> (flag == ThemesFlag || flag == ViewportsFlag) && value.None?
    ensures r.Failure? ==> r.error == MissingValue(flag)
    ensures r.Success? ==> r.value.componentName == o.componentName
    ensures r.Success? && flag == ThemesFlag ==> r.value == o.(themes := Some(Split(value.value, ',')))
    ensures r.Success? && flag == ViewportsFlag ==> r.value == o.(viewports := Some(Split(value.value, ',')))
    ensures flag == OutputFlag ==> r == Success(o.(outputDir := value))
    ensures flag !in {ThemesFlag, ViewportsFlag, OutputFlag} ==> r == Success(o)
  {
    if flag == ThemesFlag then
      if value.None? then Failure(MissingValue(flag)) else Success(o.(themes := Some(Split(value.value, ','))))
    else if flag == ViewportsFlag then
      if value.None? then Failure(MissingValue(flag)) else Success(o.(viewports := Some(Split(value.value, ','))))
    else if flag == OutputFlag then Success(o.(outputDir := value))
    else Success(o)
  }

  /** The `for (let i = 1; i < args.length; i += 2)` loop from index `i`. */
  function ParseFlags(args: seq<string>, i: nat, o: VisualOptions): Result<VisualOptions, CliError>
    decreases |args| - i
  {
    if i >= |args| then Success(o)
    else
      var o' :- ApplyFlag(o, args[i], ValueAt(args, i + 1));
      ParseFlags(args, i + 2, o')
  }

  /** The command line after the script name. */
  function ParseArgs(args: seq<string>): (r: Result<VisualOptions, CliError>)
    ensures |args| == 0 <==> r == Failure(Usage)
    ensures r.Success? ==> r.value.componentName == args[0]
  {
    if |args| < 1 then Failure(Usage)
    else
      ParseFlagsKeepsName(args, 1, VisualOptions(args[0], None, None, None));
      ParseFlags(args, 1, VisualOptions(args[0], None, None, None))
  }

  lemma {:induction false} ParseFlagsKeepsName(args: seq<string>, i: nat, o: VisualOptions)
    ensures ParseFlags(args, i, o).Failure? ==> ParseFlags(args, i, o).error != Usage
    ensures ParseFlags(args, i, o).Success? ==> ParseFlags(args, i, o).value.componentName == o.componentName
    decreases |args| - i
  {
    if i < |args| {
      var r := ApplyFlag(o, args[i], ValueAt(args, i + 1));
      if r.Success? {
        ParseFlagsKeepsName(args, i + 2, r.value);
      }
    }
  }

  /** Flags are read in pairs: an unknown flag is skipped with the
      argument after it, whatever that argument is. */
  lemma UnknownFlagSkipped(args: seq<string>, i: nat, o: VisualOptions)
    requires i < |args|
    requires args[i] !in {ThemesFlag, ViewportsFlag, OutputFlag}
    ensures ParseFlags(args, i, o) == ParseFlags(args, i + 2, o)
  {
  }

  /** Appending one more pair after whole pairs applies that flag last. */
  lemma {:induction false} ParseFlagsAppend(args: seq<string>, i: nat, o: VisualOptions, flag: string, value: string)
    requires i <= |args| && (|args| - i) % 2 == 0
    ensures ParseFlags(args + [flag, value], i, o)
         == (match ParseFlags(args, i, o)
             case Failure(e) => Failure(e)
             case Success(o') => ApplyFlag(o', flag, Some(value)))
    decreases |args| - i
  {
    var args' := args + [flag, value];
    if i == |args| {
      assert args'[i] == flag && ValueAt(args', i + 1) == Some(value);
      var r := ApplyFlag(o, flag, Some(value));
      if r.Success? {
        assert ParseFlags(args', i + 2, r.value) == Success(r.value);
      }
    } else {
      assert args'[i] == args[i] && ValueAt(args', i + 1) == ValueAt(args, i + 1);
      var r := ApplyFlag(o, args[i], ValueAt(args, i + 1));
      if r.Success? {
        ParseFlagsAppend(args, i + 2, r.value, flag, value);
      }
    }
  }

  /** Appending a lone flag after whole pairs applies it with no value. */
  lemma {:induction false} ParseFlagsTrailing(args: seq<string>, i: nat, o: VisualOptions, flag: string)
    requires i <= |args| && (|args| - i) % 2 == 0
    ensures ParseFlags(args + [flag], i, o)
         == (match ParseFlags(args, i, o)
             case Failure(e) => Failure(e)
             case Success(o') => ApplyFlag(o', flag, None))
    decreases |args| - i
  {
    var args' := args + [flag];
    if i == |args| {
      assert args'[i] == flag && ValueAt(args', i + 1) == None;
      var r := ApplyFlag(o, flag, None);
      if r.Success? {
        assert ParseFlags(args', i + 2, r.value) == Success(r.value);
      }
    } else {
      assert args'[i] == args[i] && ValueAt(args', i + 1) == ValueAt(args, i + 1);
      var r := ApplyFlag(o, args[i], ValueAt(args, i + 1));
      if r.Success? {
        ParseFlagsTrailing(args, i + 2, r.value, flag);
      }
    }
  }

  /** A repeated flag takes its last value: appending a pair overrides the
      field it names and leaves the other fields as they were. */
  lemma LastValueWins(args: seq<string>, value: string)
    requires |args| % 2 == 1
    requires ParseArgs(args).Success?
    ensures ParseArgs(args + [OutputFlag, value]) == Success(ParseArgs(args).value.(outputDir := Some(value)))
    ensures ParseArgs(args + [ThemesFlag, value]) == Success(ParseArgs(args).value.(themes := Some(Split(value, ','))))
    ensures ParseArgs(args + [ViewportsFlag, value]) == Success(ParseArgs(args).value.(viewports := Some(Split(value, ','))))
  {
    var o := VisualOptions(args[0], None, None, None);
    ParseFlagsAppend(args, 1, o, OutputFlag, value);
    ParseFlagsAppend(args, 1, o, ThemesFlag, value);
    ParseFlagsAppend(args, 1, o, ViewportsFlag, value);
    assert (args + [OutputFlag, value])[0] == args[0];
    assert (args + [ThemesFlag, value])[0] == args[0];
    assert (args + [ViewportsFlag, value])[0] == args[0];
  }

  /** A trailing `--themes` or `--viewports` with no value is an error,
      while a trailing `--output` resets the directory to `undefined`, so
      the default applies again. */
  lemma TrailingFlag(args: seq<string>)
    requires |args| % 2 == 1
    requires ParseArgs(args).Success?
    ensures ParseArgs(args + [ThemesFlag]) == Failure(MissingValue(ThemesFlag))
    ensures ParseArgs(args + [ViewportsFlag]) == Failure(MissingValue(ViewportsFlag))
    ensures ParseArgs(args + [OutputFlag]) == Success(ParseArgs(args).value.(outputDir := None))
  {
    var o := VisualOptions(args[0], None, None, None);
    ParseFlagsTrailing(args, 1, o, ThemesFlag);
    ParseFlagsTrailing(args, 1, o, ViewportsFlag);
    ParseFlagsTrailing(args, 1, o, OutputFlag);
    assert (args + [ThemesFlag])[0] == args[0];
    assert (args + [ViewportsFlag])[0] == args[0];
    assert (args + [OutputFlag])[0] == args[0];
  }

  /** The command line that asks for the given themes, viewports and
      output directory. */
  function ArgsFor(componentName: string, themes: seq<string>, viewports: seq<string>, outputDir: string): seq<string> {
    [componentName, ThemesFlag, Join(themes, ","), ViewportsFlag, Join(viewports, ","), OutputFlag, outputDir]
  }

  /** Lists written comma-separated on the command line come back as the
      same lists, provided no entry holds a comma and neither is empty. */
  lemma ArgsRoundTrip(componentName: string, themes: seq<string>, viewports: seq<string>, outputDir: string)
    requires |themes| >= 1 && |viewports| >= 1
    requires forall k :: 0 <= k < |themes| ==> ',' !in themes[k]
    requires forall k :: 0 <= k < |viewports| ==> ',' !in viewports[k]
    ensures ParseArgs(ArgsFor(componentName, themes, viewports, outputDir))
         == Success(VisualOptions(componentName, Some(themes), Some(viewports), Some(outputDir)))
  {
    SplitJoin(themes, ',');
    SplitJoin(viewports, ',');
    var args := ArgsFor(componentName, themes, viewports, outputDir);
    var o0 := VisualOptions(componentName, None, None, None);
    var o1 := o0.(themes := Some(themes));
    var o2 := o1.(viewports := Some(viewports));
    var o3 := o2.(outputDir := Some(outputDir));
    assert ParseFlags(args, 7, o3) == Success(o3);
    assert ParseFlags(args, 5, o2) == ParseFlags(args, 7, o3);
    assert ParseFlags(args, 3, o1) == ParseFlags(args, 5, o2);
    assert ParseFlags(args, 1, o0) == ParseFlags(args, 3, o1);
  }

  /* ------------------------------------------------------------ defaults */

  const DefaultThemes: seq<string> := ["light", "dark"]
  const DefaultViewports: seq<string> := ["mobile", "desktop"]
  const DefaultOutputDir: string := "./screenshots"

  /** The options after the destructuring defaults, which replace only
      `undefined` (an empty output directory is kept). */
  datatype Settings = Settings(componentName: string, themes: seq<string>, viewports: seq<string>, outputDir: string)

  function Resolve(o: VisualOptions): (s: Settings)
    ensures s.componentName == o.componentName
    ensures s.themes == (if o.themes.Some? then o.themes.value else DefaultThemes)
    ensures s.viewports == (if o.viewports.Some? then o.viewports.value else DefaultViewports)
    ensures s.outputDir == (if o.outputDir.Some? then o.outputDir.value else DefaultOutputDir)
  {
    Settings(o.componentName, o.themes.GetOr(DefaultThemes), o.viewports.GetOr(DefaultViewports),
             o.outputDir.GetOr(DefaultOutputDir))
  }

  /** A bare component name gets the light and dark themes, the mobile and
      desktop viewports and the `./screenshots` directory. */
  lemma DefaultsForBareName(componentName: string)
    ensures ParseArgs([componentName]).Success?
    ensures Resolve(ParseArgs([componentName]).value)
         == Settings(componentName, ["light", "dark"], ["mobile", "desktop"], "./screenshots")
  {
  }

  /* -------------------------------------------------------------- prompt */

  /** The template lines that carry the settings. */
  function IntroLine(s: Settings): string {
    "Using the Playwright MCP server, generate screenshots of the " + s.componentName + " component."
  }

  function ThemesLine(s: Settings): string {
    "2. Test in " + Join(s.themes, " and ") + " themes"
  }

  function ViewportsLine(s: Settings): string {
    "3. Test in " + Join(s.viewports, ", ") + " viewports"
  }

  function OutputLine(s: Settings): string {
    "5. Save screenshots to " + s.outputDir
  }

  function DemoPageLine(s: Settings): string {
    "2. Navigate to /components/" + s.componentName
  }

  function FileNameLine(s: Settings): string {
    "For each screenshot, name it: " + s.componentName + "-{theme}-{viewport}-{state}.png"
  }

  /** The lines of the prompt template; the entries at the positions of
      the lines that carry settings are placeholders. The template starts
      and ends with a line break, hence the empty first and last lines. */
  const TemplateLines: seq<string> := [
    "",
    "",
    "",
    "Requirements:",
    "1. Navigate to the component demo page",
    "",
    "",
    "4. Capture loading, empty, and error states if applicable",
    "",
    "",
    "Use these viewport sizes:",
    "- mobile: 375x667 (iPhone SE)",
    "- tablet: 768x1024 (iPad)",
    "- desktop: 1920x1080 (Full HD)",
    "",
    "",
    "",
    "Steps:",
    "1. Start the showcase dev server if not running",
    "",
    "3. For each theme:",
    "   - Toggle theme using theme switcher",
    "   - For each viewport:",
    "     - Set viewport size",
    "     - Take screenshot of default state",
    "     - If interactive, capture hover/active states",
    "     - If form component, capture filled state",
    "4. Generate a summary report of all screenshots taken",
    ""]

  /** Line `k` of the prompt, with the settings filled in. */
  function TemplateLine(s: Settings, k: nat): string
    requires k < |TemplateLines|
  {
    if k == 1 then IntroLine(s)
    else if k == 5 then ThemesLine(s)
    else if k == 6 then ViewportsLine(s)
    else if k == 8 then OutputLine(s)
    else if k == 15 then FileNameLine(s)
    else if k == 19 then DemoPageLine(s)
    else TemplateLines[k]
  }

  function PromptLines(s: Settings): (lines: seq<string>)
    ensures |lines| == 29
  {
    seq(|TemplateLines|, k requires 0 <= k < |TemplateLines| => TemplateLine(s, k))
  }

  /** The prompt sent to the agent. */
  function Prompt(s: Settings): string {
    Join(PromptLines(s), "\n")
  }

  /** `line` appears in the prompt as a whole line, between two line
      breaks. */
  predicate ShowsLine(prompt: string, line: string) {
    exists p :: 0 <= p < |prompt| && OccursAt(prompt, "\n" + line + "\n", p)
  }

  /** Each inner line of a newline join is shown as a whole line. */
  lemma JoinShowsLine(xs: seq<string>, k: nat)
    requires 0 < k < |xs| - 1
    ensures ShowsLine(Join(xs, "\n"), xs[k])
  {
    var p := |Join(xs[..k], "\n")|;
    JoinShowsPiece(xs, "\n", k);
    assert OccursAt(Join(xs, "\n"), "\n" + xs[k] + "\n", p);
  }

  lemma TemplateLineShown(s: Settings, k: nat)
    requires 0 < k < 28
    ensures ShowsLine(Prompt(s), PromptLines(s)[k])
  {
    var lines := PromptLines(s);
    assert |lines| == 29;
    JoinShowsLine(lines, k);
  }

  lemma SettingLines(s: Settings)
    ensures PromptLines(s)[1] == IntroLine(s)
    ensures PromptLines(s)[5] == ThemesLine(s)
    ensures PromptLines(s)[6] == ViewportsLine(s)
    ensures PromptLines(s)[8] == OutputLine(s)
    ensures PromptLines(s)[19] == DemoPageLine(s)
  {
  }

  /** The prompt names the component, lists the themes joined by " and "
      and the viewports joined by ", ", names the output directory, and
      points at the component's demo page, each on a line of its own. */
  lemma PromptShowsSettings(s: Settings)
    ensures ShowsLine(Prompt(s), IntroLine(s))
    ensures ShowsLine(Prompt(s), ThemesLine(s))
    ensures ShowsLine(Prompt(s), ViewportsLine(s))
    ensures ShowsLine(Prompt(s), OutputLine(s))
    ensures ShowsLine(Prompt(s), DemoPageLine(s))
  {
    TemplateLineShown(s, 1);
    TemplateLineShown(s, 5);
    TemplateLineShown(s, 6);
    TemplateLineShown(s, 8);
    TemplateLineShown(s, 19);
    SettingLines(s);
  }

  /* --------------------------------------------------------------- query */

  const AllowedTools: seq<string> := [
    "mcp__playwright__screenshot", "mcp__playwright__navigate",
    "mcp__playwright__click", "mcp__filesystem__write_file"]

  /** What the script asks the agent for. */
  datatype VisualQuery = VisualQuery(prompt: string, maxTurns: nat, allowedTools: seq<string>)

  /** `visualTestComponent(options)` up to the query: the defaults, the
      prompt, ten turns and the four allowed tools. */
  function VisualTestQuery(o: VisualOptions): (q: VisualQuery)
    ensures q.maxTurns == 10
    ensures |q.allowedTools| == 4
    ensures q.prompt == Prompt(Resolve(o))
  {
    VisualQuery(Prompt(Resolve(o)), 10, AllowedTools)
  }

  /** For a bare component name on the command line, the prompt asks for
      the light and dark themes on mobile and desktop, saved to
      `./screenshots`. */
  lemma BareNamePrompt(componentName: string)
    ensures var prompt := VisualTestQuery(ParseArgs([componentName]).value).prompt;
      && ShowsLine(prompt, "2. Test in light and dark themes")
      && ShowsLine(prompt, "3. Test in mobile, desktop viewports")
      && ShowsLine(prompt, "5. Save screenshots to ./screenshots")
  {
    var s := Settings(componentName, DefaultThemes, DefaultViewports, DefaultOutputDir);
    DefaultsForBareName(componentName);
    assert VisualTestQuery(ParseArgs([componentName]).value).prompt == Prompt(s);
    PromptShowsSettings(s);
    DefaultThemesLine(s);
    DefaultViewportsLine(s);
    DefaultOutputLine(s);
  }

  lemma DefaultThemesLine(s: Settings)
    requires s.themes == DefaultThemes
    ensures ThemesLine(s) == "2. Test in light and dark themes"
  {
    JoinTwo("light", "dark", " and ");
  }

  lemma DefaultViewportsLine(s: Settings)
    requires s.viewports == DefaultViewports
    ensures ViewportsLine(s) == "3. Test in mobile, desktop viewports"
  {
    JoinTwo("mobile", "desktop", ", ");
  }

  lemma DefaultOutputLine(s: Settings)
    requires s.outputDir == DefaultOutputDir
    ensures OutputLine(s) == "5. Save screenshots to ./screenshots"
  {
  }

  lemma JoinTwo(x: string, y: string, sep: string)
    ensures Join([x, y], sep) == x + sep + y
  {
    assert [x, y][1..] == [y];
  }
}
