/** The five-phase component generator script. Each phase formats a prompt
    from its prompt file, the component options and the previous phase's
    output, and sends it to an agent whose streamed reply becomes the
    phase's output; the output of the last phase is searched for the
    component code.

    Everything the script reads or talks to is a parameter: the files under
    `.claude/prompts` are a map from file name to contents (a missing key
    is a missing file), and the agent's reply to each phase is the message
    sequence it would stream. Logging, the one-second pause between phases,
    writing the file and `process.exit` are left out. */
module GenerateComponent {
  import opened Wrappers
  import opened Strings
  import opened CodeExtraction

  /* ----------------------------------------------------------- the phases */

  datatype Phase = Phase(name: string, promptFile: string, maxTurns: Option<nat>, requiresUserInput: bool)

  /** `PHASES`. */
  const Phases: seq<Phase> := [
    Phase("Planning", "phase1-planning.md", Some(3), false),
    Phase("Questions", "phase2-questions.md", Some(2), true),
    Phase("Implementation", "phase3-implementation.md", Some(5), false),
    Phase("Review", "phase4-review.md", Some(3), false),
    Phase("Finalize", "phase5-finalize.md", Some(2), false)]

  /** The component options; the category is not checked by the script,
      so any string is accepted. */
  datatype GenerationOptions = GenerationOptions(
    name: string,
    category: string,
    description: string,
    interactive: bool,
    outputDir: Option<string>)

  /** The prompt directory: file name to contents. */
  type PromptFiles = map<string, string>

  datatype GenerationError = PromptNotFound(file: string) | NoComponentCode(message: string)

  /** `loadPrompt(filename)`. */
  function LoadPrompt(files: PromptFiles, file: string): (r: Result<string, GenerationError>)
    ensures r.Success? <==> file in files
    ensures r.Success? ==> r.value == files[file]
    ensures r.Failure? ==> r.error == PromptNotFound(file)
  {
    if file in files then Success(files[file]) else Failure(PromptNotFound(file))
  }

  /** The skip rule of `executePhase`: a phase that needs the user is
      skipped unless the run is interactive. */
  predicate Skips(phase: Phase, options: GenerationOptions) {
    phase.requiresUserInput && !options.interactive
  }

  /** `phase.maxTurns || 3`. */
  function EffectiveMaxTurns(phase: Phase): (n: nat)
    ensures n > 0
    ensures phase.maxTurns.Some? && phase.maxTurns.value != 0 ==> n == phase.maxTurns.value
    ensures phase.maxTurns.None? || phase.maxTurns.value == 0 ==> n == 3
  {
    if phase.maxTurns.Some? && phase.maxTurns.value != 0 then phase.maxTurns.value else 3
  }

  /** The phase table: five phases in a fixed order with these prompt
      files and turn limits, and only Questions asks for the user. */
  lemma PhaseTable()
    ensures |Phases| == 5
    ensures Phases[0].name == "Planning" && Phases[1].name == "Questions" && Phases[2].name == "Implementation"
         && Phases[3].name == "Review" && Phases[4].name == "Finalize"
    ensures forall k :: 0 <= k < |Phases| ==> (Phases[k].requiresUserInput <==> k == 1)
    ensures EffectiveMaxTurns(Phases[0]) == 3 && EffectiveMaxTurns(Phases[1]) == 2
         && EffectiveMaxTurns(Phases[2]) == 5 && EffectiveMaxTurns(Phases[3]) == 3
         && EffectiveMaxTurns(Phases[4]) == 2
    ensures forall k, l :: 0 <= k < l < |Phases| ==> Phases[k].promptFile != Phases[l].promptFile
  {
  }

  /* ------------------------------------------------------- shared context */

  const SharedContextFiles: seq<string> := ["shared-context.md", "bitcoin-patterns.md", "sensible-defaults.md"]

  const ContextSeparator: string := "\n\n---\n\n"

  /** `loadPrompt(ctx).catch(() => "")`. */
  function LoadedOrEmpty(files: PromptFiles, file: string): string {
    if file in files then files[file] else ""
  }

  /** `filter(Boolean)` on strings: the non-empty ones, in order. */
  function NonEmpty(xs: seq<string>): (r: seq<string>)
    ensures |r| <= |xs|
    ensures forall k :: 0 <= k < |r| ==> r[k] != ""
    ensures forall x :: x in r <==> x in xs && x != ""
  {
    if |xs| == 0 then []
    else (if xs[0] != "" then [xs[0]] else []) + NonEmpty(xs[1..])
  }

  /** Filtering distributes over concatenation, so the kept strings stay
      in their original order with their multiplicity. */
  lemma {:induction false} NonEmptyConcat(x: seq<string>, y: seq<string>)
    ensures NonEmpty(x + y) == NonEmpty(x) + NonEmpty(y)
  {
    if |x| == 0 {
      assert x + y == y;
    } else {
      assert (x + y)[1..] == x[1..] + y;
      NonEmptyConcat(x[1..], y);
    }
  }

  /** A single string is kept exactly when it is non-empty. */
  lemma NonEmptyOne(x: string)
    ensures NonEmpty([x]) == if x != "" then [x] else []
  {
    assert [x][1..] == [];
  }

  /** `loadSharedContext()`. */
  function LoadSharedContext(files: PromptFiles): string {
    var loaded := seq(|SharedContextFiles|, k requires 0 <= k < |SharedContextFiles| => LoadedOrEmpty(files, SharedContextFiles[k]));
    Join(NonEmpty(loaded), ContextSeparator)
  }

  /** The shared context is the non-empty loaded files in the fixed order
      with the separator between them: a file that is missing or empty
      drops out together with its separator. */
  lemma SharedContextJoin(files: PromptFiles)
    ensures var a, b, c := LoadedOrEmpty(files, "shared-context.md"),
                           LoadedOrEmpty(files, "bitcoin-patterns.md"),
                           LoadedOrEmpty(files, "sensible-defaults.md");
      && LoadSharedContext(files) == Join(NonEmpty([a, b, c]), ContextSeparator)
      && (a != "" && b != "" && c != "" ==>
            LoadSharedContext(files) == a + ContextSeparator + b + ContextSeparator + c)
      && (a != "" && b != "" && c == "" ==> LoadSharedContext(files) == a + ContextSeparator + b)
      && (a != "" && b == "" && c != "" ==> LoadSharedContext(files) == a + ContextSeparator + c)
      && (a == "" && b != "" && c != "" ==> LoadSharedContext(files) == b + ContextSeparator + c)
      && (a != "" && b == "" && c == "" ==> LoadSharedContext(files) == a)
      && (a == "" && b != "" && c == "" ==> LoadSharedContext(files) == b)
      && (a == "" && b == "" && c != "" ==> LoadSharedContext(files) == c)
      && (a == "" && b == "" && c == "" ==> LoadSharedContext(files) == "")
  {
    var a, b, c := LoadedOrEmpty(files, "shared-context.md"),
                   LoadedOrEmpty(files, "bitcoin-patterns.md"),
                   LoadedOrEmpty(files, "sensible-defaults.md");
    var loaded := seq(|SharedContextFiles|, k requires 0 <= k < |SharedContextFiles| => LoadedOrEmpty(files, SharedContextFiles[k]));
    assert loaded == [a, b, c];
    NonEmptyThree(a, b, c);
    if a != "" && b != "" && c != "" {
      JoinThree(a, b, c);
    } else if a != "" && b != "" {
      PairJoin(a, b);
    } else if a != "" && c != "" {
      PairJoin(a, c);
    } else if b != "" && c != "" {
      PairJoin(b, c);
    }
  }

  /** Filtering three strings keeps each one exactly when it is non-empty. */
  lemma NonEmptyThree(a: string, b: string, c: string)
    ensures NonEmpty([a, b, c])
         == (if a != "" then [a] else []) + (if b != "" then [b] else []) + (if c != "" then [c] else [])
  {
    NonEmptyConcat([a], [b, c]);
    NonEmptyConcat([b], [c]);
    assert [a] + [b, c] == [a, b, c];
    assert [b] + [c] == [b, c];
    NonEmptyOne(a);
    NonEmptyOne(b);
    NonEmptyOne(c);
  }

  lemma JoinThree(a: string, b: string, c: string)
    ensures Join([a, b, c], ContextSeparator) == a + ContextSeparator + b + ContextSeparator + c
  {
    assert [a, b, c][1..] == [b, c];
    PairJoin(b, c);
  }

  lemma PairJoin(x: string, y: string)
    ensures Join([x, y], ContextSeparator) == x + ContextSeparator + y
  {
    assert [x, y][1..] == [y];
  }

  /* ------------------------------------------------------- phase prompts */

  const HeadingPrefix: string := "# Component Generation - "
  const PreviousHeading: string := "## Previous Phase Results\n"
  const InstructionsHeading: string := "## Phase Instructions\n"

  /** The heading line and the name, category and description lines. */
  function Header(phase: Phase, options: GenerationOptions): string {
    HeadingPrefix + phase.name + " Phase\n\n"
    + ("Component Name: " + options.name + "\n"
       + "Category: " + options.category + "\n"
       + "Description: " + options.description + "\n\n")
  }

  /** The previous-results section, present only for truthy results. */
  function PreviousPart(previous: Option<string>): string {
    if Truthy(previous) then PreviousHeading + previous.value + "\n\n" else ""
  }

  function Instructions(phasePrompt: string): string {
    InstructionsHeading + phasePrompt + "\n"
  }

  lemma PrefixOfConcat(a: string, b: string)
    ensures StartsWith(a + b, a) && EndsWith(a + b, b)
  {
    assert (a + b)[..|a|] == a;
    assert (a + b)[|a|..] == b;
  }

  lemma OuterParts(h: string, m: string, t: string)
    ensures StartsWith(h + m + t, h) && EndsWith(h + m + t, t)
  {
    assert (h + m + t)[..|h|] == h;
    assert (h + m + t)[|h| + |m|..] == t;
  }

  /** `formatPhasePrompt(phase, phasePrompt, options, previousResults)`. */
  function FormatPhasePrompt(phase: Phase, phasePrompt: string, options: GenerationOptions, previous: Option<string>): (prompt: string)
    ensures StartsWith(prompt, Header(phase, options))
    ensures EndsWith(prompt, Instructions(phasePrompt))
    ensures !Truthy(previous) ==> |prompt| == |Header(phase, options)| + |Instructions(phasePrompt)|
    ensures Truthy(previous) ==>
      |prompt| == |Header(phase, options)| + |PreviousHeading| + |previous.value| + 2 + |Instructions(phasePrompt)|
  {
    var h, m, t := Header(phase, options), PreviousPart(previous), Instructions(phasePrompt);
    OuterParts(h, m, t);
    h + m + t
  }

  /** Every phase prompt opens with the phase's heading line. */
  lemma PromptOpensWithHeading(phase: Phase, phasePrompt: string, options: GenerationOptions, previous: Option<string>)
    ensures StartsWith(FormatPhasePrompt(phase, phasePrompt, options, previous), HeadingPrefix + phase.name + " Phase\n\n")
  {
    var heading := HeadingPrefix + phase.name + " Phase\n\n";
    var prompt := FormatPhasePrompt(phase, phasePrompt, options, previous);
    var h := Header(phase, options);
    assert h[..|heading|] == heading;
    assert prompt[..|heading|] == prompt[..|h|][..|heading|];
  }

  /** Reads the previous-results section back out of a phase prompt:
      `None` when the header is followed directly by the instructions. */
  function PreviousSection(prompt: string, phase: Phase, options: GenerationOptions, phasePrompt: string): Option<string> {
    var h, t := Header(phase, options), Instructions(phasePrompt);
    if !(StartsWith(prompt, h) && |h| + |t| <= |prompt| && EndsWith(prompt, t)) then None
    else
      var middle := prompt[|h|..|prompt| - |t|];
      if StartsWith(middle, PreviousHeading) && |PreviousHeading| + 2 <= |middle| && EndsWith(middle, "\n\n")
      then Some(middle[|PreviousHeading|..|middle| - 2])
      else None
  }

  /** The previous-results section appears exactly when the previous
      results are non-empty, and then holds them verbatim; the text after
      the header starts with that section's heading exactly then. */
  lemma FormatPhasePromptRoundTrip(phase: Phase, phasePrompt: string, options: GenerationOptions, previous: Option<string>)
    ensures PreviousSection(FormatPhasePrompt(phase, phasePrompt, options, previous), phase, options, phasePrompt)
         == (if Truthy(previous) then previous else None)
    ensures var prompt := FormatPhasePrompt(phase, phasePrompt, options, previous);
      StartsWith(prompt[|Header(phase, options)|..], PreviousHeading) <==> Truthy(previous)
  {
    var h, t := Header(phase, options), Instructions(phasePrompt);
    var prompt := FormatPhasePrompt(phase, phasePrompt, options, previous);
    if Truthy(previous) {
      var middle := PreviousHeading + previous.value + "\n\n";
      assert prompt == h + middle + t;
      assert prompt[|h|..|prompt| - |t|] == middle;
      assert middle[..|PreviousHeading|] == PreviousHeading;
      assert middle[|middle| - 2..] == "\n\n";
      assert middle[|PreviousHeading|..|middle| - 2] == previous.value;
      assert prompt[|h|..][..|PreviousHeading|] == PreviousHeading;
    } else {
      assert prompt == h + t;
      assert prompt[|h|..|prompt| - |t|] == "";
      assert prompt[|h|..] == t;
      assert t[4] == 'h' && PreviousHeading[4] == 'r';
      assert |PreviousHeading| <= |t| ==> t[..|PreviousHeading|][4] != PreviousHeading[4];
    }
  }

  /* -------------------------------------------------------- agent replies */

  /** A content block of an agent message; only text blocks matter. */
  datatype Block = Text(text: string) | OtherBlock

  /** A streamed agent message; only assistant messages matter. */
  datatype Message = Assistant(content: seq<Block>) | OtherMessage

  /** The texts of the text blocks, in order. */
  function TextsOf(blocks: seq<Block>): (r: seq<string>)
    ensures |r| <= |blocks|
  {
    if |blocks| == 0 then []
    else (if blocks[0].Text? then [blocks[0].text] else []) + TextsOf(blocks[1..])
  }

  function AssistantCount(ms: seq<Message>): nat {
    if |ms| == 0 then 0 else (if ms[0].Assistant? then 1 else 0) + AssistantCount(ms[1..])
  }

  /** One entry per assistant message: its text blocks joined by newlines. */
  function AssistantTexts(ms: seq<Message>): (r: seq<string>)
    ensures |r| == AssistantCount(ms)
  {
    if |ms| == 0 then []
    else
      (if ms[0].Assistant? then [Join(TextsOf(ms[0].content), "\n")] else [])
      + AssistantTexts(ms[1..])
  }

  /** The texts of a block list are the texts of its parts, in order: a
      text block contributes its text and any other block nothing. */
  lemma {:induction false} TextsOfRules(x: seq<Block>, y: seq<Block>, t: string)
    ensures TextsOf(x + y) == TextsOf(x) + TextsOf(y)
    ensures TextsOf([Text(t)]) == [t]
    ensures TextsOf([OtherBlock]) == []
  {
    assert [Text(t)][1..] == [] && [OtherBlock][1..] == [];
    if |x| == 0 {
      assert x + y == y;
    } else {
      assert (x + y)[1..] == x[1..] + y;
      TextsOfRules(x[1..], y, t);
    }
  }

  /** The collected texts of a message stream are those of its parts, in
      order: an assistant message contributes its text blocks joined by
      newlines, any other message nothing. */
  lemma {:induction false} AssistantTextsRules(x: seq<Message>, y: seq<Message>, content: seq<Block>)
    ensures AssistantTexts(x + y) == AssistantTexts(x) + AssistantTexts(y)
    ensures AssistantTexts([Assistant(content)]) == [Join(TextsOf(content), "\n")]
    ensures AssistantTexts([OtherMessage]) == []
  {
    assert [Assistant(content)][1..] == [] && [OtherMessage][1..] == [];
    if |x| == 0 {
      assert x + y == y;
    } else {
      assert (x + y)[1..] == x[1..] + y;
      AssistantTextsRules(x[1..], y, content);
    }
  }

  /** The value `executePhase` returns for a queried phase. */
  function PhaseOutput(ms: seq<Message>): string {
    Join(AssistantTexts(ms), "\n\n")
  }

  /** A reply of one assistant message with one text block yields that
      text, and messages other than assistant messages add nothing. */
  lemma PhaseOutputRules(t: string, ms: seq<Message>)
    ensures PhaseOutput([Assistant([Text(t)])]) == t
    ensures PhaseOutput(ms + [OtherMessage]) == PhaseOutput(ms)
    ensures PhaseOutput([OtherMessage] + ms) == PhaseOutput(ms)
  {
    assert TextsOf([Text(t)]) == [t] + TextsOf([]);
    AppendOther(ms);
    assert ([OtherMessage] + ms)[1..] == ms;
    assert AssistantTexts([OtherMessage] + ms) == [] + AssistantTexts(ms);
    assert AssistantTexts([OtherMessage] + ms) == AssistantTexts(ms);
  }

  lemma {:induction false} AppendOther(ms: seq<Message>)
    ensures AssistantTexts(ms + [OtherMessage]) == AssistantTexts(ms)
  {
    if |ms| == 0 {
      assert AssistantTexts([OtherMessage]) == [] + AssistantTexts([]);
    } else {
      assert (ms + [OtherMessage])[1..] == ms[1..] + [OtherMessage];
      AppendOther(ms[1..]);
    }
  }

  /* ------------------------------------------------------------ one phase */

  /** What the script asks the agent for. */
  datatype QueryRequest = QueryRequest(prompt: string, maxTurns: nat, systemPrompt: string)

  datatype PhaseRun = Skipped(output: string) | Queried(request: QueryRequest, output: string)

  /** `executePhase(phase, options, sharedContext, previousResults)`, with
      `replies` the messages the agent streams back for this phase. */
  function ExecutePhase(phase: Phase, options: GenerationOptions, sharedContext: string, previous: Option<string>,
                        files: PromptFiles, replies: seq<Message>): (r: Result<PhaseRun, GenerationError>)
    ensures Skips(phase, options) ==> r == Success(Skipped(if Truthy(previous) then previous.value else ""))
    ensures !Skips(phase, options) ==> (r.Failure? <==> phase.promptFile !in files)
    ensures r.Failure? ==> r.error == PromptNotFound(phase.promptFile)
    ensures !Skips(phase, options) && r.Success? ==>
      r.value == Queried(QueryRequest(FormatPhasePrompt(phase, files[phase.promptFile], options, previous),
                                      EffectiveMaxTurns(phase), sharedContext),
                         PhaseOutput(replies))
  {
    if Skips(phase, options) then
      Success(Skipped(if Truthy(previous) then previous.value else ""))
    else
      var phasePrompt :- LoadPrompt(files, phase.promptFile);
      var request := QueryRequest(FormatPhasePrompt(phase, phasePrompt, options, previous),
                                  EffectiveMaxTurns(phase), sharedContext);
      Success(Queried(request, PhaseOutput(replies)))
  }

  /** A skipped phase passes the previous output on unchanged without
      touching the prompt files or the agent. */
  lemma SkipPassesThrough(phase: Phase, options: GenerationOptions, sharedContext: string, previous: string,
                          files: PromptFiles, replies: seq<Message>)
    requires Skips(phase, options)
    ensures ExecutePhase(phase, options, sharedContext, Some(previous), files, replies)
         == ExecutePhase(phase, options, sharedContext, Some(previous), map[], [])
    ensures ExecutePhase(phase, options, sharedContext, Some(previous), files, replies).value.output == previous
  {
  }

  /* ------------------------------------------------------- the phase loop */

  /** The `for` loop of `generateComponent`: each phase gets the previous
      phase's output as its previous results, starting from `previous`. */
  function RunPhases(phases: seq<Phase>, options: GenerationOptions, sharedContext: string, files: PromptFiles,
                     replies: seq<seq<Message>>, previous: string): Result<(seq<PhaseRun>, string), GenerationError>
    requires |replies| == |phases|
    decreases |phases|
  {
    if |phases| == 0 then Success(([], previous))
    else
      var run :- ExecutePhase(phases[0], options, sharedContext, Some(previous), files, replies[0]);
      var tail :- RunPhases(phases[1..], options, sharedContext, files, replies[1..], run.output);
      Success(([run] + tail.0, tail.1))
  }

  /** A successful loop runs every phase, threads each phase's output into
      the next one as its previous results, and ends with the last output. */
  lemma {:induction false} RunPhasesThreads(phases: seq<Phase>, options: GenerationOptions, sharedContext: string,
                                            files: PromptFiles, replies: seq<seq<Message>>, previous: string)
    requires |replies| == |phases|
    requires RunPhases(phases, options, sharedContext, files, replies, previous).Success?
    ensures var (runs, final) := RunPhases(phases, options, sharedContext, files, replies, previous).value;
      && |runs| == |phases|
      && final == (if |phases| == 0 then previous else runs[|runs| - 1].output)
      && (|phases| > 0 ==>
            ExecutePhase(phases[0], options, sharedContext, Some(previous), files, replies[0]) == Success(runs[0]))
      && (forall k :: 0 < k < |phases| ==>
            ExecutePhase(phases[k], options, sharedContext, Some(runs[k - 1].output), files, replies[k]) == Success(runs[k]))
    decreases |phases|
  {
    if |phases| > 0 {
      var run := ExecutePhase(phases[0], options, sharedContext, Some(previous), files, replies[0]).value;
      RunPhasesThreads(phases[1..], options, sharedContext, files, replies[1..], run.output);
      var tail := RunPhases(phases[1..], options, sharedContext, files, replies[1..], run.output).value;
      var runs := [run] + tail.0;
      assert RunPhases(phases, options, sharedContext, files, replies, previous).value == (runs, tail.1);
      forall k | 0 < k < |phases|
        ensures ExecutePhase(phases[k], options, sharedContext, Some(runs[k - 1].output), files, replies[k]) == Success(runs[k])
      {
        assert runs[k] == tail.0[k - 1];
        assert phases[1..][k - 1] == phases[k] && replies[1..][k - 1] == replies[k];
        if k > 1 {
          assert runs[k - 1] == tail.0[k - 2];
        }
      }
    }
  }

  /** The loop only reads the prompt files of the phases it does not skip:
      removing any other file changes nothing. */
  lemma {:induction false} RunPhasesIgnores(phases: seq<Phase>, options: GenerationOptions, sharedContext: string,
                                            files: PromptFiles, replies: seq<seq<Message>>, previous: string, file: string)
    requires |replies| == |phases|
    requires forall k :: 0 <= k < |phases| && !Skips(phases[k], options) ==> phases[k].promptFile != file
    ensures RunPhases(phases, options, sharedContext, files, replies, previous)
         == RunPhases(phases, options, sharedContext, files - {file}, replies, previous)
    decreases |phases|
  {
    if |phases| > 0 {
      var r := ExecutePhase(phases[0], options, sharedContext, Some(previous), files, replies[0]);
      assert r == ExecutePhase(phases[0], options, sharedContext, Some(previous), files - {file}, replies[0]);
      if r.Success? {
        RunPhasesIgnores(phases[1..], options, sharedContext, files, replies[1..], r.value.output, file);
      }
    }
  }

  /* ---------------------------------------------------------- generation */

  /** Where the component is written: the given directory, or
      `apps/registry/registry/new-york/ui` under the working directory. */
  datatype OutputDir = GivenDir(path: string) | UnderWorkingDir(segments: seq<string>)

  const RegistryUiSegments: seq<string> := ["apps", "registry", "registry", "new-york", "ui"]

  datatype Generated = Generated(runs: seq<PhaseRun>, dir: OutputDir, fileName: string, code: string)

  /** `generateComponent(options)` up to the file write. */
  function GenerateComponent(options: GenerationOptions, files: PromptFiles, replies: seq<seq<Message>>): (r: Result<Generated, GenerationError>)
    requires |replies| == |Phases|
    ensures r.Success? ==> r.value.fileName == options.name + ".tsx"
    ensures r.Success? && Truthy(options.outputDir) ==> r.value.dir == GivenDir(options.outputDir.value)
    ensures r.Success? && !Truthy(options.outputDir) ==> r.value.dir == UnderWorkingDir(RegistryUiSegments)
  {
    var sharedContext := LoadSharedContext(files);
    var (runs, final) :- RunPhases(Phases, options, sharedContext, files, replies, "");
    var code :- match ExtractComponentCode(final)
                case Success(c) => Success(c)
                case Failure(m) => Failure(NoComponentCode(m));
    var dir := if Truthy(options.outputDir) then GivenDir(options.outputDir.value) else UnderWorkingDir(RegistryUiSegments);
    Success(Generated(runs, dir, options.name + ".tsx", code))
  }

  /** A successful generation is a successful phase loop from empty
      previous results followed by a successful extraction of its output. */
  lemma GenerateParts(options: GenerationOptions, files: PromptFiles, replies: seq<seq<Message>>)
    requires |replies| == |Phases|
    ensures var loop := RunPhases(Phases, options, LoadSharedContext(files), files, replies, "");
      GenerateComponent(options, files, replies).Success? <==>
        loop.Success? && ExtractComponentCode(loop.value.1).Success?
    ensures var loop := RunPhases(Phases, options, LoadSharedContext(files), files, replies, "");
      GenerateComponent(options, files, replies).Success? ==>
        && GenerateComponent(options, files, replies).value.runs == loop.value.0
        && ExtractComponentCode(loop.value.1) == Success(GenerateComponent(options, files, replies).value.code)
  {
  }

  /** The saved code is extracted from the Finalize phase's reply alone:
      that phase is never skipped, so its output is the agent's text. */
  lemma CodeComesFromFinalize(options: GenerationOptions, files: PromptFiles, replies: seq<seq<Message>>)
    requires |replies| == |Phases|
    ensures var g := GenerateComponent(options, files, replies);
      g.Success? ==> |g.value.runs| == 5 && ExtractComponentCode(PhaseOutput(replies[4])) == Success(g.value.code)
  {
    if GenerateComponent(options, files, replies).Failure? {
      return;
    }
    var sharedContext := LoadSharedContext(files);
    GenerateParts(options, files, replies);
    RunPhasesThreads(Phases, options, sharedContext, files, replies, "");
    var runs := RunPhases(Phases, options, sharedContext, files, replies, "").value.0;
    assert !Skips(Phases[4], options);
    assert ExecutePhase(Phases[4], options, sharedContext, Some(runs[3].output), files, replies[4]) == Success(runs[4]);
    assert runs[4].output == PhaseOutput(replies[4]);
  }

  lemma RunPhasesPrompts(phases: seq<Phase>, options: GenerationOptions, sharedContext: string,
                         files: PromptFiles, replies: seq<seq<Message>>, previous: string)
    requires |replies| == |phases|
    requires RunPhases(phases, options, sharedContext, files, replies, previous).Success?
    ensures var runs := RunPhases(phases, options, sharedContext, files, replies, previous).value.0;
      && |runs| == |phases|
      && forall k :: 0 < k < |phases| && !Skips(phases[k], options) ==>
           && runs[k].Queried?
           && phases[k].promptFile in files
           && runs[k].request.prompt
              == FormatPhasePrompt(phases[k], files[phases[k].promptFile], options, Some(runs[k - 1].output))
  {
    RunPhasesThreads(phases, options, sharedContext, files, replies, previous);
    var runs := RunPhases(phases, options, sharedContext, files, replies, previous).value.0;
    forall k | 0 < k < |phases| && !Skips(phases[k], options)
      ensures runs[k].Queried? && phases[k].promptFile in files
      ensures runs[k].request.prompt == FormatPhasePrompt(phases[k], files[phases[k].promptFile], options, Some(runs[k - 1].output))
    {
      QueriedPrompt(phases[k], options, sharedContext, Some(runs[k - 1].output), files, replies[k], runs[k]);
    }
  }

  /** Every phase after the first that is not skipped is queried with a
      prompt that carries the previous phase's output; in particular the
      Finalize prompt carries the Review output. */
  lemma PromptsCarryPreviousOutput(options: GenerationOptions, files: PromptFiles, replies: seq<seq<Message>>)
    requires |replies| == |Phases|
    ensures var g := GenerateComponent(options, files, replies);
      g.Success? ==> var runs := g.value.runs;
      && |runs| == |Phases|
      && forall k :: 0 < k < |Phases| && !Skips(Phases[k], options) ==>
           && runs[k].Queried?
           && Phases[k].promptFile in files
           && runs[k].request.prompt
              == FormatPhasePrompt(Phases[k], files[Phases[k].promptFile], options, Some(runs[k - 1].output))
  {
    if GenerateComponent(options, files, replies).Failure? {
      return;
    }
    var loop := RunPhases(Phases, options, LoadSharedContext(files), files, replies, "");
    GenerateParts(options, files, replies);
    assert GenerateComponent(options, files, replies).value.runs == loop.value.0;
    RunPhasesPrompts(Phases, options, LoadSharedContext(files), files, replies, "");
  }

  lemma QueriedPrompt(phase: Phase, options: GenerationOptions, sharedContext: string, previous: Option<string>,
                      files: PromptFiles, replies: seq<Message>, run: PhaseRun)
    requires !Skips(phase, options)
    requires ExecutePhase(phase, options, sharedContext, previous, files, replies) == Success(run)
    ensures run.Queried? && phase.promptFile in files
    ensures run.request.prompt == FormatPhasePrompt(phase, files[phase.promptFile], options, previous)
  {
  }

  /** The first phase runs with empty previous results, so its prompt has
      no previous-results section. */
  lemma FirstPromptHasNoPreviousSection(options: GenerationOptions, files: PromptFiles, replies: seq<seq<Message>>)
    requires |replies| == |Phases|
    ensures var g := GenerateComponent(options, files, replies);
      g.Success? ==> var run := g.value.runs[0];
      && run.Queried?
      && PreviousSection(run.request.prompt, Phases[0], options, files[Phases[0].promptFile]) == None
  {
    if GenerateComponent(options, files, replies).Failure? {
      return;
    }
    var sharedContext := LoadSharedContext(files);
    GenerateParts(options, files, replies);
    RunPhasesThreads(Phases, options, sharedContext, files, replies, "");
    assert !Skips(Phases[0], options);
    FormatPhasePromptRoundTrip(Phases[0], files[Phases[0].promptFile], options, Some(""));
  }

  /** Without `--interactive` the Questions phase hands on the Planning
      output unchanged, and its prompt file is never needed. */
  lemma NonInteractiveSkipsQuestions(options: GenerationOptions, files: PromptFiles, replies: seq<seq<Message>>)
    requires |replies| == |Phases|
    requires !options.interactive
    ensures GenerateComponent(options, files, replies) == GenerateComponent(options, files - {"phase2-questions.md"}, replies)
    ensures GenerateComponent(options, files, replies).Success? ==>
      var runs := GenerateComponent(options, files, replies).value.runs;
      runs[1] == Skipped(runs[0].output)
  {
    var sharedContext := LoadSharedContext(files);
    assert LoadSharedContext(files - {"phase2-questions.md"}) == sharedContext by {
      var loaded := seq(|SharedContextFiles|, k requires 0 <= k < |SharedContextFiles| => LoadedOrEmpty(files, SharedContextFiles[k]));
      var loaded' := seq(|SharedContextFiles|, k requires 0 <= k < |SharedContextFiles| => LoadedOrEmpty(files - {"phase2-questions.md"}, SharedContextFiles[k]));
      assert loaded == loaded';
    }
    RunPhasesIgnores(Phases, options, sharedContext, files, replies, "", "phase2-questions.md");
    if GenerateComponent(options, files, replies).Success? {
      RunPhasesThreads(Phases, options, sharedContext, files, replies, "");
      var runs := RunPhases(Phases, options, sharedContext, files, replies, "").value.0;
      assert Skips(Phases[1], options);
      assert ExecutePhase(Phases[1], options, sharedContext, Some(runs[0].output), files, replies[1]) == Success(runs[1]);
    }
  }

  /** A missing Planning prompt stops the run before anything else. */
  lemma MissingPlanningPrompt(options: GenerationOptions, files: PromptFiles, replies: seq<seq<Message>>)
    requires |replies| == |Phases|
    requires "phase1-planning.md" !in files
    ensures GenerateComponent(options, files, replies) == Failure(PromptNotFound("phase1-planning.md"))
  {
  }

  /** With every prompt file the run needs present, generation fails only
      when no component code can be found in the Finalize output. */
  lemma PromptsPresentFailsOnlyOnExtraction(options: GenerationOptions, files: PromptFiles, replies: seq<seq<Message>>)
    requires |replies| == |Phases|
    requires forall k :: 0 <= k < |Phases| && !Skips(Phases[k], options) ==> Phases[k].promptFile in files
    ensures GenerateComponent(options, files, replies).Failure? <==>
      ExtractComponentCode(PhaseOutput(replies[4])).Failure?
  {
    var sharedContext := LoadSharedContext(files);
    GenerateParts(options, files, replies);
    PromptsPresentRuns(Phases, options, sharedContext, files, replies, "");
    RunPhasesThreads(Phases, options, sharedContext, files, replies, "");
    var runs := RunPhases(Phases, options, sharedContext, files, replies, "").value.0;
    assert !Skips(Phases[4], options);
    assert ExecutePhase(Phases[4], options, sharedContext, Some(runs[3].output), files, replies[4]) == Success(runs[4]);
  }

  lemma {:induction false} PromptsPresentRuns(phases: seq<Phase>, options: GenerationOptions, sharedContext: string,
                                              files: PromptFiles, replies: seq<seq<Message>>, previous: string)
    requires |replies| == |phases|
    requires forall k :: 0 <= k < |phases| && !Skips(phases[k], options) ==> phases[k].promptFile in files
    ensures RunPhases(phases, options, sharedContext, files, replies, previous).Success?
    decreases |phases|
  {
    if |phases| > 0 {
      var r := ExecutePhase(phases[0], options, sharedContext, Some(previous), files, replies[0]);
      assert r.Success?;
      forall k | 0 <= k < |phases| - 1 && !Skips(phases[1..][k], options)
        ensures phases[1..][k].promptFile in files
      {
        assert phases[1..][k] == phases[k + 1];
      }
      PromptsPresentRuns(phases[1..], options, sharedContext, files, replies[1..], r.value.output);
    }
  }

  /* ------------------------------------------------------------------ CLI */

  /** The command line after the script name: `None` is the usage error. */
  function ParseCli(args: seq<string>): (r: Option<GenerationOptions>)
    ensures r.None? <==> |args| < 3
    ensures r.Some? ==> r.value.name == args[0] && r.value.category == args[1] && r.value.description == args[2]
    ensures r.Some? ==> (r.value.interactive <==> exists k :: 3 <= k < |args| && args[k] == "--interactive")
    ensures r.Some? ==> r.value.outputDir == None
  {
    if |args| < 3 then None
    else Some(GenerationOptions(args[0], args[1], args[2], "--interactive" in args[3..], None))
  }

  /** The command line that asks for `options`. */
  function CliFor(options: GenerationOptions): seq<string> {
    [options.name, options.category, options.description] + (if options.interactive then ["--interactive"] else [])
  }

  /** Any options without an output directory (the command line cannot
      set one) survive the trip through the command line, and unknown
      extra flags do not change the result. */
  lemma CliRoundTrip(options: GenerationOptions, extra: seq<string>)
    requires options.outputDir.None?
    requires "--interactive" !in extra
    ensures ParseCli(CliFor(options)) == Some(options)
    ensures ParseCli(CliFor(options) + extra) == Some(options)
  {
    var args := CliFor(options) + extra;
    if options.interactive {
      assert args[3] == "--interactive";
    } else {
      assert args[3..] == extra;
    }
  }
}
