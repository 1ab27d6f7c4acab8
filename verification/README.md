# Step indicator, install widget and component-generation scripts, in Dafny

This project models the core of the BigBlocks component registry:

- the `StepIndicator` component, its three-valued step status and its two
  layouts (a vertical column with descriptions, a horizontal row of badges
  joined by connector lines);
- the step-indicator demos: the status derived from one `activeStep` and
  the Previous/Next (Back/Continue) buttons that move it, clamped to
  `[0, 3]`;
- the showcase page, with its own inline copy of the component;
- the registry URL helper and the install command built from it;
- the install-command widget, which rewrites each package manager's
  command to the configured registry, shows a tab per manager with a
  command, and copies the selected command;
- the five-phase component generator script: the phase table, the prompt
  format, the skip rule for the interactive phase, the shared context, the
  phase loop that threads each phase's output into the next, the code
  extraction from the final output, and the command line;
- the visual-test script: its command line, its option defaults, the
  prompt it builds and the query options it sends.

Everything the scripts read or talk to is a parameter:
- the prompt directory is a map from file name to contents;
- the agent's streamed reply to each phase is a sequence of messages;
- `NEXT_PUBLIC_REGISTRY_URL` is an optional string.

Strings are sequences of characters. JavaScript's own semantics are
written out where they matter:
- `||` and truthiness on strings and numbers;
- `filter(Boolean)`;
- `String.prototype.replace` with a string pattern, including the `$`
  patterns in the replacement text;
- `split` and `join`;
- `trim` with JavaScript's whitespace set;
- reading `args[i + 1]` past the end, which gives `undefined`.

The modules are:
- `Wrappers` (`Option`, `Result`);
- `Strings` (the string operations above);
- `StepIndicator`, `Wizard`, `StepIndicatorPage`;
- `RegistryUrl`, `CodeBlockCommand`;
- `CodeExtraction`, `GenerateComponent`;
- `VisualTest`.

## Model

| member | source | states |
|---|---|---|
| StepIndicator.LayoutOf | apps/showcase/components/ui/step-indicator.tsx:20-25 | the column layout is chosen exactly for the variant "vertical"; an absent variant gives the row |
| StepIndicator.TonesOf | apps/showcase/components/ui/step-indicator.tsx:31-38 | the three independent class conditions leave exactly one status style, and it is the one of the step's status |
| StepIndicator.ItemOf | apps/showcase/components/ui/step-indicator.tsx:40-59 | a check mark exactly for a complete step, otherwise the 1-based position; the label is muted exactly for a pending step; a description paragraph exactly in the column and for a non-empty description, holding that description |
| StepIndicator.RenderedItems | apps/showcase/components/ui/step-indicator.tsx:25-111 | in both variants, every step is rendered exactly once and in input order, by the per-step rule |
| StepIndicator.BadgeAndLabelRule | apps/showcase/components/ui/step-indicator.tsx:28-96 | for the step at position i of any list: a check iff complete, else number i+1; muted iff pending; one status style; a description iff the variant is "vertical" and the description is non-empty |
| StepIndicator.RenderedConnectors | apps/showcase/components/ui/step-indicator.tsx:98-107 | connectors only in the row; n steps give n-1 connectors and none give none; the connector into step k is active iff step k is not pending |
| StepIndicator.RowInterleaves | apps/showcase/components/ui/step-indicator.tsx:70-109 | the row alternates step and connector: step k at position 2k and the connector into step k at 2k-1, 2n-1 children in all |
| StepIndicator.RowFromShape | apps/showcase/components/ui/step-indicator.tsx:70-109 | the fragments of steps i.. interleave the steps with the connectors leading into them |
| StepIndicator.RowFromItems | apps/showcase/components/ui/step-indicator.tsx:70-96 | the steps in the fragments of steps i.. are those steps, in order |
| StepIndicator.RowFromLines | apps/showcase/components/ui/step-indicator.tsx:98-107 | the connectors in the fragments of steps i.. are one per following step, coloured by that step |
| Wizard.GetStatus | apps/registry/registry/new-york/examples/step-indicator-demo.tsx:10-14 | complete iff the index is below activeStep, active iff equal, pending iff above |
| Wizard.ActiveCount | apps/registry/registry/new-york/examples/step-indicator-demo.tsx:10-21 | the derived statuses of n steps hold exactly one active step when activeStep names a step, and none otherwise |
| Wizard.CompleteCount | apps/registry/registry/new-york/examples/step-indicator-demo.tsx:10-21 | the number of complete steps is activeStep clamped to [0, n] |
| Wizard.StatusesRoundTrip | apps/registry/registry/new-york/examples/step-indicator-demo.tsx:10-21 | derived statuses always form a complete prefix, at most one active step and a pending suffix, and activeStep is read back as the count of complete steps |
| Wizard.ProgressiveIsDerived | apps/registry/registry/new-york/examples/step-indicator-demo.tsx:10-21 | conversely, a status list of that shape with an active step at p is exactly the derivation from activeStep = p |
| Wizard.DerivedIffProgressive | apps/registry/registry/new-york/examples/step-indicator-demo.tsx:10-21 | a status list comes from some in-range activeStep iff it has that shape and an active step |
| Wizard.Previous | apps/registry/registry/new-york/examples/step-indicator-demo.tsx:29-30 | never below 0; stays in [0, 3]; a no-op exactly on step 0; otherwise one step back |
| Wizard.Next | apps/registry/registry/new-york/examples/step-indicator-demo.tsx:35-36 | never above 3; stays in [0, 3]; a no-op exactly on step 3; otherwise one step forward |
| Wizard.StepsAt | apps/registry/registry/new-york/examples/step-indicator-demo.tsx:16-21 | one step per declared step, with its id, caption and description, and the status derived from activeStep |
| Wizard.RunStaysInRange | apps/registry/registry/new-york/examples/step-indicator-demo.tsx:29-36 | whatever buttons are clicked, activeStep stays in [0, 3] |
| Wizard.DisablingIsRedundant | apps/registry/registry/new-york/examples/step-indicator-demo.tsx:30-36 | disabling a button at its bound never changes the outcome of a click, because the clamp already makes it a no-op |
| Wizard.ControlsMatchClamp | apps/registry/registry/new-york/examples/step-indicator-demo.tsx:30-38 | a button is disabled exactly when its click would be a no-op, and the forward text switches exactly on the step where Next is a no-op |
| Wizard.EveryStepReachable | apps/registry/registry/new-york/examples/step-indicator-demo.tsx:8-36 | every step in [0, 3] is reachable from the initial step by some sequence of clicks |
| Wizard.OneActiveStep | apps/registry/registry/new-york/examples/step-indicator-demo.tsx:8-21 | with four steps, every reachable state shows exactly one active step |
| Wizard.ConnectorsFollowProgress | apps/registry/registry/new-york/examples/step-indicator-demo.tsx:16-21 | in the horizontal demos, the connector into step i+1 is active iff i+1 <= activeStep |
| Wizard.NewYorkDemoBehaviour | apps/registry/registry/new-york/examples/step-indicator-demo.tsx:8-38 | starts with Security active; Previous disabled iff on step 0, Next disabled iff on step 3, where it reads "Finish" |
| Wizard.WithDescriptionsBehaviour | apps/registry/registry/new-york/examples/step-indicator-with-descriptions.tsx:8-58 | starts with only the first step active; every description is shown in the column; Back and Continue disabled at their bounds; "Complete" on the last step |
| Wizard.BigBlocksVerticalBehaviour | apps/showcase/registry/bigblocks/examples/step-indicator-vertical.tsx:8-54 | starts on step 1; Back and Continue disabled at their bounds; "Complete Setup" on the last step |
| Wizard.BigBlocksDemoBehaviour | apps/showcase/registry/bigblocks/examples/step-indicator-demo.tsx:7-37 | starts on step 1; no button is ever disabled, yet Previous on step 0 and Next on step 3 change nothing and no click sequence leaves [0, 3] |
| StepIndicatorPage.InlineCopyAgrees | apps/showcase/app/components/step-indicator/page.tsx:6-69 | apart from its wrapper elements, the page's inline copy renders exactly what the library component renders, in both variants |
| StepIndicatorPage.InlineRules | apps/showcase/app/components/step-indicator/page.tsx:38-68 | the inline badge is a check iff the step is complete, else i+1; step i's wrapper holds a connector iff i is not last, active iff step i+1 is not pending |
| StepIndicatorPage.PageNavigation | apps/showcase/app/components/step-indicator/page.tsx:72-128 | the page starts on step 1; Previous is max(0, a-1) and Next is min(3, a+1) with no disabled state; every reachable state is in range with exactly one active horizontal step |
| StepIndicatorPage.VerticalListCompleteAtEnd | apps/showcase/app/components/step-indicator/page.tsx:81-100 | on step 3 the three-step vertical list is entirely complete: every badge a check and no step active |
| RegistryUrl.GetRegistryUrl | apps/showcase/lib/registry-url.ts:1-9 | the configured URL when it is non-empty, otherwise http://localhost:3002; never empty |
| RegistryUrl.InstallCommand | apps/showcase/lib/registry-url.ts:11-14 | the command starts with "npx shadcn@latest add " and ends with ".json" |
| RegistryUrl.InstallCommandRoundTrip | apps/showcase/lib/registry-url.ts:11-14 | the component name is read back from the command under the configured registry |
| RegistryUrl.DefaultInstallCommand | apps/showcase/lib/registry-url.ts:1-14 | with the variable unset or empty, the command points at the local registry |
| CodeBlockCommand.ReplaceUrl | apps/showcase/components/code-block-command.tsx:45-47 | an absent command stays absent; a command without the local URL is unchanged; for a URL without `$`, the first occurrence of the local URL, and only it, is swapped for the configured URL |
| CodeBlockCommand.Tabs | apps/showcase/components/code-block-command.tsx:41-55 | each manager's tab command is its prop rewritten to the configured registry |
| CodeBlockCommand.VisibleTabsSpec | apps/showcase/components/code-block-command.tsx:82-106 | a manager gets a tab iff its command is truthy; each tab shows its manager's command; tabs keep the npm, yarn, pnpm, bun order |
| CodeBlockCommand.CopyMatchesTabs | apps/showcase/components/code-block-command.tsx:57-66 | copying does something iff the selected manager has a tab, and copies that command; with no npm command the default selection copies nothing |
| CodeBlockCommand.TabShownIffProvided | apps/showcase/components/code-block-command.tsx:41-55 | for a URL without `$`, a manager has a tab iff its prop is a non-empty string |
| CodeBlockCommand.RewriteDefaultInstallCommand | apps/showcase/components/code-block-command.tsx:45-47 | rewriting the locally built install command equals building it against the configured registry, for a URL without `$` |
| CodeExtraction.FirstMatch | scripts/sdk/generate-component.ts:151-160 | the leftmost position where a pattern matches, and None only when it matches nowhere after the start |
| CodeExtraction.ExtractComponentCode | scripts/sdk/generate-component.ts:149-163 | fails iff neither pattern matches anywhere, with the fixed message; when a fenced block matches, the result is the trimmed body of the leftmost one; otherwise it is the text from the leftmost exported declaration to the end |
| CodeExtraction.ExtractFencedRoundTrip | scripts/sdk/generate-component.ts:151-154 | code wrapped in a typescript or tsx fence after backtick-free prose is extracted back, trimmed, whatever follows |
| CodeExtraction.ExtractExportRoundTrip | scripts/sdk/generate-component.ts:157-160 | with no fenced block, a declaration after prose without whitespace or backticks is extracted back whole, to the end of the text |
| CodeExtraction.LeftmostIsFirst | scripts/sdk/generate-component.ts:151-160 | a match never starts past the end of the text, and the leftmost match is the one the search reports |
| GenerateComponent.LoadPrompt | scripts/sdk/generate-component.ts:52-58 | succeeds iff the file exists, with its contents; otherwise fails naming the file |
| GenerateComponent.EffectiveMaxTurns | scripts/sdk/generate-component.ts:115 | always positive; the phase's limit when it is set and non-zero, otherwise 3 |
| GenerateComponent.PhaseTable | scripts/sdk/generate-component.ts:23-50 | five phases in order Planning, Questions, Implementation, Review, Finalize with limits 3, 2, 5, 3, 2; only Questions needs the user; distinct prompt files |
| GenerateComponent.NonEmpty | scripts/sdk/generate-component.ts:71 | keeps only non-empty strings, and exactly the non-empty strings of the input |
| GenerateComponent.NonEmptyConcat | scripts/sdk/generate-component.ts:71 | filtering distributes over concatenation, so kept strings keep their order and multiplicity |
| GenerateComponent.NonEmptyOne | scripts/sdk/generate-component.ts:71 | a single string is kept exactly when it is non-empty |
| GenerateComponent.SharedContextJoin | scripts/sdk/generate-component.ts:60-72 | the context is the join of the filtered loads of the three files in fixed order; each of the eight present/absent combinations gives the present files joined by the separator (one file alone, none "") |
| GenerateComponent.FormatPhasePrompt | scripts/sdk/generate-component.ts:74-92 | the prompt starts with the header, ends with the instructions, and is longer by exactly the previous-results section when the previous results are non-empty |
| GenerateComponent.PromptOpensWithHeading | scripts/sdk/generate-component.ts:80 | every phase prompt opens with the phase's heading line |
| GenerateComponent.FormatPhasePromptRoundTrip | scripts/sdk/generate-component.ts:85-87 | the previous-results section appears iff the previous results are non-empty, and holds them verbatim |
| GenerateComponent.AssistantTexts | scripts/sdk/generate-component.ts:119-132 | one entry per assistant message, other messages ignored |
| GenerateComponent.TextsOfRules | scripts/sdk/generate-component.ts:126-129 | the text blocks of a message are collected in order: a text block gives its text, any other block nothing |
| GenerateComponent.AssistantTextsRules | scripts/sdk/generate-component.ts:119-132 | collection distributes over the message stream; an assistant message gives its text blocks joined by newlines, any other message nothing |
| GenerateComponent.PhaseOutputRules | scripts/sdk/generate-component.ts:119-135 | one assistant message with one text block yields that text; other messages, before or after, change nothing |
| GenerateComponent.ExecutePhase | scripts/sdk/generate-component.ts:94-136 | a skipped phase returns the previous results or ""; otherwise it fails exactly when its prompt file is missing, and queries with the formatted prompt, the effective turn limit and the shared context as system prompt |
| GenerateComponent.SkipPassesThrough | scripts/sdk/generate-component.ts:103-106 | a skipped phase hands on the previous output unchanged, whatever the files and replies |
| GenerateComponent.RunPhasesThreads | scripts/sdk/generate-component.ts:176-188 | a successful loop runs every phase, feeds each phase's output to the next, and ends with the last output |
| GenerateComponent.RunPhasesIgnores | scripts/sdk/generate-component.ts:176-188 | the loop reads only the prompt files of phases it does not skip |
| GenerateComponent.GenerateComponent | scripts/sdk/generate-component.ts:165-201 | on success the file name is the component name plus ".tsx", and the directory is the given one or apps/registry/registry/new-york/ui under the working directory |
| GenerateComponent.GenerateParts | scripts/sdk/generate-component.ts:173-191 | generation succeeds iff the phase loop from empty results succeeds and code is extracted from its final output |
| GenerateComponent.CodeComesFromFinalize | scripts/sdk/generate-component.ts:176-191 | the saved code is what extraction finds in the Finalize phase's reply alone |
| GenerateComponent.PromptsCarryPreviousOutput | scripts/sdk/generate-component.ts:108-109 | every later non-skipped phase is queried with a prompt built from its own file and the previous phase's output |
| GenerateComponent.FirstPromptHasNoPreviousSection | scripts/sdk/generate-component.ts:176-184 | the Planning prompt has no previous-results section |
| GenerateComponent.NonInteractiveSkipsQuestions | scripts/sdk/generate-component.ts:103-106 | without --interactive the Questions prompt file is never needed and that phase hands on the Planning output |
| GenerateComponent.MissingPlanningPrompt | scripts/sdk/generate-component.ts:108 | a missing Planning prompt file fails the run with that file named |
| GenerateComponent.PromptsPresentFailsOnlyOnExtraction | scripts/sdk/generate-component.ts:176-191 | with the needed prompt files present, generation fails iff no code is found in the Finalize output |
| GenerateComponent.ParseCli | scripts/sdk/generate-component.ts:219-237 | the usage error iff fewer than three arguments; name, category and description from the first three; interactive iff a later argument is --interactive |
| GenerateComponent.CliRoundTrip | scripts/sdk/generate-component.ts:229-237 | options without an output directory survive the command line, and unknown extra arguments change nothing |
| VisualTest.ApplyFlag | scripts/sdk/visual-test.ts:119-134 | --themes and --viewports fail exactly without a value and otherwise split it on commas; --output takes the next argument even when absent; other flags change nothing |
| VisualTest.ParseArgs | scripts/sdk/visual-test.ts:104-116 | the usage error iff there are no arguments; the component name is the first |
| VisualTest.UnknownFlagSkipped | scripts/sdk/visual-test.ts:119-134 | an unknown flag is skipped together with the argument after it |
| VisualTest.LastValueWins | scripts/sdk/visual-test.ts:119-134 | a repeated flag takes its last value and leaves the other options unchanged |
| VisualTest.TrailingFlag | scripts/sdk/visual-test.ts:121-132 | a trailing --themes or --viewports is an error; a trailing --output resets the directory to the default |
| VisualTest.ArgsRoundTrip | scripts/sdk/visual-test.ts:119-134 | comma-joined lists on the command line come back as the same lists |
| VisualTest.Resolve | scripts/sdk/visual-test.ts:22-27 | a missing field gets its default (light and dark; mobile and desktop; ./screenshots); a given one, even empty, is kept |
| VisualTest.DefaultsForBareName | scripts/sdk/visual-test.ts:22-27 | a bare component name resolves to the three defaults |
| VisualTest.PromptShowsSettings | scripts/sdk/visual-test.ts:31-59 | the prompt holds the component, the themes joined by " and ", the viewports joined by ", ", the output directory and the demo page, each on a line of its own |
| VisualTest.VisualTestQuery | scripts/sdk/visual-test.ts:61-64 | the query uses the prompt for the resolved options, ten turns and the four allowed tools |
| VisualTest.BareNamePrompt | scripts/sdk/visual-test.ts:22-39 | for a bare name the prompt asks for the light and dark themes, the mobile and desktop viewports, and ./screenshots |

## Left out

- The agent `query` call and its streaming are not modelled. Each phase's reply is an input sequence of messages, and the visual-test reply, which is only logged, is dropped.
- File reads and `existsSync` are not modelled. The prompt directory is a map, and the path under `.claude/prompts` is not modelled.
- `saveGeneratedComponent` (`mkdir`, `writeFile`) is not modelled. The model stops at the directory and file name it would write to. `path.join` normalisation and the working directory are left abstract as directory segments.
- The following are not modelled because they affect no returned value: console logging, the one-second pause between phases, `process.exit`, the try/catch that turns an error into exit code 1, and the visual-test logging.
- The regular-expression engine is not modelled. The two patterns of `extractComponentCode` are written as matchers at a position plus a leftmost search.
- `dependencies` in the generation options is never read by the script, so it is not modelled. The category's union type is not checked at run time, so any string is accepted. For the same reason, theme and viewport names are any strings.
- In the install-command widget, the clipboard write, the "copied" state with its two-second timer, the tab widget's own state and all markup and class names are not modelled.
- StepIndicator layout and styling (class names, icons, sizes) are abstracted. What is kept is the badge, the status style group, the muted label, the description and the connector colour.
- The bigblocks demos import the component from registry/bigblocks/ui/step-indicator.tsx, and the new-york demos import it from the registry app's components/ui/step-indicator.tsx. Neither of those copies is part of this model. The demos are rendered with the showcase component's rule.
- The showcase page's other sections (headings, usage and code samples) are not modelled.
- The other files of the repository (sidebar, headers, open-in-v0, registry index, configuration) are not part of this model.
- Strings are sequences of Unicode scalar values, not UTF-16 code units.
- CodeBlockCommand.TabShownIffProvided: the model requires a registry URL without `$`. `replace` expands `$` patterns in its replacement text, so such a URL could turn a non-empty command empty. That expansion is modelled in `Strings.ReplaceFirst`; the lemma states the common case.
- CodeBlockCommand.RewriteDefaultInstallCommand: the same restriction to a URL without `$` applies, for the same reason.
- CodeExtraction.ExtractExportRoundTrip: the model requires prose with no whitespace or backtick and a declaration with no backtick. Otherwise the prose could hold a fence or a declaration of its own that the search finds first.
- CodeExtraction.ExtractFencedRoundTrip: the model requires prose free of backticks and code that neither contains a fence nor ends with a backtick. Otherwise an earlier or shorter match is taken, as the regular expression would take it.
- VisualTest.ArgsRoundTrip: the model requires non-empty lists whose entries hold no comma. Otherwise splitting on commas does not give the list back.
