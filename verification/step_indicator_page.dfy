/** The step-indicator showcase page. It carries its own inline copy of the
    `StepIndicator` rule (a wrapper `div` per step instead of a fragment,
    a "✓" text glyph instead of the icon) and drives a 4-step horizontal
    list and a 3-step vertical list from one `activeStep`, moved by
    Previous/Next buttons that are never disabled. */
module StepIndicatorPage {
  import opened Wrappers
  import opened Strings
  import opened StepIndicator
  import opened Wizard

  /** A horizontal child of the inline copy: one wrapper holding the step
      and, for every step but the last, the connector after it. */
  datatype Group = Group(item: Item, line: Option<Connector>)

  datatype InlineRendering = InlineColumn(items: seq<Item>) | InlineRow(groups: seq<Group>)

  /** The inline copy's rule for one step: the "✓" glyph for a complete
      step and `index + 1` otherwise, a muted label for a pending step, and
      the description paragraph when the column is drawn and the
      description is truthy. */
  function InlineItem(step: Step, index: nat, column: bool): Item {
    Item(if step.status == Complete then Check else Number(index + 1),
         TonesOf(step.status),
         step.caption,
         step.status == Pending,
         if column && step.description.Some? && step.description.value != "" then step.description else None)
  }

  function InlineGroup(steps: seq<Step>, i: nat): Group
    requires i < |steps|
  {
    Group(InlineItem(steps[i], i, false),
          if i < |steps| - 1 then
            Some(if steps[i + 1].status != Pending then ActiveLine else InactiveLine)
          else None)
  }

  /** The page's inline `StepIndicator`. */
  function InlineRender(steps: seq<Step>, variant: Option<string>): InlineRendering {
    if variant.GetOr("horizontal") == "vertical" then
      InlineColumn(seq(|steps|, i requires 0 <= i < |steps| => InlineItem(steps[i], i, true)))
    else
      InlineRow(seq(|steps|, i requires 0 <= i < |steps| => InlineGroup(steps, i)))
  }

  /** Removes the wrapper `div`s: each group contributes its step, then its
      connector if it has one. */
  function Unwrap(groups: seq<Group>): seq<Node> {
    if |groups| == 0 then []
    else
      [StepNode(groups[0].item)]
      + (if groups[0].line.Some? then [Line(groups[0].line.value)] else [])
      + Unwrap(groups[1..])
  }

  function Unwrapped(r: InlineRendering): Rendering {
    match r
    case InlineColumn(items) => Column(items)
    case InlineRow(groups) => Row(Unwrap(groups))
  }

  lemma {:induction false} UnwrapFrom(steps: seq<Step>, i: nat)
    requires i <= |steps|
    ensures Unwrap(seq(|steps| - i, k requires 0 <= k < |steps| - i => InlineGroup(steps, i + k)))
         == RowFrom(steps, i)
    decreases |steps| - i
  {
    if i < |steps| {
      var gs := seq(|steps| - i, k requires 0 <= k < |steps| - i => InlineGroup(steps, i + k));
      assert gs[1..] == seq(|steps| - (i + 1), k requires 0 <= k < |steps| - (i + 1) => InlineGroup(steps, i + 1 + k));
      UnwrapFrom(steps, i + 1);
      assert gs[0] == InlineGroup(steps, i);
    }
  }

  /** Apart from the wrapper elements, the inline copy renders exactly what
      the library component renders: the same badges, labels, descriptions
      and connectors, in the same order. */
  lemma InlineCopyAgrees(steps: seq<Step>, variant: Option<string>)
    ensures Unwrapped(InlineRender(steps, variant)) == Render(steps, variant)
  {
    if variant.GetOr("horizontal") != "vertical" {
      UnwrapFrom(steps, 0);
      assert seq(|steps| - 0, k requires 0 <= k < |steps| - 0 => InlineGroup(steps, 0 + k))
          == seq(|steps|, i requires 0 <= i < |steps| => InlineGroup(steps, i));
    }
  }

  /** The inline copy's badge is "✓" exactly for a complete step and
      `index + 1` otherwise; the wrapper of step `i` holds a connector
      exactly when `i < length - 1`, active exactly when step `i + 1` is not
      pending. */
  lemma InlineRules(steps: seq<Step>, i: nat)
    requires i < |steps|
    ensures InlineItem(steps[i], i, false).badge == Check <==> steps[i].status == Complete
    ensures steps[i].status != Complete ==> InlineItem(steps[i], i, false).badge == Number(i + 1)
    ensures InlineGroup(steps, i).line.Some? <==> i < |steps| - 1
    ensures InlineGroup(steps, i).line.Some? ==>
      (InlineGroup(steps, i).line.value == ActiveLine <==> steps[i + 1].status != Pending)
  {
  }

  /* ------------------------------------------------------------- the page */

  /** The horizontal list: Account, Profile, Settings, Complete. */
  const PageDemo: Demo := Demo(
    1,
    [StepSpec("1", "Account", None), StepSpec("2", "Profile", None),
     StepSpec("3", "Settings", None), StepSpec("4", "Complete", None)],
    None, false, "Previous", "Next", "Next")

  /** The vertical list, three steps with descriptions, driven by the same
      `activeStep`. */
  const VerticalSpecs: seq<StepSpec> := [
    StepSpec("1", "Create Account", Some("Enter your email and password")),
    StepSpec("2", "Verify Email", Some("Check your inbox for verification")),
    StepSpec("3", "Complete Profile", Some("Add your personal information"))]

  datatype PageView = PageView(horizontal: InlineRendering, vertical: InlineRendering)

  function VerticalSteps(a: int): seq<Step> {
    StepsAt(PageDemo.(specs := VerticalSpecs, variant := Some("vertical")), a)
  }

  /** What the page shows for `activeStep`. */
  function View(a: int): PageView {
    PageView(InlineRender(StepsAt(PageDemo, a), None),
             InlineRender(VerticalSteps(a), Some("vertical")))
  }

  /** The page starts on step 1; Previous gives `max(0, a - 1)` and Next
      gives `min(3, a + 1)`; no button is ever disabled; and whatever is
      clicked, `activeStep` stays in `[0, 3]` and the horizontal list has
      exactly one active step. */
  lemma PageNavigation(clicks: seq<Button>)
    ensures PageDemo.initial == 1
    ensures forall a :: Click(PageDemo, a, Back) == Max(0, a - 1)
    ensures forall a :: Click(PageDemo, a, Forward) == Min(3, a + 1)
    ensures InRange(Run(PageDemo, PageDemo.initial, clicks))
    ensures CountActive(Statuses(Run(PageDemo, PageDemo.initial, clicks), 4)) == 1
  {
    RunStaysInRange(PageDemo, PageDemo.initial, clicks);
    ActiveCount(Run(PageDemo, PageDemo.initial, clicks), 4);
  }

  /** On the last step the 3-step vertical list is entirely complete: every
      badge is a check mark and no step is active. */
  lemma VerticalListCompleteAtEnd()
    ensures |View(LastStep).vertical.items| == 3
    ensures forall k :: 0 <= k < 3 ==> View(LastStep).vertical.items[k].badge == Check
    ensures CountActive(Statuses(LastStep, |VerticalSpecs|)) == 0
  {
    ActiveCount(LastStep, 3);
  }
}
