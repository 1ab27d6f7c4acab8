/** The step-indicator demos: each keeps one integer `activeStep`, derives
    every step's status from it with `getStatus`, and moves it with a
    Previous/Back button and a Next/Continue button clamped to `[0, 3]`.
    Some demos also disable a button at the bound it cannot pass and change
    the forward button's text on the last step. */
module Wizard {
  import opened Wrappers
  import opened Strings
  import opened StepIndicator

  const FirstStep: int := 0
  const LastStep: int := 3

  predicate InRange(a: int) {
    FirstStep <= a <= LastStep
  }

  function Max(x: int, y: int): int {
    if x >= y then x else y
  }

  function Min(x: int, y: int): int {
    if x <= y then x else y
  }

  /* ------------------------------------------------------ status derivation */

  /** `getStatus(stepIndex)`: steps before the active one are complete, the
      active one is active, later ones are pending. */
  function GetStatus(activeStep: int, stepIndex: int): (s: Status)
    ensures s == Complete <==> stepIndex < activeStep
    ensures s == Active <==> stepIndex == activeStep
    ensures s == Pending <==> activeStep < stepIndex
  {
    if activeStep > stepIndex then Complete
    else if activeStep == stepIndex then Active
    else Pending
  }

  /** The statuses of steps `0..n` for one `activeStep`. */
  function Statuses(activeStep: int, n: nat): seq<Status> {
    seq(n, k requires 0 <= k < n => GetStatus(activeStep, k))
  }

  function Rank(s: Status): nat {
    match s
    case Pending => 0
    case Active => 1
    case Complete => 2
  }

  /** A complete prefix, then at most one active step, then a pending suffix. */
  predicate Progressive(ss: seq<Status>) {
    forall i, j :: 0 <= i < j < |ss| ==>
      Rank(ss[i]) >= Rank(ss[j]) && !(ss[i] == Active && ss[j] == Active)
  }

  function CountActive(ss: seq<Status>): nat {
    if |ss| == 0 then 0
    else CountActive(ss[..|ss| - 1]) + (if ss[|ss| - 1] == Active then 1 else 0)
  }

  function CountComplete(ss: seq<Status>): nat {
    if |ss| == 0 then 0
    else CountComplete(ss[..|ss| - 1]) + (if ss[|ss| - 1] == Complete then 1 else 0)
  }

  /** Exactly one step is active when `activeStep` names one of the `n`
      steps; otherwise none is (all complete past the end, all pending
      before the start). */
  lemma {:induction false} ActiveCount(a: int, n: nat)
    ensures CountActive(Statuses(a, n)) == if 0 <= a < n then 1 else 0
  {
    if n > 0 {
      ActiveCount(a, n - 1);
      assert Statuses(a, n)[..n - 1] == Statuses(a, n - 1);
    }
  }

  /** The number of complete steps is `activeStep` clamped to `[0, n]`. */
  lemma {:induction false} CompleteCount(a: int, n: nat)
    ensures CountComplete(Statuses(a, n)) == Min(Max(a, 0), n)
  {
    if n > 0 {
      CompleteCount(a, n - 1);
      assert Statuses(a, n)[..n - 1] == Statuses(a, n - 1);
    }
  }

  /** The derived status list always has the progressive shape, and
      `activeStep` can be read back from it as the number of complete steps. */
  lemma StatusesRoundTrip(a: int, n: nat)
    requires 0 <= a <= n
    ensures Progressive(Statuses(a, n))
    ensures CountComplete(Statuses(a, n)) == a
  {
    CompleteCount(a, n);
  }

  /** Conversely, every progressive list with an active step is the
      derivation of exactly the index of that step. */
  lemma ProgressiveIsDerived(ss: seq<Status>, p: nat)
    requires Progressive(ss)
    requires p < |ss| && ss[p] == Active
    ensures ss == Statuses(p, |ss|)
    ensures CountComplete(ss) == p
  {
    forall k | 0 <= k < |ss|
      ensures ss[k] == GetStatus(p, k)
    {
      if k < p {
        assert Rank(ss[k]) >= Rank(ss[p]);
      } else if k > p {
        assert Rank(ss[p]) >= Rank(ss[k]);
      }
    }
    CompleteCount(p, |ss|);
  }

  /** A status list comes from some in-range `activeStep` exactly when it is
      progressive and has an active step. */
  lemma DerivedIffProgressive(ss: seq<Status>)
    ensures (exists a :: 0 <= a < |ss| && ss == Statuses(a, |ss|))
        <==> (Progressive(ss) && Active in ss)
  {
    if Progressive(ss) && Active in ss {
      var p :| 0 <= p < |ss| && ss[p] == Active;
      ProgressiveIsDerived(ss, p);
    }
    if exists a :: 0 <= a < |ss| && ss == Statuses(a, |ss|) {
      var a :| 0 <= a < |ss| && ss == Statuses(a, |ss|);
      assert ss[a] == Active;
    }
  }

  /* ------------------------------------------------------------- navigation */

  /** Previous/Back: `Math.max(0, activeStep - 1)`. */
  function Previous(a: int): (r: int)
    ensures r >= FirstStep
    ensures InRange(a) ==> InRange(r)
    ensures a >= FirstStep ==> (r == a <==> a == FirstStep)
    ensures a > FirstStep ==> r == a - 1
  {
    Max(0, a - 1)
  }

  /** Next/Continue: `Math.min(3, activeStep + 1)`. */
  function Next(a: int): (r: int)
    ensures r <= LastStep
    ensures InRange(a) ==> InRange(r)
    ensures a <= LastStep ==> (r == a <==> a == LastStep)
    ensures a < LastStep ==> r == a + 1
  {
    Min(3, a + 1)
  }

  datatype Button = Back | Forward

  /** A step as a demo declares it; its status is derived on each render. */
  datatype StepSpec = StepSpec(id: string, caption: string, description: Option<string>)

  /** One demo: initial `activeStep`, its step list and variant, whether its
      buttons are disabled at the bounds, and its button texts
      (`finishText` is what the forward button reads on the last step). */
  datatype Demo = Demo(
    initial: int,
    specs: seq<StepSpec>,
    variant: Option<string>,
    disablesAtBounds: bool,
    backText: string,
    forwardText: string,
    finishText: string)

  /** The `steps` array a demo passes to `StepIndicator` for `activeStep`. */
  function StepsAt(d: Demo, a: int): (steps: seq<Step>)
    ensures |steps| == |d.specs|
    ensures forall k :: 0 <= k < |steps| ==>
      && steps[k].status == GetStatus(a, k)
      && steps[k].id == d.specs[k].id
      && steps[k].caption == d.specs[k].caption
      && steps[k].description == d.specs[k].description
  {
    seq(|d.specs|, k requires 0 <= k < |d.specs| =>
      Step(d.specs[k].id, d.specs[k].caption, d.specs[k].description, GetStatus(a, k)))
  }

  predicate Disabled(d: Demo, a: int, b: Button) {
    d.disablesAtBounds && (if b == Back then a == FirstStep else a == LastStep)
  }

  /** The effect of clicking `b`: a disabled button does not fire. */
  function Click(d: Demo, a: int, b: Button): int {
    if Disabled(d, a, b) then a
    else if b == Back then Previous(a)
    else Next(a)
  }

  /** `activeStep` after a sequence of clicks starting from `a`. */
  function Run(d: Demo, a: int, clicks: seq<Button>): int
    decreases |clicks|
  {
    if |clicks| == 0 then a else Run(d, Click(d, a, clicks[0]), clicks[1..])
  }

  datatype Controls = Controls(backDisabled: bool, forwardDisabled: bool, forwardLabel: string)

  /** The button row rendered for `activeStep`. */
  function ControlsAt(d: Demo, a: int): Controls {
    Controls(Disabled(d, a, Back), Disabled(d, a, Forward),
             if a == LastStep then d.finishText else d.forwardText)
  }

  /** Whatever is clicked, `activeStep` never leaves `[0, 3]`. */
  lemma {:induction false} RunStaysInRange(d: Demo, a: int, clicks: seq<Button>)
    requires InRange(a)
    ensures InRange(Run(d, a, clicks))
    decreases |clicks|
  {
    if |clicks| > 0 {
      RunStaysInRange(d, Click(d, a, clicks[0]), clicks[1..]);
    }
  }

  /** Disabling a button at its bound changes nothing: the clamp already
      makes that click a no-op, so a demo without disabled states behaves
      the same. */
  lemma DisablingIsRedundant(d: Demo, a: int, b: Button)
    requires InRange(a)
    ensures Click(d, a, b) == Click(d.(disablesAtBounds := false), a, b)
  {
  }

  /** In a demo that disables its buttons, a button is disabled exactly when
      clicking it would leave `activeStep` unchanged, and the forward button
      shows its final text exactly on the last step. */
  lemma ControlsMatchClamp(d: Demo, a: int)
    requires InRange(a)
    ensures ControlsAt(d, a).backDisabled <==> d.disablesAtBounds && Previous(a) == a
    ensures ControlsAt(d, a).forwardDisabled <==> d.disablesAtBounds && Next(a) == a
    ensures ControlsAt(d, a).forwardLabel == if Next(a) == a then d.finishText else d.forwardText
  {
  }

  function Repeat(b: Button, n: nat): (r: seq<Button>)
    ensures |r| == n
    ensures forall i :: 0 <= i < n ==> r[i] == b
  {
    if n == 0 then [] else [b] + Repeat(b, n - 1)
  }

  /** The clicks that move `activeStep` from `from` to `to`. */
  function ClicksBetween(from: int, to: int): seq<Button> {
    if from <= to then Repeat(Forward, to - from) else Repeat(Back, from - to)
  }

  lemma {:induction false} ClicksBetweenArrive(d: Demo, from: int, to: int)
    requires InRange(from) && InRange(to)
    ensures Run(d, from, ClicksBetween(from, to)) == to
    decreases if from <= to then to - from else from - to
  {
    var cs := ClicksBetween(from, to);
    if from < to {
      assert cs[1..] == ClicksBetween(from + 1, to);
      ClicksBetweenArrive(d, from + 1, to);
    } else if from > to {
      assert cs[1..] == ClicksBetween(from - 1, to);
      ClicksBetweenArrive(d, from - 1, to);
    }
  }

  /** Every in-range step can be reached from the demo's initial step. */
  lemma EveryStepReachable(d: Demo, a: int)
    requires InRange(d.initial) && InRange(a)
    ensures exists clicks :: Run(d, d.initial, clicks) == a
  {
    ClicksBetweenArrive(d, d.initial, a);
  }

  /** With four steps, every reachable `activeStep` makes exactly one step
      active. */
  lemma OneActiveStep(d: Demo, clicks: seq<Button>)
    requires InRange(d.initial) && |d.specs| == 4
    ensures var steps := StepsAt(d, Run(d, d.initial, clicks));
      CountActive(seq(|steps|, k requires 0 <= k < |steps| => steps[k].status)) == 1
  {
    var a := Run(d, d.initial, clicks);
    RunStaysInRange(d, d.initial, clicks);
    var steps := StepsAt(d, a);
    assert seq(|steps|, k requires 0 <= k < |steps| => steps[k].status) == Statuses(a, 4);
    ActiveCount(a, 4);
  }

  /** In the horizontal variant, the connector leading into step `i + 1` is
      active exactly when `i + 1 <= activeStep`. */
  lemma ConnectorsFollowProgress(d: Demo, a: int)
    requires LayoutOf(d.variant) == Horizontal
    ensures var lines := Connectors(Render(StepsAt(d, a), d.variant));
      && |lines| == (if |d.specs| == 0 then 0 else |d.specs| - 1)
      && forall i :: 0 <= i < |lines| ==> (lines[i] == ActiveLine <==> i + 1 <= a)
  {
    RenderedConnectors(StepsAt(d, a), d.variant);
  }

  /* ------------------------------------------------------------ the demos */

  /** apps/registry/registry/new-york/examples/step-indicator-demo.tsx */
  const NewYorkDemo: Demo := Demo(
    1,
    [StepSpec("1", "Account", None), StepSpec("2", "Security", None),
     StepSpec("3", "Backup", None), StepSpec("4", "Complete", None)],
    None, true, "Previous", "Next", "Finish")

  /** apps/registry/registry/new-york/examples/step-indicator-with-descriptions.tsx */
  const WithDescriptions: Demo := Demo(
    0,
    [StepSpec("1", "Create Identity", Some("Generate your Bitcoin keypair")),
     StepSpec("2", "Secure Account", Some("Set encryption password")),
     StepSpec("3", "Download Backup", Some("Save encrypted recovery file")),
     StepSpec("4", "Connect OAuth", Some("Optional cloud backup"))],
    Some("vertical"), true, "Back", "Continue", "Complete")

  /** apps/showcase/registry/bigblocks/examples/step-indicator-vertical.tsx */
  const BigBlocksVertical: Demo := Demo(
    1,
    [StepSpec("1", "Generate Identity", None), StepSpec("2", "Set Password", None),
     StepSpec("3", "Create Profile", None), StepSpec("4", "Save Backup", None)],
    Some("vertical"), true, "Back", "Continue", "Complete Setup")

  /** apps/showcase/registry/bigblocks/examples/step-indicator-demo.tsx: no
      disabled states and a forward text that never changes. */
  const BigBlocksDemo: Demo := Demo(
    1,
    [StepSpec("1", "Account", None), StepSpec("2", "Profile", None),
     StepSpec("3", "Settings", None), StepSpec("4", "Complete", None)],
    None, false, "Previous", "Next", "Next")

  /** The new-york demo starts on step 1 (Security active), disables
      Previous only on step 0 and Next only on step 3, where it reads
      "Finish". */
  lemma NewYorkDemoBehaviour(a: int)
    requires InRange(a)
    ensures Statuses(NewYorkDemo.initial, 4) == [Complete, Active, Pending, Pending]
    ensures ControlsAt(NewYorkDemo, a).backDisabled <==> a == 0
    ensures ControlsAt(NewYorkDemo, a).forwardDisabled <==> a == 3
    ensures ControlsAt(NewYorkDemo, a).forwardLabel == if a == 3 then "Finish" else "Next"
  {
  }

  /** The descriptions demo starts on step 0 (only it active), shows every
      step's description, and reads "Complete" on the last step. */
  lemma WithDescriptionsBehaviour(a: int)
    requires InRange(a)
    ensures Statuses(WithDescriptions.initial, 4) == [Active, Pending, Pending, Pending]
    ensures forall k :: 0 <= k < 4 ==> Truthy(WithDescriptions.specs[k].description)
    ensures forall k :: 0 <= k < 4 ==>
      Items(Render(StepsAt(WithDescriptions, a), WithDescriptions.variant))[k].description
        == WithDescriptions.specs[k].description
    ensures ControlsAt(WithDescriptions, a).backDisabled <==> a == 0
    ensures ControlsAt(WithDescriptions, a).forwardDisabled <==> a == 3
    ensures ControlsAt(WithDescriptions, a).forwardLabel == if a == 3 then "Complete" else "Continue"
  {
    RenderedItems(StepsAt(WithDescriptions, a), WithDescriptions.variant);
  }

  /** The vertical demo starts on step 1 and reads "Complete Setup" on the
      last step. */
  lemma BigBlocksVerticalBehaviour(a: int)
    requires InRange(a)
    ensures Statuses(BigBlocksVertical.initial, 4) == [Complete, Active, Pending, Pending]
    ensures ControlsAt(BigBlocksVertical, a).backDisabled <==> a == 0
    ensures ControlsAt(BigBlocksVertical, a).forwardDisabled <==> a == 3
    ensures ControlsAt(BigBlocksVertical, a).forwardLabel == if a == 3 then "Complete Setup" else "Continue"
  {
  }

  /** The bigblocks demo never disables a button; clicking Previous on step
      0 or Next on step 3 leaves `activeStep` where it is, and no click
      sequence leaves `[0, 3]`. */
  lemma BigBlocksDemoBehaviour(a: int, clicks: seq<Button>)
    requires InRange(a)
    ensures BigBlocksDemo.initial == 1
    ensures !ControlsAt(BigBlocksDemo, a).backDisabled && !ControlsAt(BigBlocksDemo, a).forwardDisabled
    ensures Click(BigBlocksDemo, FirstStep, Back) == FirstStep
    ensures Click(BigBlocksDemo, LastStep, Forward) == LastStep
    ensures InRange(Run(BigBlocksDemo, BigBlocksDemo.initial, clicks))
  {
    RunStaysInRange(BigBlocksDemo, BigBlocksDemo.initial, clicks);
  }
}
