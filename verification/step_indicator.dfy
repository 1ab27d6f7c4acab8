/** The `StepIndicator` component: an ordered list of steps, each with a
    three-valued status, rendered either as a column (vertical variant) or
    as a row of step badges joined by connector lines (horizontal variant).

    Markup and styling are abstracted to what the rule decides: the badge
    (a check mark or the 1-based position), which of the three status styles
    the badge gets, whether the label is muted, whether the description is
    shown, and the colour of each connector. */
module StepIndicator {
  import opened Wrappers
  import opened Strings

  datatype Status = Pending | Active | Complete

  datatype Step = Step(id: string, caption: string, description: Option<string>, status: Status)

  datatype Layout = Horizontal | Vertical

  /** What a badge shows: a check mark, or the step's 1-based position. */
  datatype Badge = Check | Number(n: nat)

  /** The three status style groups a badge can receive. */
  datatype Tone = CompleteTone | ActiveTone | PendingTone

  /** One rendered step. `description` is the text of the description
      paragraph, absent when no paragraph is rendered. */
  datatype Item = Item(badge: Badge, tones: seq<Tone>, caption: string, muted: bool, description: Option<string>)

  /** A connector line, coloured by whether progress reached the next step. */
  datatype Connector = ActiveLine | InactiveLine

  /** The horizontal variant's children, in document order. */
  datatype Node = StepNode(item: Item) | Line(connector: Connector)

  datatype Rendering = Column(items: seq<Item>) | Row(nodes: seq<Node>)

  /** The `variant` prop defaults to "horizontal"; the column is chosen
      only by the exact value "vertical". */
  function LayoutOf(variant: Option<string>): (l: Layout)
    ensures l == Vertical <==> variant == Some("vertical")
    ensures variant == None ==> l == Horizontal
  {
    if variant.GetOr("horizontal") == "vertical" then Vertical else Horizontal
  }

  function BadgeOf(status: Status, index: nat): Badge {
    if status == Complete then Check else Number(index + 1)
  }

  /** The status styles the class-name combiner keeps: one conditional
      group per status, tested independently. */
  function TonesOf(status: Status): (ts: seq<Tone>)
    ensures |ts| == 1
    ensures ts[0] == CompleteTone <==> status == Complete
    ensures ts[0] == ActiveTone <==> status == Active
    ensures ts[0] == PendingTone <==> status == Pending
  {
    (if status == Complete then [CompleteTone] else [])
    + (if status == Active then [ActiveTone] else [])
    + (if status == Pending then [PendingTone] else [])
  }

  /** The rendering of the step at position `index`. The description
      paragraph exists only in the vertical variant, and only for a
      description that is present and non-empty. */
  function ItemOf(step: Step, index: nat, layout: Layout): (it: Item)
    ensures it.badge == Check <==> step.status == Complete
    ensures it.badge != Check ==> it.badge == Number(index + 1)
    ensures it.muted <==> step.status == Pending
    ensures it.caption == step.caption
    ensures it.description.Some? <==> layout == Vertical && Truthy(step.description)
    ensures it.description.Some? ==> it.description == step.description
  {
    Item(BadgeOf(step.status, index), TonesOf(step.status), step.caption,
         step.status == Pending,
         if layout == Vertical && Truthy(step.description) then step.description else None)
  }

  /** The colour of the connector leading into `next`. */
  function LineInto(next: Step): Connector {
    if next.status != Pending then ActiveLine else InactiveLine
  }

  /** The fragment for step `i` in the horizontal variant: its badge and
      label, then a connector unless it is the last step. */
  function Fragment(steps: seq<Step>, i: nat): seq<Node>
    requires i < |steps|
  {
    [StepNode(ItemOf(steps[i], i, Horizontal))]
    + (if i < |steps| - 1 then [Line(LineInto(steps[i + 1]))] else [])
  }

  /** The fragments of steps `i..` in order. */
  function RowFrom(steps: seq<Step>, i: nat): seq<Node>
    requires i <= |steps|
    decreases |steps| - i
  {
    if i == |steps| then [] else Fragment(steps, i) + RowFrom(steps, i + 1)
  }

  /** `StepIndicator({steps, variant})`. */
  function Render(steps: seq<Step>, variant: Option<string>): Rendering {
    if LayoutOf(variant) == Vertical then
      Column(seq(|steps|, i requires 0 <= i < |steps| => ItemOf(steps[i], i, Vertical)))
    else
      Row(RowFrom(steps, 0))
  }

  /* ------------------------------------------------ reading a rendering */

  function ItemsOf(nodes: seq<Node>): seq<Item> {
    if |nodes| == 0 then []
    else (if nodes[0].StepNode? then [nodes[0].item] else []) + ItemsOf(nodes[1..])
  }

  function LinesOf(nodes: seq<Node>): seq<Connector> {
    if |nodes| == 0 then []
    else (if nodes[0].Line? then [nodes[0].connector] else []) + LinesOf(nodes[1..])
  }

  /** The rendered steps, in document order. */
  function Items(r: Rendering): seq<Item> {
    match r
    case Column(items) => items
    case Row(nodes) => ItemsOf(nodes)
  }

  /** The rendered connectors, in document order. */
  function Connectors(r: Rendering): seq<Connector> {
    match r
    case Column(_) => []
    case Row(nodes) => LinesOf(nodes)
  }

  /* ------------------------------------------------------------- lemmas */

  lemma {:induction false} ItemsOfConcat(a: seq<Node>, b: seq<Node>)
    ensures ItemsOf(a + b) == ItemsOf(a) + ItemsOf(b)
  {
    if |a| > 0 {
      assert (a + b)[1..] == a[1..] + b;
      ItemsOfConcat(a[1..], b);
    } else {
      assert a + b == b;
    }
  }

  lemma {:induction false} LinesOfConcat(a: seq<Node>, b: seq<Node>)
    ensures LinesOf(a + b) == LinesOf(a) + LinesOf(b)
  {
    if |a| > 0 {
      assert (a + b)[1..] == a[1..] + b;
      LinesOfConcat(a[1..], b);
    } else {
      assert a + b == b;
    }
  }

  /** The row interleaves the steps with connectors: step `k` sits at
      position `2k` and the connector leading into step `k` at `2k - 1`. */
  lemma {:induction false} RowFromShape(steps: seq<Step>, i: nat)
    requires i <= |steps|
    ensures |RowFrom(steps, i)| == if i == |steps| then 0 else 2 * (|steps| - i) - 1
    ensures forall k :: i <= k < |steps| ==>
      RowFrom(steps, i)[2 * (k - i)] == StepNode(ItemOf(steps[k], k, Horizontal))
    ensures forall k :: i < k < |steps| ==>
      RowFrom(steps, i)[2 * (k - i) - 1] == Line(LineInto(steps[k]))
    decreases |steps| - i
  {
    if i < |steps| {
      RowFromShape(steps, i + 1);
      var f := Fragment(steps, i);
      var rest := RowFrom(steps, i + 1);
      assert RowFrom(steps, i) == f + rest;
      assert RowFrom(steps, i)[0] == StepNode(ItemOf(steps[i], i, Horizontal));
      if i < |steps| - 1 {
        assert |f| == 2;
        forall k | i < k < |steps|
          ensures RowFrom(steps, i)[2 * (k - i)] == StepNode(ItemOf(steps[k], k, Horizontal))
          ensures RowFrom(steps, i)[2 * (k - i) - 1] == Line(LineInto(steps[k]))
        {
          var j := 2 * (k - i);
          assert RowFrom(steps, i)[j] == rest[2 * (k - (i + 1))];
          if k > i + 1 {
            assert RowFrom(steps, i)[j - 1] == rest[2 * (k - (i + 1)) - 1];
          } else {
            assert RowFrom(steps, i)[j - 1] == f[1];
          }
        }
      }
    }
  }

  lemma {:induction false} RowFromItems(steps: seq<Step>, i: nat)
    requires i <= |steps|
    ensures |ItemsOf(RowFrom(steps, i))| == |steps| - i
    ensures forall k :: i <= k < |steps| ==>
      ItemsOf(RowFrom(steps, i))[k - i] == ItemOf(steps[k], k, Horizontal)
    decreases |steps| - i
  {
    if i < |steps| {
      RowFromItems(steps, i + 1);
      var f := Fragment(steps, i);
      ItemsOfConcat(f, RowFrom(steps, i + 1));
      assert ItemsOf(f) == [ItemOf(steps[i], i, Horizontal)] by {
        assert f[1..] == (if i < |steps| - 1 then [Line(LineInto(steps[i + 1]))] else []);
        if i < |steps| - 1 {
          assert f[1..][1..] == [];
        }
      }
    }
  }

  lemma {:induction false} RowFromLines(steps: seq<Step>, i: nat)
    requires i <= |steps|
    ensures |LinesOf(RowFrom(steps, i))| == if i == |steps| then 0 else |steps| - i - 1
    ensures forall k :: i < k < |steps| ==>
      LinesOf(RowFrom(steps, i))[k - i - 1] == LineInto(steps[k])
    decreases |steps| - i
  {
    if i < |steps| {
      RowFromLines(steps, i + 1);
      var f := Fragment(steps, i);
      LinesOfConcat(f, RowFrom(steps, i + 1));
      assert f[1..] == (if i < |steps| - 1 then [Line(LineInto(steps[i + 1]))] else []);
      if i < |steps| - 1 {
        assert f[1..][1..] == [];
        assert LinesOf(f) == [LineInto(steps[i + 1])];
      } else {
        assert LinesOf(f) == [];
      }
    }
  }

  /** Every step is rendered exactly once and in input order, in both
      variants; what each rendered step shows is fixed by `ItemOf`. */
  lemma RenderedItems(steps: seq<Step>, variant: Option<string>)
    ensures |Items(Render(steps, variant))| == |steps|
    ensures forall i :: 0 <= i < |steps| ==>
      Items(Render(steps, variant))[i] == ItemOf(steps[i], i, LayoutOf(variant))
  {
    if LayoutOf(variant) == Horizontal {
      RowItems(steps);
    }
  }

  /** The steps of the whole row, read back in order. */
  lemma RowItems(steps: seq<Step>)
    ensures |ItemsOf(RowFrom(steps, 0))| == |steps|
    ensures forall i :: 0 <= i < |steps| ==> ItemsOf(RowFrom(steps, 0))[i] == ItemOf(steps[i], i, Horizontal)
  {
    RowFromItems(steps, 0);
    forall i | 0 <= i < |steps|
      ensures ItemsOf(RowFrom(steps, 0))[i] == ItemOf(steps[i], i, Horizontal)
    {
      assert ItemsOf(RowFrom(steps, 0))[i - 0] == ItemOf(steps[i], i, Horizontal);
    }
  }

  /** One badge per step: a check mark exactly for the complete steps and
      the number `i + 1` otherwise; a muted label exactly for the pending
      steps; exactly one status style per badge; and a description only in
      the vertical variant and only when it is non-empty. */
  lemma BadgeAndLabelRule(steps: seq<Step>, variant: Option<string>, i: nat)
    requires i < |steps|
    ensures var items := Items(Render(steps, variant));
      && |items| == |steps|
      && (items[i].badge == Check <==> steps[i].status == Complete)
      && (steps[i].status != Complete ==> items[i].badge == Number(i + 1))
      && (items[i].muted <==> steps[i].status == Pending)
      && |items[i].tones| == 1
      && (items[i].description.Some? <==> variant == Some("vertical") && Truthy(steps[i].description))
  {
    RenderedItems(steps, variant);
  }

  /** Connectors exist only in the horizontal variant, one between each
      pair of neighbours (so `n` steps give `n - 1` and no steps give none),
      and the one leading into step `k` is active exactly when step `k` is
      not pending. */
  lemma RenderedConnectors(steps: seq<Step>, variant: Option<string>)
    ensures var lines := Connectors(Render(steps, variant));
      && (variant == Some("vertical") ==> lines == [])
      && (variant != Some("vertical") ==> |lines| == if |steps| == 0 then 0 else |steps| - 1)
      && (forall i :: 0 <= i < |lines| ==> (lines[i] == ActiveLine <==> steps[i + 1].status != Pending))
  {
    if LayoutOf(variant) == Horizontal {
      RowFromLines(steps, 0);
      var lines := Connectors(Render(steps, variant));
      forall i | 0 <= i < |lines|
        ensures lines[i] == LineInto(steps[i + 1])
      {
        assert lines[(i + 1) - 0 - 1] == LineInto(steps[i + 1]);
      }
    }
  }

  /** The horizontal markup alternates step and connector, starting and
      ending with a step. */
  lemma RowInterleaves(steps: seq<Step>)
    requires |steps| > 0
    ensures |Render(steps, None).nodes| == 2 * |steps| - 1
    ensures forall k :: 0 <= k < |steps| ==>
      Render(steps, None).nodes[2 * k] == StepNode(ItemOf(steps[k], k, Horizontal))
    ensures forall k :: 0 < k < |steps| ==>
      Render(steps, None).nodes[2 * k - 1] == Line(LineInto(steps[k]))
  {
    RowFromShape(steps, 0);
  }
}
