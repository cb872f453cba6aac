/** Day 15, second part (day15/src/bin/part2.rs): the initialization sequence files lenses into
    256 boxes by the HASH of their labels, and the answer is the focusing power of the boxes.
    The model takes the comma-separated steps of the input line as a sequence. */
module Day15Part2 {
  import opened Wrappers
  import opened Strings
  import opened Day15

  /** `label-` removes the labelled lens from its box; `label=f` puts a lens of focal length
      `f` into it. */
  datatype Step = Removal(name: string) | Insertion(name: string, focal: Byte)

  /** A step's text: a trailing `-` makes a removal; otherwise the text must split at its
      first `=` into a label and a `u8`. Anything else makes the source panic. */
  function ParseStep(op: string): (r: Option<Step>)
    ensures r.Some? ==> |r.value.name| < |op| && r.value.name == op[..|r.value.name|]
    ensures r.Some? && r.value.Removal? <==> EndsWith(op, "-")
  {
    if EndsWith(op, "-") then Some(Removal(op[..|op| - 1]))
    else
      match SplitOnceAt(op, '=')
      case None => None
      case Some((name, value)) =>
        match ParseNat(value)
        case None => None
        case Some(n) => if n < 256 then Some(Insertion(name, n)) else None
  }

  function StepText(step: Step): string {
    match step
    case Removal(name) => name + "-"
    case Insertion(name, focal) => name + "=" + NatText(focal)
  }

  /** Writing a step and reading it back gives the step, as long as an inserted label holds
      no `=` of its own. */
  lemma ParseStepText(step: Step)
    requires step.Insertion? ==> '=' !in step.name
    ensures ParseStep(StepText(step)) == Some(step)
  {
    match step
    case Removal(name) =>
      assert (name + "-")[..|name|] == name;
    case Insertion(name, focal) =>
      var digits := NatText(focal);
      var text := name + "=" + digits;
      assert text[|text| - 1] == digits[|digits| - 1];
      assert !EndsWith(text, "-") by {
        assert text[|text| - 1..] == [digits[|digits| - 1]];
      }
      SplitOnceChar(name, '=', digits);
      SplitOnceAtIsSplitOnce(text, '=');
      ParseNatText(focal);
  }

  /** The steps the source can run: each is ASCII text that parses. */
  predicate Runnable(ops: seq<string>) {
    forall i :: 0 <= i < |ops| ==> Ascii(ops[i]) && ParseStep(ops[i]).Some?
  }

  predicate AsciiNames(steps: seq<Step>) {
    forall i :: 0 <= i < |steps| ==> Ascii(steps[i].name)
  }

  function StepsOf(ops: seq<string>): (steps: seq<Step>)
    requires Runnable(ops)
    ensures |steps| == |ops| && AsciiNames(steps)
    ensures forall i :: 0 <= i < |ops| ==> ParseStep(ops[i]) == Some(steps[i])
  {
    seq(|ops|, i requires 0 <= i < |ops| && Runnable(ops) => ParseStep(ops[i]).value)
  }

  /** One step applied to the 256 boxes: only the box at the label's hash changes. */
  function Apply(boxes: seq<LensBox>, step: Step): (r: seq<LensBox>)
    requires |boxes| == 256 && Ascii(step.name)
    ensures |r| == 256
    ensures forall k :: 0 <= k < 256 && k != Hash(step.name) ==> r[k] == boxes[k]
  {
    var index := Hash(step.name);
    match step
    case Removal(name) => boxes[index := Remove(boxes[index], name)]
    case Insertion(name, focal) => boxes[index := Replace(boxes[index], name, focal)]
  }

  /** The boxes after the steps, starting from 256 empty ones. */
  function Arranged(steps: seq<Step>): (boxes: seq<LensBox>)
    requires AsciiNames(steps)
    ensures |boxes| == 256
  {
    if steps == [] then seq(256, _ => New())
    else Apply(Arranged(steps[..|steps| - 1]), steps[|steps| - 1])
  }

  /** The focal length the steps leave for a label: that of its latest insertion, unless a
      removal came after it. */
  function Latest(steps: seq<Step>, name: string): Option<Byte> {
    if steps == [] then None
    else
      var step := steps[|steps| - 1];
      if step.name != name then Latest(steps[..|steps| - 1], name)
      else if step.Removal? then None
      else Some(step.focal)
  }

  /** Every box holds each label once, and only labels that hash to its own index. */
  predicate Filed(boxes: seq<LensBox>) {
    |boxes| == 256 &&
    forall k :: 0 <= k < 256 ==>
      Unique(boxes[k]) &&
      forall j :: 0 <= j < |boxes[k].lenses| ==>
        Ascii(boxes[k].lenses[j].name) && Hash(boxes[k].lenses[j].name) == k
  }

  lemma {:induction false} ArrangedFiled(steps: seq<Step>)
    requires AsciiNames(steps)
    ensures Filed(Arranged(steps))
    decreases |steps|
  {
    if steps != [] {
      var init := steps[..|steps| - 1];
      ArrangedFiled(init);
      ApplyFiled(Arranged(init), steps[|steps| - 1]);
    }
  }

  /** One step keeps every lens in the box of its label's hash, and the labels of each box
      distinct. */
  lemma ApplyFiled(before: seq<LensBox>, step: Step)
    requires Filed(before) && Ascii(step.name)
    ensures Filed(Apply(before, step))
  {
    var after := Apply(before, step);
    var h := Hash(step.name);
    match step
    case Removal(name) =>
      RemoveLookup(before[h], name);
      forall j | 0 <= j < |after[h].lenses|
        ensures Ascii(after[h].lenses[j].name) && Hash(after[h].lenses[j].name) == h
      {
        FilteredFrom(before[h].lenses, name, j);
      }
    case Insertion(name, focal) =>
      ReplaceLookup(before[h], name, focal);
      forall j | 0 <= j < |after[h].lenses|
        ensures Ascii(after[h].lenses[j].name) && Hash(after[h].lenses[j].name) == h
      {
        if name in Labels(before[h].lenses) {
        } else if j < |before[h].lenses| {
          assert after[h].lenses[j] == before[h].lenses[j];
        }
      }
  }

  /** Each lens kept by `remove` was a lens of the box. */
  lemma {:induction false} FilteredFrom(lenses: seq<Lens>, name: string, j: nat)
    requires j < |Filter(lenses, name)|
    ensures exists i :: 0 <= i < |lenses| && lenses[i] == Filter(lenses, name)[j]
    decreases |lenses|
  {
    if lenses[0].name == name {
      FilteredFrom(lenses[1..], name, j);
      var i :| 0 <= i < |lenses[1..]| && lenses[1..][i] == Filter(lenses[1..], name)[j];
      assert lenses[i + 1] == lenses[1..][i];
    } else if j > 0 {
      FilteredFrom(lenses[1..], name, j - 1);
      var i :| 0 <= i < |lenses[1..]| && lenses[1..][i] == Filter(lenses[1..], name)[j - 1];
      assert lenses[i + 1] == lenses[1..][i];
    } else {
      assert lenses[0] == Filter(lenses, name)[0];
    }
  }

  /** The boxes behave as a map from labels to focal lengths: the box at a label's hash
      shows the focal length its latest step left, and every other box lacks the label. */
  lemma {:induction false} ArrangedLookup(steps: seq<Step>, name: string, k: nat)
    requires AsciiNames(steps) && Ascii(name) && k < 256
    ensures Lookup(Arranged(steps)[k].lenses, name) == if k == Hash(name) then Latest(steps, name) else None
    decreases |steps|
  {
    if steps == [] {
    } else {
      var init := steps[..|steps| - 1];
      var step := steps[|steps| - 1];
      ArrangedLookup(init, name, k);
      var before := Arranged(init);
      var h := Hash(step.name);
      if k == h {
        match step
        case Removal(n) =>
          RemoveLookup(before[h], n);
        case Insertion(n, focal) =>
          ReplaceLookup(before[h], n, focal);
      }
    }
  }

  /** One step applied to a single box. */
  function Update(b: LensBox, step: Step): LensBox {
    match step
    case Removal(name) => Remove(b, name)
    case Insertion(name, focal) => Replace(b, name, focal)
  }

  /** A single box after the steps, starting empty. */
  function BoxAfter(steps: seq<Step>): LensBox {
    if steps == [] then New() else Update(BoxAfter(steps[..|steps| - 1]), steps[|steps| - 1])
  }

  /** The steps whose label hashes to `k`, in their order. */
  function Routed(steps: seq<Step>, k: nat): seq<Step>
    requires AsciiNames(steps)
  {
    if steps == [] then []
    else
      var init := Routed(steps[..|steps| - 1], k);
      if Hash(steps[|steps| - 1].name) == k then init + [steps[|steps| - 1]] else init
  }

  /** Box `k` ends as the steps routed to it alone would leave it: the other steps never
      touch it. */
  lemma {:induction false} ArrangedBox(steps: seq<Step>, k: nat)
    requires AsciiNames(steps) && k < 256
    ensures Arranged(steps)[k] == BoxAfter(Routed(steps, k))
    decreases |steps|
  {
    if steps != [] {
      var init := steps[..|steps| - 1];
      var step := steps[|steps| - 1];
      ArrangedBox(init, k);
      if Hash(step.name) == k {
        var routed := Routed(init, k) + [step];
        assert routed[..|routed| - 1] == Routed(init, k);
      }
    }
  }

  /** The focusing power of the first `k` boxes: each box's power times its one-based
      number. */
  function PowerUpTo(boxes: seq<LensBox>, k: nat): nat
    requires k <= |boxes|
  {
    if k == 0 then 0 else PowerUpTo(boxes, k - 1) + Power(boxes[k - 1]) * k
  }

  function FocusingPower(boxes: seq<LensBox>): nat {
    PowerUpTo(boxes, |boxes|)
  }

  /** Empty boxes add nothing to the focusing power. */
  lemma {:induction false} PowerUpToEmpty(boxes: seq<LensBox>, a: nat, k: nat)
    requires a <= k <= |boxes|
    requires forall j :: a <= j < k ==> boxes[j].lenses == []
    ensures PowerUpTo(boxes, k) == PowerUpTo(boxes, a)
    decreases k
  {
    if k > a {
      PowerUpToEmpty(boxes, a, k - 1);
    }
  }

  /** One pass of the first loop of `main`: parse the step and overwrite the box at the
      label's hash with the box after it. */
  method RunStep(boxes: array<LensBox>, op: string)
    requires boxes.Length == 256 && Ascii(op) && ParseStep(op).Some?
    modifies boxes
    ensures boxes[..] == Apply(old(boxes[..]), ParseStep(op).value)
  {
    if EndsWith(op, "-") {
      var name := op[..|op| - 1];
      var index := Hash(name);
      boxes[index] := Remove(boxes[index], name);
    } else {
      var (name, value) := SplitOnceAt(op, '=').value;
      var index := Hash(name);
      boxes[index] := Replace(boxes[index], name, ParseNat(value).value);
    }
  }

  /** The second loop of `main`: the focusing power of all the boxes. */
  method TotalPower(boxes: array<LensBox>) returns (power: nat)
    ensures power == FocusingPower(boxes[..])
  {
    power := 0;
    for k := 0 to boxes.Length
      invariant power == PowerUpTo(boxes[..], k)
    {
      power := power + Power(boxes[k]) * (k + 1);
    }
  }

  /** `main`: run the steps on 256 boxes that start empty, then sum the focusing power. */
  method Focus(ops: seq<string>) returns (power: nat)
    requires Runnable(ops)
    ensures power == FocusingPower(Arranged(StepsOf(ops)))
  {
    var steps := StepsOf(ops);
    var boxes := new LensBox[256](_ => New());
    for t := 0 to |ops|
      invariant boxes[..] == Arranged(steps[..t])
    {
      assert steps[..t + 1][..t] == steps[..t];
      RunStep(boxes, ops[t]);
    }
    assert steps[..|ops|] == steps;
    power := TotalPower(boxes);
  }

  /** Routing splits with the steps: the steps of two runs reach each box in turn. */
  lemma {:induction false} RoutedAppend(a: seq<Step>, b: seq<Step>, k: nat)
    requires AsciiNames(a) && AsciiNames(b)
    ensures AsciiNames(a + b) && Routed(a + b, k) == Routed(a, k) + Routed(b, k)
    decreases |b|
  {
    if b == [] {
      assert a + b == a;
    } else {
      var init := b[..|b| - 1];
      assert (a + b)[..|a + b| - 1] == a + init;
      RoutedAppend(a, init, k);
    }
  }
}
