/** The inventory schema's flattening into spreadsheet rows: steps that share
    an id merged into one step, every field of every step listed with its
    step, section and block context, and the "options", "immutable" and
    "required" columns of a field's row. */
module NavigatorXlsx {
  import opened Values
  import opened Text
  import opened Seqs

  // ------------------------------------------------------------------ data

  /** A field's `constraints`: a mapping, or some other YAML value. */
  datatype Constraints = Mapping(entries: map<string, Value>) | NotMapping(other: Value)

  /** An `optionsSource` mapping: its `type`, and whether it holds other keys. */
  datatype Source = Source(sourceType: Option<string>, otherKeys: bool) {
    /** A Python dict is truthy when it is non-empty. */
    predicate Truthy() {
      sourceType.Some? || otherKeys
    }
  }

  /** The parts of a field the flattening computes columns from. */
  datatype Field = Field(
    key: Option<string>,
    options: Option<seq<Value>>,
    optionsSource: Aliased<Source>,
    constraints: Option<Constraints>)

  datatype Section = Section(id: Option<string>, title: Option<string>, fields: seq<Field>)

  datatype Block = Block(id: Option<string>, title: Option<string>, fields: seq<Field>)

  /** A step. Its repeating blocks may be spelled `repeatingBlocks` or `repeating_blocks`. */
  datatype Step = Step(
    id: Option<string>,
    title: Option<string>,
    fields: seq<Field>,
    sections: seq<Section>,
    repeatingBlocks: Aliased<seq<Block>>)

  // ------------------------------------------------------- merging by id

  /** A step takes part in the merge when its id is present and non-empty. */
  predicate HasId(s: Step) {
    s.id.Some? && s.id.value != ""
  }

  /** The ids of the steps that have one, in input order (repeats kept). */
  function StepIds(steps: seq<Step>): (ids: seq<string>)
    ensures forall k :: 0 <= k < |ids| ==> ids[k] != ""
    decreases |steps|
  {
    if steps == [] then []
    else
      var last := steps[|steps| - 1];
      StepIds(steps[..|steps| - 1]) + (if HasId(last) then [last.id.value] else [])
  }

  function FieldsOf(s: Step): seq<Field> {
    s.fields
  }

  function SectionsOf(s: Step): seq<Section> {
    s.sections
  }

  /** `step.get("repeatingBlocks", step.get("repeating_blocks", []))`. */
  function BlocksOf(s: Step): seq<Block> {
    s.repeatingBlocks.Get([])
  }

  /** The `part` lists of the steps with id `x`, concatenated in input order. */
  function Gather<X>(steps: seq<Step>, x: string, part: Step -> seq<X>): seq<X>
    decreases |steps|
  {
    if steps == [] then []
    else
      var last := steps[|steps| - 1];
      Gather(steps[..|steps| - 1], x, part) + (if HasId(last) && last.id.value == x then part(last) else [])
  }

  /** The first step with id `x`. */
  function FirstWithId(steps: seq<Step>, x: string): (s: Step)
    requires x in StepIds(steps)
    ensures s.id == Some(x)
    decreases |steps|
  {
    assert steps != [];
    var p := steps[..|steps| - 1];
    if x in StepIds(p) then FirstWithId(p, x) else steps[|steps| - 1]
  }

  /** The merged step for id `x`: the first step with that id, holding the
      fields, sections and blocks of all of them, the blocks under `repeatingBlocks`. */
  function Merged(steps: seq<Step>, x: string): Step
    requires x in StepIds(steps)
  {
    var first := FirstWithId(steps, x);
    first.(fields := Gather(steps, x, FieldsOf), sections := Gather(steps, x, SectionsOf),
           repeatingBlocks := Aliased(Some(Gather(steps, x, BlocksOf)), first.repeatingBlocks.snake))
  }

  /** What `_merge_steps_by_id` returns: one merged step per id, in the order
      the ids first appear. */
  function MergedSteps(steps: seq<Step>): seq<Step> {
    var order := Dedup(StepIds(steps));
    seq(|order|, k requires 0 <= k < |order| => Merged(steps, order[k]))
  }

  /** The copy the merge stores for a new id: the blocks under `repeatingBlocks`. */
  function Copied(s: Step): Step {
    s.(repeatingBlocks := Aliased(Some(BlocksOf(s)), s.repeatingBlocks.snake))
  }

  /** A merged step extended with a later step of the same id. */
  function Extended(m: Step, s: Step): Step {
    m.(fields := m.fields + s.fields, sections := m.sections + s.sections,
       repeatingBlocks := Aliased(Some(BlocksOf(m) + BlocksOf(s)), m.repeatingBlocks.snake))
  }

  /** The `by_id` mapping after reading step `s`. */
  function WithStep(byId: map<string, Step>, s: Step): map<string, Step> {
    if !HasId(s) then byId
    else if s.id.value in byId then byId[s.id.value := Extended(byId[s.id.value], s)]
    else byId[s.id.value := Copied(s)]
  }

  /** The loop state of `_merge_steps_by_id` after reading the steps `p`. */
  ghost predicate MergedSoFar(p: seq<Step>, byId: map<string, Step>, order: seq<string>) {
    && order == Dedup(StepIds(p))
    && (forall x :: x in byId <==> x in StepIds(p))
    && (forall x :: x in byId ==> byId[x] == Merged(p, x))
  }

  /** No step of `steps` has id `x`, so there is nothing to gather. */
  lemma {:induction false} GatherAbsent<X>(steps: seq<Step>, x: string, part: Step -> seq<X>)
    requires x !in StepIds(steps)
    ensures Gather(steps, x, part) == []
    decreases |steps|
  {
    if steps != [] {
      GatherAbsent(steps[..|steps| - 1], x, part);
    }
  }

  /** How one more step changes the ids, the gathered lists and the first step. */
  lemma SnocParts(p: seq<Step>, s: Step, x: string)
    ensures StepIds(p + [s]) == StepIds(p) + (if HasId(s) then [s.id.value] else [])
    ensures Gather(p + [s], x, FieldsOf) == Gather(p, x, FieldsOf) + (if HasId(s) && s.id.value == x then s.fields else [])
    ensures Gather(p + [s], x, SectionsOf) == Gather(p, x, SectionsOf) + (if HasId(s) && s.id.value == x then s.sections else [])
    ensures Gather(p + [s], x, BlocksOf) == Gather(p, x, BlocksOf) + (if HasId(s) && s.id.value == x then BlocksOf(s) else [])
    ensures x in StepIds(p) ==> FirstWithId(p + [s], x) == FirstWithId(p, x)
  {
    assert (p + [s])[..|p|] == p;
  }

  /** Reading one more step keeps the loop state. */
  lemma MergedSnoc(p: seq<Step>, s: Step, byId: map<string, Step>, order: seq<string>)
    requires MergedSoFar(p, byId, order)
    ensures MergedSoFar(p + [s], WithStep(byId, s), if HasId(s) && s.id.value !in byId then order + [s.id.value] else order)
  {
    var q := p + [s];
    var next := WithStep(byId, s);
    SnocParts(p, s, "");
    forall x
      ensures x in next <==> x in StepIds(q)
    {
    }
    if HasId(s) {
      DedupSnoc(StepIds(p), s.id.value);
    } else {
      AppendEmpty(StepIds(p));
    }
    forall x | x in next
      ensures next[x] == Merged(q, x)
    {
      MergedSnocAt(p, s, byId, x);
    }
  }

  /** Reading one more step, at one id. */
  lemma MergedSnocAt(p: seq<Step>, s: Step, byId: map<string, Step>, x: string)
    requires forall y :: y in byId <==> y in StepIds(p)
    requires forall y :: y in byId ==> byId[y] == Merged(p, y)
    requires x in WithStep(byId, s)
    ensures x in StepIds(p + [s]) && WithStep(byId, s)[x] == Merged(p + [s], x)
  {
    var q := p + [s];
    SnocParts(p, s, x);
    if HasId(s) && x == s.id.value {
      if x in byId {
        assert byId[x] == Merged(p, x);
      } else {
        GatherAbsent(p, x, FieldsOf);
        GatherAbsent(p, x, SectionsOf);
        GatherAbsent(p, x, BlocksOf);
        assert FirstWithId(q, x) == s;
        assert Gather(q, x, FieldsOf) == s.fields;
        assert Gather(q, x, SectionsOf) == s.sections;
        assert Gather(q, x, BlocksOf) == BlocksOf(s);
      }
    } else {
      assert x in byId;
      assert WithStep(byId, s)[x] == byId[x];
      assert byId[x] == Merged(p, x);
      assert FirstWithId(q, x) == FirstWithId(p, x);
      assert Gather(q, x, FieldsOf) == Gather(p, x, FieldsOf);
      assert Gather(q, x, SectionsOf) == Gather(p, x, SectionsOf);
      assert Gather(q, x, BlocksOf) == Gather(p, x, BlocksOf);
    }
  }

  /** The loop body of `_merge_steps_by_id`. */
  method AbsorbStep(byId: map<string, Step>, order: seq<string>, step: Step)
    returns (byId': map<string, Step>, order': seq<string>)
    ensures byId' == WithStep(byId, step)
    ensures order' == if HasId(step) && step.id.value !in byId then order + [step.id.value] else order
  {
    byId', order' := byId, order;
    var stepId := step.id.GetOr("");
    if stepId == "" {
      return;
    }
    var blocks := step.repeatingBlocks.Get([]);
    if stepId !in byId' {
      byId' := byId'[stepId := step.(repeatingBlocks := Aliased(Some(blocks), step.repeatingBlocks.snake))];
      order' := order' + [stepId];
    } else {
      var merged := byId'[stepId];
      byId' := byId'[stepId := merged.(
        fields := merged.fields + step.fields,
        sections := merged.sections + step.sections,
        repeatingBlocks := Aliased(Some(merged.repeatingBlocks.Get([]) + blocks), merged.repeatingBlocks.snake))];
    }
  }

  /** `_merge_steps_by_id`. The input is a sequence value, so no input step's
      lists change. */
  method MergeStepsById(steps: seq<Step>) returns (merged: seq<Step>)
    ensures merged == MergedSteps(steps)
  {
    var byId: map<string, Step> := map[];
    var order: seq<string> := [];
    var i := 0;
    while i < |steps|
      invariant 0 <= i <= |steps| && MergedSoFar(steps[..i], byId, order)
    {
      TakeStep(steps, i);
      MergedSnoc(steps[..i], steps[i], byId, order);
      byId, order := AbsorbStep(byId, order, steps[i]);
      i := i + 1;
    }
    assert steps[..i] == steps;
    MergedAtEnd(steps, byId, order);
    merged := seq(|order|, k requires 0 <= k < |order| => byId[order[k]]);
  }

  /** After the last step, listing `by_id` in `order` gives the merged steps. */
  lemma MergedAtEnd(steps: seq<Step>, byId: map<string, Step>, order: seq<string>)
    requires MergedSoFar(steps, byId, order)
    ensures forall k :: 0 <= k < |order| ==> order[k] in byId
    ensures seq(|order|, k requires 0 <= k < |order| => byId[order[k]]) == MergedSteps(steps)
  {
    assert forall k :: 0 <= k < |order| ==> order[k] in StepIds(steps);
  }

  // ------------------------------------------------------ merge properties

  /** An id is listed exactly when some step carries it. */
  lemma {:induction false} StepIdsMeaning(steps: seq<Step>, x: string)
    ensures x in StepIds(steps) <==> exists i :: 0 <= i < |steps| && HasId(steps[i]) && steps[i].id.value == x
    decreases |steps|
  {
    if steps != [] {
      var n := |steps| - 1;
      var p := steps[..n];
      StepIdsMeaning(p, x);
      assert StepIds(steps) == StepIds(p) + (if HasId(steps[n]) then [steps[n].id.value] else []);
      if exists i :: 0 <= i < n && HasId(p[i]) && p[i].id.value == x {
        var i :| 0 <= i < n && HasId(p[i]) && p[i].id.value == x;
        assert steps[i] == p[i];
      }
      if exists i :: 0 <= i < |steps| && HasId(steps[i]) && steps[i].id.value == x {
        var i :| 0 <= i < |steps| && HasId(steps[i]) && steps[i].id.value == x;
        if i < n {
          assert p[i] == steps[i];
        }
      }
    }
  }

  /** The merged steps carry distinct non-empty ids, exactly the ids of the
      input steps. */
  lemma MergedStepsIds(steps: seq<Step>)
    ensures var m := MergedSteps(steps);
            && (forall k :: 0 <= k < |m| ==> HasId(m[k]))
            && (forall j, k :: 0 <= j < k < |m| ==> m[j].id != m[k].id)
            && (forall x :: x in StepIds(steps) <==> exists k :: 0 <= k < |m| && m[k].id == Some(x))
  {
    var order := Dedup(StepIds(steps));
    var m := MergedSteps(steps);
    assert forall k :: 0 <= k < |m| ==> m[k].id == Some(order[k]);
    forall x | x in StepIds(steps)
      ensures exists k :: 0 <= k < |m| && m[k].id == Some(x)
    {
      var k := IndexOf(order, x);
      assert m[k].id == Some(x);
    }
  }

  /** The merged steps come in the order their ids first appear among the input steps. */
  lemma MergedStepsOrder(steps: seq<Step>)
    ensures var m := MergedSteps(steps);
            forall j, k :: 0 <= j < k < |m| ==>
              m[j].id.value in StepIds(steps) && m[k].id.value in StepIds(steps) &&
              IndexOf(StepIds(steps), m[j].id.value) < IndexOf(StepIds(steps), m[k].id.value)
  {
    var order := Dedup(StepIds(steps));
    var m := MergedSteps(steps);
    assert forall k :: 0 <= k < |m| ==> m[k].id == Some(order[k]);
    DedupFirstOccurrenceOrder(StepIds(steps));
  }

  /** One more step adds its `part` list at the end when it carries id `x`. */
  lemma GatherSnoc<X>(s: seq<Step>, y: Step, x: string, part: Step -> seq<X>)
    ensures Gather(s + [y], x, part) == Gather(s, x, part) + (if HasId(y) && y.id.value == x then part(y) else [])
  {
    assert (s + [y])[..|s|] == s;
    assert (s + [y])[|s|] == y;
  }

  /** Gathering over consecutive runs of steps concatenates in input order. */
  lemma {:induction false} GatherAppend<X>(a: seq<Step>, b: seq<Step>, x: string, part: Step -> seq<X>)
    ensures Gather(a + b, x, part) == Gather(a, x, part) + Gather(b, x, part)
    decreases |b|
  {
    if b == [] {
      assert a + b == a;
    } else {
      var n := |b| - 1;
      var init, y := b[..n], b[n];
      var t := if HasId(y) && y.id.value == x then part(y) else [];
      GatherAppend(a, init, x, part);
      assert b == init + [y] by {
        TakeStep(b, n);
        assert b[..n + 1] == b;
      }
      assert a + b == (a + init) + [y];
      GatherSnoc(a + init, y, x, part);
      GatherSnoc(init, y, x, part);
      AppendAssoc(Gather(a, x, part), Gather(init, x, part), t);
    }
  }

  lemma {:induction false} StepIdsAppend(a: seq<Step>, b: seq<Step>)
    ensures StepIds(a + b) == StepIds(a) + StepIds(b)
    decreases |b|
  {
    if b == [] {
      assert a + b == a;
    } else {
      var n := |b| - 1;
      StepIdsAppend(a, b[..n]);
      assert (a + b)[..|a + b| - 1] == a + b[..n];
    }
  }

  /** Later steps do not change which step comes first with an id. */
  lemma {:induction false} FirstWithIdAppend(a: seq<Step>, b: seq<Step>, x: string)
    requires x in StepIds(a)
    ensures x in StepIds(a + b) && FirstWithId(a + b, x) == FirstWithId(a, x)
    decreases |b|
  {
    StepIdsAppend(a, b);
    if b == [] {
      assert a + b == a;
    } else {
      var n := |b| - 1;
      FirstWithIdAppend(a, b[..n], x);
      assert a + b == (a + b[..n]) + [b[n]];
      SnocParts(a + b[..n], b[n], x);
    }
  }

  /** A step whose id no other step carries comes through the merge as it
      is, its blocks held under `repeatingBlocks`. */
  lemma UniqueStepKept(steps: seq<Step>, i: nat)
    requires i < |steps| && HasId(steps[i])
    requires forall j :: 0 <= j < |steps| && j != i ==> steps[j].id != steps[i].id
    ensures steps[i].id.value in StepIds(steps)
    ensures Merged(steps, steps[i].id.value) == Copied(steps[i])
  {
    var s := steps[i];
    var x := s.id.value;
    var a := steps[..i];
    var b := steps[i + 1..];
    assert steps == a + [s] + b;
    StepIdsMeaning(a, x);
    StepIdsMeaning(b, x);
    assert x !in StepIds(a) && x !in StepIds(b);
    MergedOfIsolated(a, s, b);
  }

  /** The merge of a step whose id occurs neither before nor after it. */
  lemma MergedOfIsolated(a: seq<Step>, s: Step, b: seq<Step>)
    requires HasId(s) && s.id.value !in StepIds(a) && s.id.value !in StepIds(b)
    ensures s.id.value in StepIds(a + [s] + b)
    ensures Merged(a + [s] + b, s.id.value) == Copied(s)
  {
    var x := s.id.value;
    var steps := a + [s] + b;
    SnocParts(a, s, x);
    FirstWithIdAppend(a + [s], b, x);
    assert FirstWithId(a + [s], x) == s;
    GatherIsolated(a, s, b, FieldsOf);
    GatherIsolated(a, s, b, SectionsOf);
    GatherIsolated(a, s, b, BlocksOf);
  }

  lemma GatherIsolated<X>(a: seq<Step>, s: Step, b: seq<Step>, part: Step -> seq<X>)
    requires HasId(s) && s.id.value !in StepIds(a) && s.id.value !in StepIds(b)
    ensures Gather(a + [s] + b, s.id.value, part) == part(s)
  {
    var x := s.id.value;
    GatherAppend(a + [s], b, x, part);
    GatherAppend(a, [s], x, part);
    GatherAbsent(a, x, part);
    GatherAbsent(b, x, part);
    assert [s][..0] == [];
    assert Gather([s], x, part) == part(s);
  }

  /** When every step has an id, the ids are listed one per step. */
  lemma {:induction false} StepIdsOfIdentified(ss: seq<Step>)
    requires forall k :: 0 <= k < |ss| ==> HasId(ss[k])
    ensures |StepIds(ss)| == |ss|
    ensures forall k :: 0 <= k < |ss| ==> ss[k].id == Some(StepIds(ss)[k])
    decreases |ss|
  {
    if ss != [] {
      var n := |ss| - 1;
      StepIdsOfIdentified(ss[..n]);
      assert StepIds(ss) == StepIds(ss[..n]) + [ss[n].id.value];
    }
  }

  /** Steps with distinct ids, their blocks under `repeatingBlocks`, come
      through the merge unchanged. */
  lemma MergeOfDistinct(m: seq<Step>)
    requires forall k :: 0 <= k < |m| ==> HasId(m[k]) && m[k].repeatingBlocks.camel.Some?
    requires forall j, k :: 0 <= j < |m| && 0 <= k < |m| && j != k ==> m[j].id != m[k].id
    ensures MergedSteps(m) == m
  {
    StepIdsOfIdentified(m);
    var ids := StepIds(m);
    assert NoDup(ids);
    DedupOfNoDup(ids);
    var mm := MergedSteps(m);
    forall k | 0 <= k < |m|
      ensures mm[k] == m[k]
    {
      UniqueStepKept(m, k);
      assert Copied(m[k]) == m[k];
    }
  }

  /** Merging already merged steps changes nothing. */
  lemma MergeIdempotent(steps: seq<Step>)
    ensures MergedSteps(MergedSteps(steps)) == MergedSteps(steps)
  {
    var m := MergedSteps(steps);
    MergedStepsIds(steps);
    MergeOfDistinct(m);
  }

  // ------------------------------------------------------------- columns

  /** `_bool_str`: "yes" only for a value that is `True` itself, "no" only for
      `False` itself; "" for anything else, and when the constraints are
      missing, empty or not a mapping. */
  function BoolStr(c: Option<Constraints>, key: string): (r: string)
    ensures r == "yes" <==> c.Some? && c.value.Mapping? && key in c.value.entries && c.value.entries[key] == VBool(true)
    ensures r == "no" <==> c.Some? && c.value.Mapping? && key in c.value.entries && c.value.entries[key] == VBool(false)
    ensures r == "" || r == "yes" || r == "no"
  {
    if c.None? || !c.value.Mapping? || c.value.entries == map[] then ""
    else
      match Lookup(c.value.entries, key)
      case VBool(b) => if b then "yes" else "no"
      case _ => ""
  }

  /** `is True` is not `== True`: a constraint equal to 1 reads as "". */
  lemma BoolStrIsIdentity(key: string)
    ensures PyEq(VInt(1), VBool(true))
    ensures BoolStr(Some(Mapping(map[key := VInt(1)])), key) == ""
  {
  }

  /** `field.get("optionsSource") or field.get("options_source")`: an empty
      `optionsSource` gives way to `options_source`. */
  function ChosenSource(f: Field): Option<Source> {
    var camel := f.optionsSource.camel;
    if camel.Some? && camel.value.Truthy() then camel else f.optionsSource.snake
  }

  /** `str(o)` of each option. */
  function OptionStrs(opts: seq<Value>): seq<string> {
    seq(|opts|, k requires 0 <= k < |opts| => PyStr(opts[k]))
  }

  /** The "options" column of `_field_row`: the options joined with " | ",
      else the source type in brackets, else "". */
  function OptionsString(f: Field): (r: string)
    ensures f.options.Some? && f.options.value != [] ==> StartsWith(r, PyStr(f.options.value[0]))
    ensures !(f.options.Some? && f.options.value != []) ==>
              var src := ChosenSource(f);
              if src.Some? && src.value.Truthy() then
                |r| >= 2 && r[0] == '[' && r[|r| - 1] == ']' && r[1..|r| - 1] == src.value.sourceType.GetOr("")
              else r == ""
  {
    if f.options.Some? && f.options.value != [] then
      JoinStartsWithFirst(OptionStrs(f.options.value), " | ");
      Join(OptionStrs(f.options.value), " | ")
    else
      var src := ChosenSource(f);
      if src.Some? && src.value.Truthy() then "[" + src.value.sourceType.GetOr("") + "]" else ""
  }

  /** The pieces of `xs` joined with " | " as they read when split at '|':
      each keeps the spaces next to the bars; `lead` adds one before the first. */
  function Padded(xs: seq<string>, lead: bool): (r: seq<string>)
    ensures |r| == |xs|
    decreases |xs|
  {
    if xs == [] then []
    else
      var l := if lead then " " else "";
      if |xs| == 1 then [l + xs[0]] else [l + xs[0] + " "] + Padded(xs[1..], true)
  }

  lemma {:induction false} PaddedAt(xs: seq<string>, lead: bool, k: nat)
    requires k < |xs|
    ensures Padded(xs, lead)[k] == (if k > 0 || lead then " " else "") + xs[k] + (if k < |xs| - 1 then " " else "")
    decreases |xs|
  {
    if k > 0 {
      PaddedAt(xs[1..], true, k - 1);
    }
  }

  /** Joining with " | " is joining the padded pieces with '|'. */
  lemma {:induction false} JoinPadded(xs: seq<string>, lead: bool)
    requires xs != []
    ensures (if lead then " " else "") + Join(xs, " | ") == Join(Padded(xs, lead), "|")
    decreases |xs|
  {
    var l := if lead then " " else "";
    if |xs| > 1 {
      JoinPadded(xs[1..], true);
      var rest := Join(xs[1..], " | ");
      var p := Padded(xs, lead);
      assert p == [l + xs[0] + " "] + Padded(xs[1..], true);
      assert p[1..] == Padded(xs[1..], true);
      assert Join(p, "|") == (l + xs[0] + " ") + "|" + Join(Padded(xs[1..], true), "|");
      assert Join(xs, " | ") == xs[0] + " | " + rest;
      assert l + (xs[0] + " | " + rest) == (l + xs[0] + " ") + "|" + (" " + rest);
    }
  }

  /** Splitting the options column at '|' gives back one piece per option,
      `str(o)` with the spaces around the bars, when no option shows a '|'. */
  lemma OptionsStringSplits(f: Field)
    requires f.options.Some? && f.options.value != []
    requires forall k :: 0 <= k < |f.options.value| ==> '|' !in PyStr(f.options.value[k])
    ensures var xs := OptionStrs(f.options.value);
            var pieces := Split(OptionsString(f), '|');
            && |pieces| == |f.options.value|
            && forall k :: 0 <= k < |pieces| ==>
                 pieces[k] == (if k > 0 then " " else "") + xs[k] + (if k < |xs| - 1 then " " else "")
  {
    var xs := OptionStrs(f.options.value);
    var p := Padded(xs, false);
    JoinPadded(xs, false);
    assert "" + Join(xs, " | ") == Join(xs, " | ");
    assert OptionsString(f) == Join(p, "|");
    forall k | 0 <= k < |p|
      ensures '|' !in p[k] && p[k] == (if k > 0 then " " else "") + xs[k] + (if k < |xs| - 1 then " " else "")
    {
      PaddedAt(xs, false, k);
    }
    JoinThenSplit(p, '|');
  }

  // ------------------------------------------------------------ flattening

  /** The step, section and block columns of a row. */
  datatype Context = Context(
    stepId: string, stepTitle: string,
    sectionId: string, sectionTitle: string,
    blockId: string, blockTitle: string)

  /** The columns of a row that come from the field itself. */
  datatype Columns = Columns(key: string, options: string, immutable: string, required: string)

  datatype Row = Row(context: Context, columns: Columns)

  /** `_field_row`'s columns for one field. */
  function ColumnsOf(f: Field): Columns {
    Columns(f.key.GetOr(""), OptionsString(f), BoolStr(f.constraints, "immutable"), BoolStr(f.constraints, "required"))
  }

  /** One row per field, in order, all in context `ctx`. */
  function RowsFor(ctx: Context, fs: seq<Field>): (rows: seq<Row>)
    ensures |rows| == |fs|
    ensures forall k :: 0 <= k < |fs| ==> rows[k] == Row(ctx, ColumnsOf(fs[k]))
  {
    seq(|fs|, k requires 0 <= k < |fs| => Row(ctx, ColumnsOf(fs[k])))
  }

  function SectionContext(ctx: Context, sec: Section): Context {
    ctx.(sectionId := sec.id.GetOr(""), sectionTitle := sec.title.GetOr(""))
  }

  function BlockContext(ctx: Context, b: Block): Context {
    ctx.(blockId := b.id.GetOr(""), blockTitle := b.title.GetOr(""))
  }

  /** The rows of the sections' fields, each in its section's context. */
  function SectionRows(ctx: Context, secs: seq<Section>): seq<Row>
    decreases |secs|
  {
    if secs == [] then []
    else
      var last := secs[|secs| - 1];
      SectionRows(ctx, secs[..|secs| - 1]) + RowsFor(SectionContext(ctx, last), last.fields)
  }

  /** The rows of the blocks' fields, each in its block's context. */
  function BlockRows(ctx: Context, blocks: seq<Block>): seq<Row>
    decreases |blocks|
  {
    if blocks == [] then []
    else
      var last := blocks[|blocks| - 1];
      BlockRows(ctx, blocks[..|blocks| - 1]) + RowsFor(BlockContext(ctx, last), last.fields)
  }

  /** The fields of all the sections, in order. */
  function SectionFields(secs: seq<Section>): seq<Field>
    decreases |secs|
  {
    if secs == [] then [] else SectionFields(secs[..|secs| - 1]) + secs[|secs| - 1].fields
  }

  /** The fields of all the blocks, in order. */
  function BlockFields(blocks: seq<Block>): seq<Field>
    decreases |blocks|
  {
    if blocks == [] then [] else BlockFields(blocks[..|blocks| - 1]) + blocks[|blocks| - 1].fields
  }

  /** The step columns of its rows; no section and no block. */
  function StepContext(st: Step): Context {
    Context(st.id.GetOr(""), st.title.GetOr(""), "", "", "", "")
  }

  /** The flattening reads the camelCase `repeatingBlocks` key only. */
  function IterBlocks(st: Step): seq<Block> {
    st.repeatingBlocks.camel.GetOr([])
  }

  /** A step's rows: its direct fields, then its sections' fields, then its
      repeating blocks' fields. */
  function StepRows(st: Step): seq<Row> {
    var ctx := StepContext(st);
    RowsFor(ctx, st.fields) + SectionRows(ctx, st.sections) + BlockRows(ctx, IterBlocks(st))
  }

  /** Every field a step's rows are made from, in row order. */
  function StepFields(st: Step): seq<Field> {
    st.fields + SectionFields(st.sections) + BlockFields(IterBlocks(st))
  }

  /** The rows of all the steps, in order. */
  function AllRows(steps: seq<Step>): seq<Row>
    decreases |steps|
  {
    if steps == [] then [] else AllRows(steps[..|steps| - 1]) + StepRows(steps[|steps| - 1])
  }

  /** Every field of every step, in row order. */
  function AllFields(steps: seq<Step>): seq<Field>
    decreases |steps|
  {
    if steps == [] then [] else AllFields(steps[..|steps| - 1]) + StepFields(steps[|steps| - 1])
  }

  /** The sections' rows: one per section field, in order, in a context that
      differs from `ctx` in the section columns only. */
  lemma {:induction false} SectionRowsShape(ctx: Context, secs: seq<Section>)
    ensures |SectionRows(ctx, secs)| == |SectionFields(secs)|
    ensures forall k :: 0 <= k < |SectionFields(secs)| ==>
              && SectionRows(ctx, secs)[k].columns == ColumnsOf(SectionFields(secs)[k])
              && SectionRows(ctx, secs)[k].context.(sectionId := ctx.sectionId, sectionTitle := ctx.sectionTitle) == ctx
    decreases |secs|
  {
    if secs != [] {
      var init := secs[..|secs| - 1];
      var last := secs[|secs| - 1];
      SectionRowsShape(ctx, init);
      var a := SectionRows(ctx, init);
      var b := RowsFor(SectionContext(ctx, last), last.fields);
      assert SectionRows(ctx, secs) == a + b;
      assert SectionFields(secs) == SectionFields(init) + last.fields;
    }
  }

  /** The blocks' rows: one per block field, in order, in a context that
      differs from `ctx` in the block columns only. */
  lemma {:induction false} BlockRowsShape(ctx: Context, blocks: seq<Block>)
    ensures |BlockRows(ctx, blocks)| == |BlockFields(blocks)|
    ensures forall k :: 0 <= k < |BlockFields(blocks)| ==>
              && BlockRows(ctx, blocks)[k].columns == ColumnsOf(BlockFields(blocks)[k])
              && BlockRows(ctx, blocks)[k].context.(blockId := ctx.blockId, blockTitle := ctx.blockTitle) == ctx
    decreases |blocks|
  {
    if blocks != [] {
      var init := blocks[..|blocks| - 1];
      var last := blocks[|blocks| - 1];
      BlockRowsShape(ctx, init);
      var a := BlockRows(ctx, init);
      var b := RowsFor(BlockContext(ctx, last), last.fields);
      assert BlockRows(ctx, blocks) == a + b;
      assert BlockFields(blocks) == BlockFields(init) + last.fields;
    }
  }

  /** Rows laid out part after part keep their fields' columns. */
  lemma ColumnsOfParts(a: seq<Row>, b: seq<Row>, x: seq<Field>, y: seq<Field>)
    requires |a| == |x| && |b| == |y|
    requires forall k :: 0 <= k < |a| ==> a[k].columns == ColumnsOf(x[k])
    requires forall k :: 0 <= k < |b| ==> b[k].columns == ColumnsOf(y[k])
    ensures forall k :: 0 <= k < |a + b| ==> (a + b)[k].columns == ColumnsOf((x + y)[k])
  {
    forall k | 0 <= k < |a + b|
      ensures (a + b)[k].columns == ColumnsOf((x + y)[k])
    {
      if k >= |a| {
        assert (a + b)[k] == b[k - |a|] && (x + y)[k] == y[k - |x|];
      }
    }
  }

  /** A step's rows: one per field, in order, all carrying the step's id and
      title; direct fields have no section and no block, section fields no
      block, and block fields no section. */
  lemma StepRowsLayout(st: Step)
    ensures |StepRows(st)| == |StepFields(st)|
    ensures forall k :: 0 <= k < |StepRows(st)| ==>
              && StepRows(st)[k].columns == ColumnsOf(StepFields(st)[k])
              && StepRows(st)[k].context.stepId == st.id.GetOr("")
              && StepRows(st)[k].context.stepTitle == st.title.GetOr("")
    ensures forall k :: 0 <= k < |st.fields| ==> StepRows(st)[k].context == StepContext(st)
    ensures forall k :: |st.fields| <= k < |st.fields| + |SectionFields(st.sections)| ==>
              StepRows(st)[k].context.blockId == "" && StepRows(st)[k].context.blockTitle == ""
    ensures forall k :: |st.fields| + |SectionFields(st.sections)| <= k < |StepRows(st)| ==>
              StepRows(st)[k].context.sectionId == "" && StepRows(st)[k].context.sectionTitle == ""
  {
    var ctx := StepContext(st);
    var a := RowsFor(ctx, st.fields);
    var b := SectionRows(ctx, st.sections);
    var c := BlockRows(ctx, IterBlocks(st));
    var y := SectionFields(st.sections);
    var z := BlockFields(IterBlocks(st));
    SectionRowsShape(ctx, st.sections);
    BlockRowsShape(ctx, IterBlocks(st));
    ColumnsOfParts(a, b, st.fields, y);
    ColumnsOfParts(a + b, c, st.fields + y, z);
    ContextOfParts(ctx, a, b, c);
    assert StepRows(st) == a + b + c;
    assert StepFields(st) == st.fields + y + z;
  }

  /** Direct rows in `ctx`, then rows differing from it in the section
      columns, then rows differing from it in the block columns. */
  lemma ContextOfParts(ctx: Context, a: seq<Row>, b: seq<Row>, c: seq<Row>)
    requires ctx.sectionId == ctx.sectionTitle == ctx.blockId == ctx.blockTitle == ""
    requires forall k :: 0 <= k < |a| ==> a[k].context == ctx
    requires forall k :: 0 <= k < |b| ==> b[k].context.(sectionId := ctx.sectionId, sectionTitle := ctx.sectionTitle) == ctx
    requires forall k :: 0 <= k < |c| ==> c[k].context.(blockId := ctx.blockId, blockTitle := ctx.blockTitle) == ctx
    ensures var r := a + b + c;
            forall k :: 0 <= k < |r| ==>
              && r[k].context.stepId == ctx.stepId && r[k].context.stepTitle == ctx.stepTitle
              && (k < |a| ==> r[k].context == ctx)
              && (|a| <= k < |a| + |b| ==> r[k].context.blockId == "" && r[k].context.blockTitle == "")
              && (|a| + |b| <= k ==> r[k].context.sectionId == "" && r[k].context.sectionTitle == "")
  {
    var r := a + b + c;
    forall k | 0 <= k < |r|
      ensures r[k].context.stepId == ctx.stepId && r[k].context.stepTitle == ctx.stepTitle
      ensures k < |a| ==> r[k].context == ctx
      ensures |a| <= k < |a| + |b| ==> r[k].context.blockId == "" && r[k].context.blockTitle == ""
      ensures |a| + |b| <= k ==> r[k].context.sectionId == "" && r[k].context.sectionTitle == ""
    {
      if k < |a| {
        assert r[k] == a[k];
      } else if k < |a| + |b| {
        assert r[k] == b[k - |a|];
      } else {
        assert r[k] == c[k - |a| - |b|];
      }
    }
  }

  /** All the rows: one per field of every step, in order. */
  lemma {:induction false} AllRowsFields(steps: seq<Step>)
    ensures |AllRows(steps)| == |AllFields(steps)|
    ensures forall k :: 0 <= k < |AllRows(steps)| ==> AllRows(steps)[k].columns == ColumnsOf(AllFields(steps)[k])
    decreases |steps|
  {
    if steps != [] {
      var init := steps[..|steps| - 1];
      var last := steps[|steps| - 1];
      AllRowsFields(init);
      StepRowsLayout(last);
      var a := AllRows(init);
      var b := StepRows(last);
      assert AllRows(steps) == a + b;
      assert AllFields(steps) == AllFields(init) + StepFields(last);
    }
  }

  /** Appends the rows of `fs` in context `ctx`. */
  method AppendFieldRows(rows: seq<Row>, ctx: Context, fs: seq<Field>) returns (out: seq<Row>)
    ensures out == rows + RowsFor(ctx, fs)
  {
    out := rows;
    var i := 0;
    while i < |fs|
      invariant 0 <= i <= |fs|
      invariant out == rows + RowsFor(ctx, fs[..i])
    {
      assert RowsFor(ctx, fs[..i + 1]) == RowsFor(ctx, fs[..i]) + [Row(ctx, ColumnsOf(fs[i]))];
      out := out + [Row(ctx, ColumnsOf(fs[i]))];
      i := i + 1;
    }
    assert fs[..i] == fs;
  }

  /** The section loop of `_iter_fields`: each section's id and title
      replace the section columns of the context. */
  method AppendSectionRows(rows: seq<Row>, top: Context, secs: seq<Section>) returns (out: seq<Row>)
    ensures out == rows + SectionRows(top, secs)
  {
    var ctx := top;
    out := rows;
    var i := 0;
    while i < |secs|
      invariant 0 <= i <= |secs|
      invariant ctx == top || ctx.(sectionId := top.sectionId, sectionTitle := top.sectionTitle) == top
      invariant out == rows + SectionRows(top, secs[..i])
    {
      var sec := secs[i];
      ctx := ctx.(sectionId := sec.id.GetOr(""), sectionTitle := sec.title.GetOr(""));
      assert ctx == SectionContext(top, sec);
      TakeOfTake(secs, i);
      AppendAssoc(rows, SectionRows(top, secs[..i]), RowsFor(ctx, sec.fields));
      out := AppendFieldRows(out, ctx, sec.fields);
      i := i + 1;
    }
    assert secs[..i] == secs;
  }

  /** The repeating-block loop of `_iter_fields`: each block's id and title
      replace the block columns of the context. */
  method AppendBlockRows(rows: seq<Row>, top: Context, blocks: seq<Block>) returns (out: seq<Row>)
    ensures out == rows + BlockRows(top, blocks)
  {
    var ctx := top;
    out := rows;
    var j := 0;
    while j < |blocks|
      invariant 0 <= j <= |blocks|
      invariant ctx == top || ctx.(blockId := top.blockId, blockTitle := top.blockTitle) == top
      invariant out == rows + BlockRows(top, blocks[..j])
    {
      var block := blocks[j];
      ctx := ctx.(blockId := block.id.GetOr(""), blockTitle := block.title.GetOr(""));
      assert ctx == BlockContext(top, block);
      TakeOfTake(blocks, j);
      AppendAssoc(rows, BlockRows(top, blocks[..j]), RowsFor(ctx, block.fields));
      out := AppendFieldRows(out, ctx, block.fields);
      j := j + 1;
    }
    assert blocks[..j] == blocks;
  }

  /** `_iter_fields` on one step: direct fields with no section or block,
      then the sections, then the blocks with the section columns reset. */
  method AppendStepRows(rows: seq<Row>, step: Step) returns (out: seq<Row>)
    ensures out == rows + StepRows(step)
  {
    var ctx := StepContext(step);
    out := AppendFieldRows(rows, ctx, step.fields);
    out := AppendSectionRows(out, ctx, step.sections);
    out := AppendBlockRows(out, ctx, IterBlocks(step));
    AppendAssoc(rows, RowsFor(ctx, step.fields), SectionRows(ctx, step.sections));
    AppendAssoc(rows, RowsFor(ctx, step.fields) + SectionRows(ctx, step.sections), BlockRows(ctx, IterBlocks(step)));
  }

  /** `_iter_fields`: every field of every step as a row, in order. */
  method IterFields(steps: seq<Step>) returns (rows: seq<Row>)
    ensures rows == AllRows(steps)
  {
    rows := [];
    var i := 0;
    while i < |steps|
      invariant 0 <= i <= |steps|
      invariant rows == AllRows(steps[..i])
    {
      TakeOfTake(steps, i);
      rows := AppendStepRows(rows, steps[i]);
      i := i + 1;
    }
    assert steps[..i] == steps;
  }

  /** The "Fields" sheet of `_to_excel`: the steps merged by id, then flattened. */
  method FieldsSheet(steps: seq<Step>) returns (rows: seq<Row>)
    ensures rows == AllRows(MergedSteps(steps))
  {
    var merged := MergeStepsById(steps);
    rows := IterFields(merged);
  }
}
