/** The inventory form's rules engine: conditions, `any`/`all` clauses,
    computed flags, computed step states, display-rule step hiding and the
    step visible/optional decisions. */
module InventoryRules {
  import opened Values
  import opened InventorySchema
  import opened Seqs

  // ------------------------------------------------------------ conditions

  /** `_eval_condition` on a present value: the first operator the condition
      carries decides; `includes` is list membership for a list value and
      equality otherwise; no operator means false. */
  predicate Operators(c: Condition, v: Value) {
    if c.equals.Some? then PyEq(v, c.equals.value)
    else if c.notEquals.Present() then !PyEq(v, c.notEquals.Get(VNone))
    else if c.includes.Some? then
      (if v.VList? then In(c.includes.value, v.items) else PyEq(v, c.includes.value))
    else false
  }

  /** A repeating-block row value satisfies the condition when ANY operator it
      carries is met (the row scan tries each operator in turn). */
  predicate RowSatisfies(c: Condition, v: Value) {
    (c.equals.Some? && PyEq(v, c.equals.value))
    || (c.notEquals.Present() && !PyEq(v, c.notEquals.Get(VNone)))
    || (c.includes.Some? && ((v.VList? && In(c.includes.value, v.items)) || PyEq(v, c.includes.value)))
  }

  /** Some row of some repeating block has a non-None value for `key` that satisfies `c`. */
  predicate SomeRowSatisfies(c: Condition, key: string, blocks: BlockRows) {
    exists id | id in blocks ::
      exists k | 0 <= k < |blocks[id]| ::
        Lookup(blocks[id][k], key) != VNone && RowSatisfies(c, Lookup(blocks[id][k], key))
  }

  /** `_eval_condition(cond, data, repeat_blocks, flags)`; a missing flags map is the empty one. */
  predicate EvalCondition(c: Condition, data: Record, blocks: BlockRows, flags: Record) {
    if c.flag.Some? then
      c.equals.Some? && PyEq(Lookup(flags, c.flag.value), c.equals.value)
    else
      var key := c.field.GetOr("");
      var v := Lookup(data, key);
      if v == VNone && |blocks| > 0 then SomeRowSatisfies(c, key, blocks)
      else Operators(c, v)
  }

  /** A flag condition holds exactly when it has `equals` and the flag's value equals it. */
  lemma FlagCondition(c: Condition, data: Record, blocks: BlockRows, flags: Record)
    requires c.flag.Some?
    ensures EvalCondition(c, data, blocks, flags) <==>
              c.equals.Some? && PyEq(Lookup(flags, c.flag.value), c.equals.value)
    ensures c.equals.None? ==> !EvalCondition(c, data, blocks, flags)
    ensures c.flag.value !in flags && c.equals.Some? ==>
              (EvalCondition(c, data, blocks, flags) <==> c.equals.value == VNone)
  {
  }

  /** A condition that carries no operator is false, in every path. */
  lemma NoOperatorIsFalse(c: Condition, data: Record, blocks: BlockRows, flags: Record)
    requires c.equals.None? && !c.notEquals.Present() && c.includes.None?
    ensures !EvalCondition(c, data, blocks, flags)
  {
  }

  /** `equals` takes priority over the other operators for a present value. */
  lemma EqualsTakesPriority(c: Condition, data: Record, flags: Record, blocks: BlockRows)
    requires c.flag.None? && c.equals.Some?
    requires Lookup(data, c.field.GetOr("")) != VNone
    ensures EvalCondition(c, data, blocks, flags) ==
            EvalCondition(c.(notEquals := Aliased(None, None), includes := None), data, blocks, flags)
    ensures EvalCondition(c, data, blocks, flags) <==> PyEq(Lookup(data, c.field.GetOr("")), c.equals.value)
  {
  }

  /** For a present value `notEquals: x` is the negation of `equals: x`. */
  lemma NotEqualsNegatesEquals(key: string, x: Value, data: Record, blocks: BlockRows, flags: Record)
    requires Lookup(data, key) != VNone
    ensures EvalCondition(Condition(None, Some(key), None, Aliased(Some(x), None), None), data, blocks, flags)
        <==> !EvalCondition(Condition(None, Some(key), Some(x), Aliased(None, None), None), data, blocks, flags)
  {
  }

  /** `includes` on a scalar value is equality; on a list value it is membership. */
  lemma IncludesMeaning(key: string, x: Value, data: Record, blocks: BlockRows, flags: Record)
    requires Lookup(data, key) != VNone
    ensures var v := Lookup(data, key);
            EvalCondition(Condition(None, Some(key), None, Aliased(None, None), Some(x)), data, blocks, flags)
            <==> (if v.VList? then exists k :: 0 <= k < |v.items| && PyEq(v.items[k], x) else PyEq(v, x))
  {
  }

  /** A field missing at top level falls back to the repeating-block rows:
      the condition holds iff some row with a value for the field meets one of its operators. */
  lemma MissingFieldSearchesRows(c: Condition, data: Record, blocks: BlockRows, flags: Record)
    requires c.flag.None? && Lookup(data, c.field.GetOr("")) == VNone && |blocks| > 0
    ensures EvalCondition(c, data, blocks, flags) <==>
            exists id, k :: id in blocks && 0 <= k < |blocks[id]| &&
              Lookup(blocks[id][k], c.field.GetOr("")) != VNone &&
              RowSatisfies(c, Lookup(blocks[id][k], c.field.GetOr("")))
  {
  }

  /** When no row has a value for the field either, the condition is false,
      even `notEquals`, which without repeating blocks would hold. */
  lemma MissingEverywhereIsFalse(key: string, x: Value, data: Record, blocks: BlockRows, flags: Record)
    requires key !in data && |blocks| > 0 && x != VNone
    requires forall id, k :: id in blocks && 0 <= k < |blocks[id]| ==> key !in blocks[id][k]
    ensures !EvalCondition(Condition(None, Some(key), None, Aliased(Some(x), None), None), data, blocks, flags)
    ensures EvalCondition(Condition(None, Some(key), None, Aliased(Some(x), None), None), data, map[], flags)
  {
  }

  // --------------------------------------------------------------- clauses

  predicate AnyHolds(cs: seq<Condition>, data: Record, blocks: BlockRows, flags: Record) {
    exists k | 0 <= k < |cs| :: EvalCondition(cs[k], data, blocks, flags)
  }

  predicate AllHold(cs: seq<Condition>, data: Record, blocks: BlockRows, flags: Record) {
    forall k | 0 <= k < |cs| :: EvalCondition(cs[k], data, blocks, flags)
  }

  /** `_eval_when`: an empty clause, or one with neither `any` nor `all`, is false; `any` wins over `all`. */
  predicate EvalWhen(w: Clause, data: Record, blocks: BlockRows, flags: Record) {
    if !w.Truthy() then false
    else if w.anyOf.Some? then AnyHolds(w.anyOf.value, data, blocks, flags)
    else if w.allOf.Some? then AllHold(w.allOf.value, data, blocks, flags)
    else false
  }

  lemma EvalWhenDefaults(w: Clause, data: Record, blocks: BlockRows, flags: Record)
    ensures w.anyOf.None? && w.allOf.None? ==> !EvalWhen(w, data, blocks, flags)
    ensures w.anyOf.Some? ==> EvalWhen(w, data, blocks, flags) == EvalWhen(w.(allOf := None), data, blocks, flags)
    ensures w.anyOf == Some([]) ==> !EvalWhen(w, data, blocks, flags)
    ensures w.anyOf.None? && w.allOf == Some([]) ==> EvalWhen(w, data, blocks, flags)
  {
  }

  /** `_is_visible`: a field without `visibleWhen`, or whose clause has neither
      combinator, is shown; conditions see no repeating blocks and no flags. */
  predicate IsVisible(f: Field, data: Record) {
    var vis := f.visibleWhen.Find();
    if !Given(vis) then true
    else if vis.value.anyOf.Some? then AnyHolds(vis.value.anyOf.value, data, map[], map[])
    else if vis.value.allOf.Some? then AllHold(vis.value.allOf.value, data, map[], map[])
    else true
  }

  /** `_is_visible` agrees with `_eval_when` on a clause with a combinator and
      differs from it exactly on the default: shown where `_eval_when` says false. */
  lemma IsVisibleVersusEvalWhen(f: Field, data: Record)
    ensures var vis := f.visibleWhen.Find();
            Given(vis) && (vis.value.anyOf.Some? || vis.value.allOf.Some?) ==>
              IsVisible(f, data) == EvalWhen(vis.value, data, map[], map[])
    ensures var vis := f.visibleWhen.Find();
            !(Given(vis) && (vis.value.anyOf.Some? || vis.value.allOf.Some?)) ==>
              IsVisible(f, data) && (vis.Some? ==> !EvalWhen(vis.value, data, map[], map[]))
  {
  }

  // ----------------------------------------------------------------- flags

  /** A rule writes its flags when it has a non-empty `setFlags` and a
      non-empty `when` that holds; flag rules are evaluated without flags. */
  predicate SetsFlags(r: Rule, data: Record, blocks: BlockRows) {
    |r.setFlags| > 0 && Given(r.when) && EvalWhen(r.when.value, data, blocks, map[])
  }

  /** The flags after the given rules, applied in order over the defaults. */
  function FlagsAfter(defaults: map<string, Value>, rules: seq<Rule>, data: Record, blocks: BlockRows): map<string, Value>
    decreases |rules|
  {
    if rules == [] then defaults
    else
      var before := FlagsAfter(defaults, rules[..|rules| - 1], data, blocks);
      var r := rules[|rules| - 1];
      if SetsFlags(r, data, blocks) then before + r.setFlags else before
  }

  /** `_compute_flags`. */
  method ComputeFlags(schema: Schema, data: Record, blocks: BlockRows) returns (flags: map<string, Value>)
    ensures flags == FlagsAfter(schema.flagDefaults, schema.rules, data, blocks)
  {
    flags := schema.flagDefaults;
    var i := 0;
    while i < |schema.rules|
      invariant 0 <= i <= |schema.rules|
      invariant flags == FlagsAfter(schema.flagDefaults, schema.rules[..i], data, blocks)
    {
      FlagsAfterStep(schema.flagDefaults, schema.rules, i, data, blocks);
      flags := ApplyFlagRule(flags, schema.rules[i], data, blocks);
      i := i + 1;
    }
    assert schema.rules[..i] == schema.rules;
  }

  /** One iteration of `_compute_flags`: a firing rule overwrites the flags it sets. */
  method ApplyFlagRule(flags: map<string, Value>, rule: Rule, data: Record, blocks: BlockRows) returns (flags': map<string, Value>)
    ensures flags' == if SetsFlags(rule, data, blocks) then flags + rule.setFlags else flags
  {
    flags' := flags;
    if 0 < |rule.setFlags| && rule.when.Some? && rule.when.value.Truthy() && EvalWhen(rule.when.value, data, blocks, map[]) {
      flags' := flags + rule.setFlags;
    }
  }

  lemma FlagsAfterStep(defaults: map<string, Value>, rules: seq<Rule>, i: nat, data: Record, blocks: BlockRows)
    requires i < |rules|
    ensures FlagsAfter(defaults, rules[..i + 1], data, blocks)
         == if SetsFlags(rules[i], data, blocks) then FlagsAfter(defaults, rules[..i], data, blocks) + rules[i].setFlags
            else FlagsAfter(defaults, rules[..i], data, blocks)
  {
    TakeOfTake(rules, i);
    assert rules[..i + 1][i] == rules[i];
  }

  /** Last write wins: the value of a flag is the one written by the last rule that writes it. */
  lemma {:induction false} FlagLastWriteWins(defaults: map<string, Value>, rules: seq<Rule>, data: Record, blocks: BlockRows, key: string, i: nat)
    requires i < |rules| && SetsFlags(rules[i], data, blocks) && key in rules[i].setFlags
    requires forall j :: i < j < |rules| && SetsFlags(rules[j], data, blocks) ==> key !in rules[j].setFlags
    ensures var flags := FlagsAfter(defaults, rules, data, blocks);
            key in flags && flags[key] == rules[i].setFlags[key]
    decreases |rules|
  {
    var p := rules[..|rules| - 1];
    if i < |rules| - 1 {
      forall j | i < j < |p| && SetsFlags(p[j], data, blocks) ensures key !in p[j].setFlags {
        assert p[j] == rules[j];
      }
      FlagLastWriteWins(defaults, p, data, blocks, key, i);
    }
  }

  /** A flag no matching rule writes keeps its default (or stays absent). */
  lemma {:induction false} FlagDefaultKept(defaults: map<string, Value>, rules: seq<Rule>, data: Record, blocks: BlockRows, key: string)
    requires forall j :: 0 <= j < |rules| && SetsFlags(rules[j], data, blocks) ==> key !in rules[j].setFlags
    ensures var flags := FlagsAfter(defaults, rules, data, blocks);
            (key in flags <==> key in defaults) && (key in defaults ==> flags[key] == defaults[key])
    decreases |rules|
  {
    if rules != [] {
      var p := rules[..|rules| - 1];
      forall j | 0 <= j < |p| && SetsFlags(p[j], data, blocks) ensures key !in p[j].setFlags {
        assert p[j] == rules[j];
      }
      FlagDefaultKept(defaults, p, data, blocks, key);
    }
  }

  /** Only the defaults and keys written by matching rules are flags. */
  lemma {:induction false} FlagKeys(defaults: map<string, Value>, rules: seq<Rule>, data: Record, blocks: BlockRows, key: string)
    requires key in FlagsAfter(defaults, rules, data, blocks)
    ensures key in defaults || exists j :: 0 <= j < |rules| && SetsFlags(rules[j], data, blocks) && key in rules[j].setFlags
    decreases |rules|
  {
    if rules != [] {
      var p := rules[..|rules| - 1];
      var r := rules[|rules| - 1];
      if !(SetsFlags(r, data, blocks) && key in r.setFlags) {
        FlagKeys(defaults, p, data, blocks, key);
        if !(key in defaults) {
          var j :| 0 <= j < |p| && SetsFlags(p[j], data, blocks) && key in p[j].setFlags;
          assert p[j] == rules[j];
        }
      }
    }
  }

  // ----------------------------------------------------------- step states

  /** A rule contributes to a step state when it carries a `stepState` with a
      non-empty `stepId` and a non-empty `when` that holds. */
  predicate Applies(r: Rule, data: Record, blocks: BlockRows) {
    r.stepState.Some? && Given(r.when) && EvalWhen(r.when.value, data, blocks, map[]) && r.stepState.value.stepId != ""
  }

  predicate AppliesTo(r: Rule, id: string, data: Record, blocks: BlockRows) {
    Applies(r, data, blocks) && r.stepState.value.stepId == id
  }

  /** The step ids some applying rule targets. */
  function Targets(rules: seq<Rule>, data: Record, blocks: BlockRows): set<string>
    decreases |rules|
  {
    if rules == [] then {}
    else
      var r := rules[|rules| - 1];
      Targets(rules[..|rules| - 1], data, blocks) + (if Applies(r, data, blocks) then {r.stepState.value.stepId} else {})
  }

  /** The non-None `required` values of the rules applying to step `id`, in rule order. */
  function RequiredValues(rules: seq<Rule>, id: string, data: Record, blocks: BlockRows): seq<Value>
    decreases |rules|
  {
    if rules == [] then []
    else
      var r := rules[|rules| - 1];
      RequiredValues(rules[..|rules| - 1], id, data, blocks) +
        (if AppliesTo(r, id, data, blocks) && r.stepState.value.required != VNone then [r.stepState.value.required] else [])
  }

  /** The last non-None `collapsedByDefault` of the rules applying to step `id`, else None. */
  function LastCollapsed(rules: seq<Rule>, id: string, data: Record, blocks: BlockRows): Value
    decreases |rules|
  {
    if rules == [] then VNone
    else
      var r := rules[|rules| - 1];
      if AppliesTo(r, id, data, blocks) && r.stepState.value.collapsedByDefault != VNone then r.stepState.value.collapsedByDefault
      else LastCollapsed(rules[..|rules| - 1], id, data, blocks)
  }

  /** Conflict resolution for `required`: with `requiredWins` any `True` wins,
      otherwise the last value; None when no applying rule set it. */
  function ResolveRequired(values: seq<Value>, requiredWins: bool): Value {
    if values == [] then VNone
    else if requiredWins then VBool(VBool(true) in values)
    else values[|values| - 1]
  }

  /** The step states `_compute_step_states` returns, stated per step. */
  function StepStatesOf(schema: Schema, data: Record, blocks: BlockRows): map<string, StepState> {
    map id | id in Targets(schema.rules, data, blocks) ::
      StepState(ResolveRequired(RequiredValues(schema.rules, id, data, blocks), schema.requiredWins),
                LastCollapsed(schema.rules, id, data, blocks))
  }

  /** A step's accumulated state before conflict resolution. */
  datatype RawState = RawState(requiredValues: seq<Value>, collapsed: Value)

  /** `_compute_step_states`: one pass over the rules collecting per-step
      values, then a pass resolving each step. */
  method ComputeStepStates(schema: Schema, data: Record, blocks: BlockRows) returns (states: map<string, StepState>)
    ensures states == StepStatesOf(schema, data, blocks)
  {
    var raw := CollectStepStates(schema.rules, data, blocks);
    states := map[];
    var todo := raw.Keys;
    while todo != {}
      invariant todo <= raw.Keys
      invariant states.Keys == raw.Keys - todo
      invariant forall id :: id in states ==>
                  states[id] == StepState(ResolveRequired(raw[id].requiredValues, schema.requiredWins), raw[id].collapsed)
      decreases todo
    {
      var id :| id in todo;
      states := states[id := StepState(ResolveRequired(raw[id].requiredValues, schema.requiredWins), raw[id].collapsed)];
      todo := todo - {id};
    }
    StepStatesFromRaw(schema, data, blocks, raw, states);
  }

  /** The second pass: resolving every collected step gives the step states. */
  lemma StepStatesFromRaw(schema: Schema, data: Record, blocks: BlockRows, raw: map<string, RawState>, states: map<string, StepState>)
    requires raw.Keys == Targets(schema.rules, data, blocks)
    requires forall id :: id in raw ==>
               raw[id] == RawState(RequiredValues(schema.rules, id, data, blocks), LastCollapsed(schema.rules, id, data, blocks))
    requires states.Keys == raw.Keys
    requires forall id :: id in states ==>
               states[id] == StepState(ResolveRequired(raw[id].requiredValues, schema.requiredWins), raw[id].collapsed)
    ensures states == StepStatesOf(schema, data, blocks)
  {
    var want := StepStatesOf(schema, data, blocks);
    forall id | id in states
      ensures states[id] == want[id]
    {
      assert raw[id] == RawState(RequiredValues(schema.rules, id, data, blocks), LastCollapsed(schema.rules, id, data, blocks));
    }
    MapsEqual(states, want);
  }

  /** The first pass of `_compute_step_states`: the `raw` mapping of step id
      to the `required` values and last `collapsedByDefault` of its applying rules. */
  method CollectStepStates(rules: seq<Rule>, data: Record, blocks: BlockRows) returns (raw: map<string, RawState>)
    ensures raw.Keys == Targets(rules, data, blocks)
    ensures forall id :: id in raw ==>
              raw[id] == RawState(RequiredValues(rules, id, data, blocks), LastCollapsed(rules, id, data, blocks))
  {
    raw := map[];
    var i := 0;
    while i < |rules|
      invariant 0 <= i <= |rules|
      invariant raw.Keys == Targets(rules[..i], data, blocks)
      invariant forall id :: id in raw ==>
                  raw[id] == RawState(RequiredValues(rules[..i], id, data, blocks), LastCollapsed(rules[..i], id, data, blocks))
    {
      var rule := rules[i];
      ghost var before := raw;
      TakeStep(rules, i);
      raw := AbsorbRule(raw, rule, data, blocks);
      RawStateStep(rules[..i], rule, before, raw, data, blocks);
      i := i + 1;
    }
    assert rules[..i] == rules;
  }

  /** The loop body of the first pass: one rule's contribution to `raw`. */
  method AbsorbRule(raw: map<string, RawState>, rule: Rule, data: Record, blocks: BlockRows)
    returns (out: map<string, RawState>)
    ensures out == Absorb(raw, rule, data, blocks)
  {
    out := raw;
    if rule.stepState.Some? && rule.when.Some? && rule.when.value.Truthy() && EvalWhen(rule.when.value, data, blocks, map[]) {
      var spec := rule.stepState.value;
      if spec.stepId != "" {
        var st := if spec.stepId in raw then raw[spec.stepId] else RawState([], VNone);
        if spec.required != VNone {
          st := st.(requiredValues := st.requiredValues + [spec.required]);
        }
        if spec.collapsedByDefault != VNone {
          st := st.(collapsed := spec.collapsedByDefault);
        }
        out := raw[spec.stepId := st];
      }
    }
  }

  lemma {:induction false} TargetsMeaning(rules: seq<Rule>, id: string, data: Record, blocks: BlockRows)
    ensures id in Targets(rules, data, blocks) <==> exists i :: 0 <= i < |rules| && AppliesTo(rules[i], id, data, blocks)
    decreases |rules|
  {
    if rules != [] {
      var p, last := rules[..|rules| - 1], rules[|rules| - 1];
      TargetsMeaning(p, id, data, blocks);
      assert id in Targets(rules, data, blocks)
        <==> id in Targets(p, data, blocks) || AppliesTo(last, id, data, blocks);
      assert (exists i :: 0 <= i < |rules| && AppliesTo(rules[i], id, data, blocks))
        <==> (exists i :: 0 <= i < |p| && AppliesTo(p[i], id, data, blocks)) || AppliesTo(last, id, data, blocks) by {
        if exists i :: 0 <= i < |p| && AppliesTo(p[i], id, data, blocks) {
          var i :| 0 <= i < |p| && AppliesTo(p[i], id, data, blocks);
          assert rules[i] == p[i];
        }
        if exists i :: 0 <= i < |rules| && AppliesTo(rules[i], id, data, blocks) {
          var i :| 0 <= i < |rules| && AppliesTo(rules[i], id, data, blocks);
          if i < |p| {
            assert p[i] == rules[i];
          }
        }
      }
    }
  }

  /** How one rule changes the `raw` mapping. */
  ghost function Absorb(raw: map<string, RawState>, r: Rule, data: Record, blocks: BlockRows): map<string, RawState> {
    if Applies(r, data, blocks) then
      var spec := r.stepState.value;
      var st := if spec.stepId in raw then raw[spec.stepId] else RawState([], VNone);
      var st' := if spec.required != VNone then st.(requiredValues := st.requiredValues + [spec.required]) else st;
      raw[spec.stepId := if spec.collapsedByDefault != VNone then st'.(collapsed := spec.collapsedByDefault) else st']
    else raw
  }

  /** The `raw` invariant of `_compute_step_states` survives one more rule. */
  lemma RawStateStep(prefix: seq<Rule>, r: Rule, before: map<string, RawState>, after: map<string, RawState>, data: Record, blocks: BlockRows)
    requires before.Keys == Targets(prefix, data, blocks)
    requires forall id :: id in before ==>
               before[id] == RawState(RequiredValues(prefix, id, data, blocks), LastCollapsed(prefix, id, data, blocks))
    requires after == Absorb(before, r, data, blocks)
    ensures after.Keys == Targets(prefix + [r], data, blocks)
    ensures forall id :: id in after ==>
              after[id] == RawState(RequiredValues(prefix + [r], id, data, blocks), LastCollapsed(prefix + [r], id, data, blocks))
  {
    TargetsLast(prefix, r, data, blocks);
    forall id | id in after
      ensures after[id] == RawState(RequiredValues(prefix + [r], id, data, blocks), LastCollapsed(prefix + [r], id, data, blocks))
    {
      ValuesLast(prefix, r, id, data, blocks);
      if id !in before {
        UntargetedStepHasNoValues(prefix, id, data, blocks);
      }
    }
  }

  lemma TargetsLast(prefix: seq<Rule>, r: Rule, data: Record, blocks: BlockRows)
    ensures Targets(prefix + [r], data, blocks) ==
            Targets(prefix, data, blocks) + (if Applies(r, data, blocks) then {r.stepState.value.stepId} else {})
  {
    var q := prefix + [r];
    assert q[..|q| - 1] == prefix;
  }

  lemma ValuesLast(prefix: seq<Rule>, r: Rule, id: string, data: Record, blocks: BlockRows)
    ensures RequiredValues(prefix + [r], id, data, blocks) ==
            RequiredValues(prefix, id, data, blocks) +
              (if AppliesTo(r, id, data, blocks) && r.stepState.value.required != VNone then [r.stepState.value.required] else [])
    ensures LastCollapsed(prefix + [r], id, data, blocks) ==
            if AppliesTo(r, id, data, blocks) && r.stepState.value.collapsedByDefault != VNone then r.stepState.value.collapsedByDefault
            else LastCollapsed(prefix, id, data, blocks)
  {
    var q := prefix + [r];
    assert q[..|q| - 1] == prefix;
  }

  lemma {:induction false} UntargetedStepHasNoValues(rules: seq<Rule>, id: string, data: Record, blocks: BlockRows)
    requires id !in Targets(rules, data, blocks)
    ensures RequiredValues(rules, id, data, blocks) == [] && LastCollapsed(rules, id, data, blocks) == VNone
    decreases |rules|
  {
    if rules != [] {
      UntargetedStepHasNoValues(rules[..|rules| - 1], id, data, blocks);
    }
  }

  /** Under `requiredWins`, `required` is True exactly when some applying rule for the step set it to True. */
  lemma {:induction false} RequiredTrueMeaning(rules: seq<Rule>, id: string, data: Record, blocks: BlockRows)
    ensures VBool(true) in RequiredValues(rules, id, data, blocks) <==>
            exists i :: 0 <= i < |rules| && AppliesTo(rules[i], id, data, blocks) && rules[i].stepState.value.required == VBool(true)
    decreases |rules|
  {
    if rules != [] {
      var p := rules[..|rules| - 1];
      RequiredTrueMeaning(p, id, data, blocks);
      if exists i :: 0 <= i < |p| && AppliesTo(p[i], id, data, blocks) && p[i].stepState.value.required == VBool(true) {
        var i :| 0 <= i < |p| && AppliesTo(p[i], id, data, blocks) && p[i].stepState.value.required == VBool(true);
        assert rules[i] == p[i];
      }
      if exists i :: 0 <= i < |rules| && AppliesTo(rules[i], id, data, blocks) && rules[i].stepState.value.required == VBool(true) {
        var i :| 0 <= i < |rules| && AppliesTo(rules[i], id, data, blocks) && rules[i].stepState.value.required == VBool(true);
        if i < |p| {
          assert p[i] == rules[i];
        }
      }
    }
  }

  /** Without `requiredWins`, `required` is the value of the last applying rule that set one. */
  lemma {:induction false} RequiredLastWins(rules: seq<Rule>, id: string, data: Record, blocks: BlockRows, i: nat)
    requires i < |rules| && AppliesTo(rules[i], id, data, blocks) && rules[i].stepState.value.required != VNone
    requires forall j :: i < j < |rules| && AppliesTo(rules[j], id, data, blocks) ==> rules[j].stepState.value.required == VNone
    ensures ResolveRequired(RequiredValues(rules, id, data, blocks), false) == rules[i].stepState.value.required
    decreases |rules|
  {
    var p := rules[..|rules| - 1];
    if i < |rules| - 1 {
      forall j | i < j < |p| && AppliesTo(p[j], id, data, blocks) ensures p[j].stepState.value.required == VNone {
        assert p[j] == rules[j];
      }
      RequiredLastWins(p, id, data, blocks, i);
    }
  }

  /** `collapsedByDefault` is the last non-None value an applying rule gave. */
  lemma {:induction false} CollapsedLastWins(rules: seq<Rule>, id: string, data: Record, blocks: BlockRows, i: nat)
    requires i < |rules| && AppliesTo(rules[i], id, data, blocks) && rules[i].stepState.value.collapsedByDefault != VNone
    requires forall j :: i < j < |rules| && AppliesTo(rules[j], id, data, blocks) ==> rules[j].stepState.value.collapsedByDefault == VNone
    ensures LastCollapsed(rules, id, data, blocks) == rules[i].stepState.value.collapsedByDefault
    decreases |rules|
  {
    var p := rules[..|rules| - 1];
    if i < |rules| - 1 {
      forall j | i < j < |p| && AppliesTo(p[j], id, data, blocks) ensures p[j].stepState.value.collapsedByDefault == VNone {
        assert p[j] == rules[j];
      }
      CollapsedLastWins(p, id, data, blocks, i);
    }
  }

  // ------------------------------------------------------- step visibility

  /** A display rule hides its steps when its `hideSteps` list is non-empty and its `when` holds. */
  predicate Hides(r: DisplayRule, data: Record, blocks: BlockRows) {
    |r.hideSteps.Get([])| > 0 && r.when.Some? && EvalWhen(r.when.value, data, blocks, map[])
  }

  function DisplayRulesOf(s: Step): seq<DisplayRule> {
    s.displayRules.Get([])
  }

  /** The id of the first step, "" when it has none or there are no steps. */
  function FirstStepId(steps: seq<Step>): string {
    if |steps| > 0 then steps[0].id.GetOr("") else ""
  }

  /** The step ids hidden by the given display rules. */
  function RulesHide(rules: seq<DisplayRule>, data: Record, blocks: BlockRows): set<string>
    decreases |rules|
  {
    if rules == [] then {}
    else
      var r := rules[|rules| - 1];
      RulesHide(rules[..|rules| - 1], data, blocks) + (if Hides(r, data, blocks) then set s | s in r.hideSteps.Get([]) else {})
  }

  /** The step ids hidden by the display rules of the steps whose id is `first`. */
  function StepsHide(steps: seq<Step>, first: string, data: Record, blocks: BlockRows): set<string>
    decreases |steps|
  {
    if steps == [] then {}
    else
      var s := steps[|steps| - 1];
      StepsHide(steps[..|steps| - 1], first, data, blocks) +
        (if s.id == Some(first) then RulesHide(DisplayRulesOf(s), data, blocks) else {})
  }

  /** `_get_hidden_steps_from_display_rules`. */
  method HiddenSteps(steps: seq<Step>, data: Record, blocks: BlockRows) returns (hidden: set<string>)
    ensures hidden == StepsHide(steps, FirstStepId(steps), data, blocks)
  {
    hidden := {};
    var first := if |steps| > 0 then steps[0].id.GetOr("") else "";
    var i := 0;
    while i < |steps|
      invariant 0 <= i <= |steps|
      invariant hidden == StepsHide(steps[..i], first, data, blocks)
    {
      var step := steps[i];
      assert steps[..i + 1][..i] == steps[..i];
      if step.id == Some(first) {
        hidden := HideByRules(hidden, step.displayRules.Get([]), data, blocks);
      }
      i := i + 1;
    }
    assert steps[..i] == steps;
  }

  /** The inner loop of `_get_hidden_steps_from_display_rules`: one step's display rules. */
  method HideByRules(hidden: set<string>, rules: seq<DisplayRule>, data: Record, blocks: BlockRows) returns (out: set<string>)
    ensures out == hidden + RulesHide(rules, data, blocks)
  {
    out := hidden;
    var j := 0;
    while j < |rules|
      invariant 0 <= j <= |rules|
      invariant out == hidden + RulesHide(rules[..j], data, blocks)
    {
      assert rules[..j + 1][..j] == rules[..j];
      out := ApplyDisplayRule(out, rules[j], data, blocks);
      j := j + 1;
    }
    assert rules[..j] == rules;
  }

  /** One display rule: when it fires, its listed steps join the hidden set. */
  method ApplyDisplayRule(hidden: set<string>, rule: DisplayRule, data: Record, blocks: BlockRows) returns (out: set<string>)
    ensures out == hidden + (if Hides(rule, data, blocks) then set s | s in rule.hideSteps.Get([]) else {})
  {
    out := hidden;
    var listed := rule.hideSteps.Get([]);
    if 0 < |listed| && rule.when.Some? && EvalWhen(rule.when.value, data, blocks, map[]) {
      out := hidden + set s | s in listed;
    }
  }

  /** Step `s` is hidden by display rule `j` of step `i`, a step carrying the first step's id. */
  predicate HidesAt(steps: seq<Step>, first: string, i: int, j: int, s: string, data: Record, blocks: BlockRows) {
    0 <= i < |steps| && steps[i].id == Some(first) &&
    0 <= j < |DisplayRulesOf(steps[i])| && Hides(DisplayRulesOf(steps[i])[j], data, blocks) &&
    s in DisplayRulesOf(steps[i])[j].hideSteps.Get([])
  }

  lemma {:induction false} RulesHideMeaning(rules: seq<DisplayRule>, s: string, data: Record, blocks: BlockRows)
    ensures s in RulesHide(rules, data, blocks) <==>
            exists j :: 0 <= j < |rules| && Hides(rules[j], data, blocks) && s in rules[j].hideSteps.Get([])
    decreases |rules|
  {
    if rules != [] {
      var p := rules[..|rules| - 1];
      RulesHideMeaning(p, s, data, blocks);
      if exists j :: 0 <= j < |p| && Hides(p[j], data, blocks) && s in p[j].hideSteps.Get([]) {
        var j :| 0 <= j < |p| && Hides(p[j], data, blocks) && s in p[j].hideSteps.Get([]);
        assert rules[j] == p[j];
      }
      if exists j :: 0 <= j < |rules| && Hides(rules[j], data, blocks) && s in rules[j].hideSteps.Get([]) {
        var j :| 0 <= j < |rules| && Hides(rules[j], data, blocks) && s in rules[j].hideSteps.Get([]);
        if j < |p| {
          assert p[j] == rules[j];
        }
      }
    }
  }

  /** A step id is hidden exactly when some firing display rule of a step
      carrying the first step's id lists it. */
  lemma {:induction false} HiddenStepsMeaning(steps: seq<Step>, s: string, data: Record, blocks: BlockRows)
    ensures s in StepsHide(steps, FirstStepId(steps), data, blocks) <==>
            exists i, j :: HidesAt(steps, FirstStepId(steps), i, j, s, data, blocks)
  {
    StepsHideMeaning(steps, FirstStepId(steps), s, data, blocks);
  }

  lemma {:induction false} StepsHideMeaning(steps: seq<Step>, first: string, s: string, data: Record, blocks: BlockRows)
    ensures s in StepsHide(steps, first, data, blocks) <==>
            exists i, j :: HidesAt(steps, first, i, j, s, data, blocks)
    decreases |steps|
  {
    if steps != [] {
      var p := steps[..|steps| - 1];
      var last := steps[|steps| - 1];
      StepsHideMeaning(p, first, s, data, blocks);
      RulesHideMeaning(DisplayRulesOf(last), s, data, blocks);
      if s in StepsHide(steps, first, data, blocks) {
        if s in StepsHide(p, first, data, blocks) {
          var i, j :| HidesAt(p, first, i, j, s, data, blocks);
          assert p[i] == steps[i];
          assert HidesAt(steps, first, i, j, s, data, blocks);
        } else {
          var j :| 0 <= j < |DisplayRulesOf(last)| && Hides(DisplayRulesOf(last)[j], data, blocks) && s in DisplayRulesOf(last)[j].hideSteps.Get([]);
          assert HidesAt(steps, first, |steps| - 1, j, s, data, blocks);
        }
      }
      if exists i, j :: HidesAt(steps, first, i, j, s, data, blocks) {
        var i, j :| HidesAt(steps, first, i, j, s, data, blocks);
        if i < |p| {
          assert p[i] == steps[i];
          assert HidesAt(p, first, i, j, s, data, blocks);
        }
      }
    }
  }

  function VisibilityOf(s: Step): VisibilityLogic {
    s.visibilityLogic.Get(NoVisibilityLogic)
  }

  /** `_is_step_visible`. */
  predicate IsStepVisible(s: Step, data: Record, hidden: set<string>, blocks: BlockRows, flags: Record) {
    var id := s.id.GetOr("");
    if |hidden| > 0 && id in hidden then false
    else
      var shown := VisibilityOf(s).shownWhen.Find();
      var optional := VisibilityOf(s).optionalWhen.Find();
      if Given(shown) && shown.value.anyOf.Some? then AnyHolds(shown.value.anyOf.value, data, blocks, flags)
      else if Given(shown) && shown.value.allOf.Some? then AllHold(shown.value.allOf.value, data, blocks, flags)
      else if Given(optional) then true
      else if !Given(shown) && !Given(optional) then true
      else false
  }

  /** A hidden step is never visible; a step with neither `shownWhen` nor
      `optionalWhen` is visible unless hidden; a `shownWhen` with a
      combinator decides as `_eval_when` does. */
  lemma StepVisibility(s: Step, data: Record, hidden: set<string>, blocks: BlockRows, flags: Record)
    ensures s.id.GetOr("") in hidden ==> !IsStepVisible(s, data, hidden, blocks, flags)
    ensures s.id.GetOr("") !in hidden && !Given(VisibilityOf(s).shownWhen.Find()) && !Given(VisibilityOf(s).optionalWhen.Find())
            ==> IsStepVisible(s, data, hidden, blocks, flags)
    ensures var shown := VisibilityOf(s).shownWhen.Find();
            s.id.GetOr("") !in hidden && Given(shown) && (shown.value.anyOf.Some? || shown.value.allOf.Some?)
            ==> IsStepVisible(s, data, hidden, blocks, flags) == EvalWhen(shown.value, data, blocks, flags)
  {
  }

  /** `_is_step_optional`: a rule-computed state decides first, then `optionalWhen`. */
  predicate IsStepOptional(s: Step, data: Record, states: map<string, StepState>, blocks: BlockRows) {
    var id := s.id.GetOr("");
    if |states| > 0 && id in states && states[id].required == VBool(true) then false
    else if |states| > 0 && id in states && (states[id].required == VBool(false) || states[id].collapsedByDefault == VBool(true)) then true
    else
      var optional := VisibilityOf(s).optionalWhen.Find();
      if Given(optional) && optional.value.anyOf.Some? then AnyHolds(optional.value.anyOf.value, data, blocks, map[])
      else if Given(optional) && optional.value.allOf.Some? then AllHold(optional.value.allOf.value, data, blocks, map[])
      else false
  }

  /** With `requiredWins`, one applying rule that sets `required: True` makes the
      step mandatory, whatever other rules or `collapsedByDefault` say. */
  lemma RequiredWinsMakesMandatory(schema: Schema, data: Record, blocks: BlockRows, s: Step, i: nat)
    requires schema.requiredWins
    requires i < |schema.rules| && AppliesTo(schema.rules[i], s.id.GetOr(""), data, blocks)
    requires schema.rules[i].stepState.value.required == VBool(true)
    ensures !IsStepOptional(s, data, StepStatesOf(schema, data, blocks), blocks)
  {
    var id := s.id.GetOr("");
    TargetsMeaning(schema.rules, id, data, blocks);
    RequiredTrueMeaning(schema.rules, id, data, blocks);
    var states := StepStatesOf(schema, data, blocks);
    assert id in states;
    assert states[id].required == VBool(true);
  }

  /** A `required: False` or `collapsedByDefault: True` state makes the step optional unless `required` is True. */
  lemma StateMakesOptional(s: Step, data: Record, states: map<string, StepState>, blocks: BlockRows)
    requires s.id.GetOr("") in states
    ensures var st := states[s.id.GetOr("")];
            st.required != VBool(true) && (st.required == VBool(false) || st.collapsedByDefault == VBool(true))
            ==> IsStepOptional(s, data, states, blocks)
  {
  }
}
