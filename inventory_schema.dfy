/** The AI-inventory intake schema as the form engine reads it: steps with
    fields, sections and repeating blocks; visibility clauses; rules that set
    flags and step states. Each optional key of the YAML becomes an `Option`,
    and each key the schema may spell in camelCase or snake_case an `Aliased`. */
module InventorySchema {
  import opened Values

  /** One condition: a `flag` test against computed flags, or a `field` test
      against form data with the operators `equals`, `notEquals`/`not_equals`
      and `includes`. */
  datatype Condition = Condition(
    flag: Option<string>,
    field: Option<string>,
    equals: Option<Value>,
    notEquals: Aliased<Value>,
    includes: Option<Value>)

  /** A `when` mapping. `otherKeys` records keys other than `any` and `all`:
      they make the mapping non-empty (truthy) without giving it a combinator. */
  datatype Clause = Clause(anyOf: Option<seq<Condition>>, allOf: Option<seq<Condition>>, otherKeys: bool) {
    /** A Python dict is truthy when it is non-empty. */
    predicate Truthy() {
      anyOf.Some? || allOf.Some? || otherKeys
    }
  }

  /** A clause that is present and non-empty. */
  predicate Given(c: Option<Clause>) {
    c.Some? && c.value.Truthy()
  }

  /** A rule's `stepState`: `stepId` is "" when missing; `required` and
      `collapsedByDefault` are `VNone` when missing. */
  datatype StepStateSpec = StepStateSpec(stepId: string, required: Value, collapsedByDefault: Value)

  /** A top-level rule. An absent `setFlags` is the empty mapping. */
  datatype Rule = Rule(when: Option<Clause>, setFlags: map<string, Value>, stepState: Option<StepStateSpec>)

  /** The parts of the schema the rules engine reads: `flags.defaults`, `rules`,
      and whether `ruleEvaluation.conflictResolution.requiredness` is `requiredWins`. */
  datatype Schema = Schema(flagDefaults: map<string, Value>, rules: seq<Rule>, requiredWins: bool)

  /** A resolved step state. */
  datatype StepState = StepState(required: Value, collapsedByDefault: Value)

  /** A display rule of the first step: hide the listed steps when `when` holds. */
  datatype DisplayRule = DisplayRule(when: Option<Clause>, hideSteps: Aliased<seq<string>>)

  /** A step's `visibilityLogic`. */
  datatype VisibilityLogic = VisibilityLogic(shownWhen: Aliased<Clause>, optionalWhen: Aliased<Clause>)

  /** `optionsSource` of a select field: a catalog `type` and whether to offer
      "Other" and "Unknown". */
  datatype OptionsSource = OptionsSource(sourceType: Option<string>, includeOther: Aliased<Value>, includeUnknown: Aliased<Value>)

  datatype Field = Field(
    key: Option<string>,
    fieldType: Option<string>,
    relevance: Option<string>,
    options: Option<seq<string>>,
    optionsSource: Aliased<OptionsSource>,
    visibleWhen: Aliased<Clause>)

  datatype Section = Section(fields: seq<Field>)

  datatype Block = Block(id: Option<string>, fields: seq<Field>)

  datatype Step = Step(
    id: Option<string>,
    fields: seq<Field>,
    sections: seq<Section>,
    repeatingBlocks: Aliased<seq<Block>>,
    displayRules: Aliased<seq<DisplayRule>>,
    visibilityLogic: Aliased<VisibilityLogic>)

  /** Rows of each repeating block, keyed by block id. */
  type BlockRows = map<string, seq<Record>>

  const NoVisibilityLogic := VisibilityLogic(Aliased(None, None), Aliased(None, None))
}
