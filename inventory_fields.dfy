/** Field-level helpers of the inventory form: relevance tracks, option
    lists of select fields, field collection and repeating-row labels. */
module InventoryFields {
  import opened Values
  import opened Text
  import opened Seqs
  import opened InventorySchema

  // -------------------------------------------------------------- relevance

  const NoCreationAnswer := "No model creation, use existing model"

  /** The keys of the two routing selectors. */
  predicate IsRoutingKey(k: string) {
    k == "modelCreator" || k == "modelUsage"
  }

  /** `_get_active_relevance`: the relevance tracks the routing answers switch on. */
  method GetActiveRelevance(data: Record) returns (active: set<string>)
    ensures "neither" in active
    ensures "modelCreator" in active <==>
              Truthy(Lookup(data, "modelCreator")) && !PyEq(Lookup(data, "modelCreator"), VStr(NoCreationAnswer))
    ensures "modelUsage" in active <==> Truthy(Lookup(data, "modelUsage"))
    ensures "both" in active <==> "modelCreator" in active || "modelUsage" in active
    ensures active <= {"neither", "modelCreator", "modelUsage", "both"}
  {
    active := {"neither"};
    var creator := Lookup(data, "modelCreator");
    var usage := Lookup(data, "modelUsage");
    if Truthy(creator) && !PyEq(creator, VStr(NoCreationAnswer)) {
      active := active + {"modelCreator"};
    }
    if Truthy(usage) {
      active := active + {"modelUsage"};
    }
    if "modelCreator" in active || "modelUsage" in active {
      active := active + {"both"};
    }
  }

  /** `_normalize_relevance`: snake_case track names to camelCase. */
  function NormalizeRelevance(r: string): (n: string)
    ensures r == "model_creator" ==> n == "modelCreator"
    ensures r == "model_usage" ==> n == "modelUsage"
    ensures n != "model_creator" && n != "model_usage"
    ensures r != "model_creator" && r != "model_usage" ==> n == r
  {
    if r == "model_creator" then "modelCreator"
    else if r == "model_usage" then "modelUsage"
    else r
  }

  lemma NormalizeRelevanceIdempotent(r: string)
    ensures NormalizeRelevance(NormalizeRelevance(r)) == NormalizeRelevance(r)
  {
  }

  /** `_is_relevant`: routing selectors always pass; other fields pass when
      their (normalised) relevance, "neither" by default, is active. */
  predicate IsRelevant(f: Field, active: set<string>) {
    if IsRoutingKey(f.key.GetOr("")) then true
    else NormalizeRelevance(f.relevance.GetOr("neither")) in active
  }

  /** The routing selectors are always relevant, and so is an untagged field
      under any set of tracks the routing answers produce. */
  lemma RelevanceFacts(f: Field, active: set<string>)
    requires "neither" in active
    ensures IsRoutingKey(f.key.GetOr("")) ==> IsRelevant(f, active)
    ensures f.relevance.None? ==> IsRelevant(f, active)
    ensures f.relevance == Some("model_creator") ==> (IsRelevant(f, active) <==> IsRoutingKey(f.key.GetOr("")) || "modelCreator" in active)
  {
  }

  // --------------------------------------------------------------- options

  /** The placeholder catalogs a select field may draw its options from. */
  function CatalogDefaults(sourceType: string): seq<string> {
    if sourceType == "bankOrgList" then
      ["Retail Banking", "Corporate Banking", "Wholesale Banking", "Digital Banking", "Wealth Management",
       "Operations", "Technology", "Risk Management", "Compliance", "Human Resources"]
    else if sourceType == "staffDirectory" then
      ["Alice Wongsakul", "Bob Chaiyaphon", "Carol Suttirat", "David Kiatprasert", "Somchai P.",
       "Nattapong K.", "Parichat W.", "Kittisak T.", "Ariya S.", "Thanakrit M."]
    else if sourceType == "systemCatalog" then
      ["Core Banking", "CRM", "Data Warehouse", "API Gateway", "Document Management"]
    else if sourceType == "approvedModelCatalog" then
      ["GPT-4o", "GPT-4o-mini", "Claude 3.5 Sonnet", "Claude 3.5 Haiku", "Gemini", "Gemini 1.5 Pro",
       "Gemini 1.5 Flash", "Gemini 2.5 Flash", "Gemini 2.5 Pro", "Gemini 3 Pro", "Gemini 3 Flash",
       "Gecko", "Chirp", "Journey", "Llama 3.1 70B", "Llama 3.1 8B", "Typhoon 1.5"]
    else if sourceType == "approvedEmbeddingModelCatalog" then
      ["text-embedding-005", "text-embedding-3-large", "text-embedding-3-small", "text-embedding-ada-002",
       "voyage-3", "bge-m3"]
    else if sourceType == "approvedCloudRegions" then
      ["asia-southeast1", "asia-southeast1 (Singapore)", "asia-southeast2 (Jakarta)", "us-central1",
       "us-east1", "europe-west1"]
    else if sourceType == "theEightFunctionTaxonomy" then
      ["Customer eligibility or credit decisions", "Financial crime prevention",
       "Financial and risk management decision", "Customer influence and recommendations",
       "Customer communication and service", "Internal copilot or service with sensitive data",
       "Low risk internal productivity", "AI systems that influence other AI"]
    else []
  }

  /** The source a select field draws from: `optionsSource`, else `options_source`, else empty. */
  function SourceOf(f: Field): OptionsSource {
    f.optionsSource.Get(OptionsSource(None, Aliased(None, None), Aliased(None, None)))
  }

  /** `_resolve_options`: explicit options as given; otherwise the catalog's
      options, with "Other" and "Unknown" appended when asked for and absent. */
  method ResolveOptions(f: Field) returns (opts: seq<string>)
    ensures f.options.Some? ==> opts == f.options.value
    ensures f.options.None? ==>
              var base := CatalogDefaults(SourceOf(f).sourceType.GetOr(""));
              && |base| <= |opts| && opts[..|base|] == base
              && (forall x :: x in opts ==> x in base || x == "Other" || x == "Unknown")
              && ("Other" in opts <==> "Other" in base || Truthy(SourceOf(f).includeOther.Get(VNone)))
              && ("Unknown" in opts <==> "Unknown" in base || Truthy(SourceOf(f).includeUnknown.Get(VNone)))
              && (NoDup(base) ==> NoDup(opts))
              && opts == base + (if Truthy(SourceOf(f).includeOther.Get(VNone)) && "Other" !in base then ["Other"] else [])
                              + (if Truthy(SourceOf(f).includeUnknown.Get(VNone)) && "Unknown" !in base then ["Unknown"] else [])
  {
    if f.options.Some? {
      return f.options.value;
    }
    var source := f.optionsSource.Get(OptionsSource(None, Aliased(None, None), Aliased(None, None)));
    var base := CatalogDefaults(source.sourceType.GetOr(""));
    opts := AddExtras(base, Truthy(source.includeOther.Get(VNone)), Truthy(source.includeUnknown.Get(VNone)));
  }

  /** The catalog options with "Other" and "Unknown" appended when asked for and absent. */
  method AddExtras(base: seq<string>, other: bool, unknown: bool) returns (opts: seq<string>)
    ensures |base| <= |opts| && opts[..|base|] == base
    ensures forall x :: x in opts ==> x in base || x == "Other" || x == "Unknown"
    ensures "Other" in opts <==> "Other" in base || other
    ensures "Unknown" in opts <==> "Unknown" in base || unknown
    ensures NoDup(base) ==> NoDup(opts)
    ensures opts == base + (if other && "Other" !in base then ["Other"] else [])
                         + (if unknown && "Unknown" !in base then ["Unknown"] else [])
  {
    assert "Other"[0] != "Unknown"[0];
    opts := base;
    if other {
      opts := AppendIfAbsent(opts, "Other");
    }
    ghost var mid := opts;
    if unknown {
      opts := AppendIfAbsent(opts, "Unknown");
      assert opts[..|mid|] == mid;
      assert opts[..|base|] == mid[..|base|];
    }
  }

  /** Appending an option unless it is already listed. */
  method AppendIfAbsent(opts: seq<string>, x: string) returns (out: seq<string>)
    ensures |opts| <= |out| && out[..|opts|] == opts
    ensures forall y :: y in out <==> y in opts || y == x
    ensures NoDup(opts) ==> NoDup(out)
    ensures out == opts + (if x in opts then [] else [x])
  {
    out := opts;
    if x !in out {
      out := out + [x];
    }
  }

  // ------------------------------------------------------ field collection

  /** A field together with the key its value is stored under (`_data_key`). */
  datatype CollectedField = CollectedField(field: Field, dataKey: string)

  function Tagged(fs: seq<Field>): seq<CollectedField>
    decreases |fs|
  {
    if fs == [] then [] else [CollectedField(fs[0], fs[0].key.GetOr(""))] + Tagged(fs[1..])
  }

  /** The fields of a step in form order: direct fields, then each section's,
      then (when asked) each repeating block's. */
  function StepFields(s: Step, includeRepeating: bool): seq<Field> {
    s.fields + SectionFields(s.sections) + (if includeRepeating then BlockFields(s.repeatingBlocks.Get([])) else [])
  }

  function SectionFields(secs: seq<Section>): seq<Field>
    decreases |secs|
  {
    if secs == [] then [] else SectionFields(secs[..|secs| - 1]) + secs[|secs| - 1].fields
  }

  function BlockFields(blocks: seq<Block>): seq<Field>
    decreases |blocks|
  {
    if blocks == [] then [] else BlockFields(blocks[..|blocks| - 1]) + blocks[|blocks| - 1].fields
  }

  /** `_collect_fields`: every field of the step, in order, tagged with its data key. */
  method CollectFields(s: Step, includeRepeating: bool) returns (out: seq<CollectedField>)
    ensures out == Tagged(StepFields(s, includeRepeating))
  {
    out := Tagged(s.fields);
    AppendEmpty(out);
    assert s.sections[..0] == [];
    var i := 0;
    while i < |s.sections|
      invariant 0 <= i <= |s.sections|
      invariant out == Tagged(s.fields) + Tagged(SectionFields(s.sections[..i]))
    {
      SectionFieldsStep(s.sections, i);
      TaggedExtend(Tagged(s.fields), SectionFields(s.sections[..i]), s.sections[i].fields);
      out := out + Tagged(s.sections[i].fields);
      i := i + 1;
    }
    assert s.sections[..i] == s.sections;
    TaggedAppend(s.fields, SectionFields(s.sections));
    if includeRepeating {
      var blocks := s.repeatingBlocks.Get([]);
      ghost var head := out;
      AppendEmpty(head);
      assert blocks[..0] == [];
      var j := 0;
      while j < |blocks|
        invariant 0 <= j <= |blocks|
        invariant out == head + Tagged(BlockFields(blocks[..j]))
      {
        BlockFieldsStep(blocks, j);
        TaggedExtend(head, BlockFields(blocks[..j]), blocks[j].fields);
        out := out + Tagged(blocks[j].fields);
        j := j + 1;
      }
      assert blocks[..j] == blocks;
      TaggedAppend(s.fields + SectionFields(s.sections), BlockFields(blocks));
    } else {
      AppendEmpty(s.fields + SectionFields(s.sections));
    }
  }

  lemma SectionFieldsStep(secs: seq<Section>, i: nat)
    requires i < |secs|
    ensures SectionFields(secs[..i + 1]) == SectionFields(secs[..i]) + secs[i].fields
  {
    TakeOfTake(secs, i);
    assert secs[..i + 1][i] == secs[i];
  }

  lemma BlockFieldsStep(blocks: seq<Block>, j: nat)
    requires j < |blocks|
    ensures BlockFields(blocks[..j + 1]) == BlockFields(blocks[..j]) + blocks[j].fields
  {
    TakeOfTake(blocks, j);
    assert blocks[..j + 1][j] == blocks[j];
  }

  lemma TaggedExtend(head: seq<CollectedField>, a: seq<Field>, b: seq<Field>)
    ensures head + Tagged(a + b) == head + Tagged(a) + Tagged(b)
  {
    TaggedAppend(a, b);
    AppendAssoc(head, Tagged(a), Tagged(b));
  }

  lemma {:induction false} TaggedAppend(a: seq<Field>, b: seq<Field>)
    ensures Tagged(a + b) == Tagged(a) + Tagged(b)
    decreases |a|
  {
    if a != [] {
      assert (a + b)[1..] == a[1..] + b;
      TaggedAppend(a[1..], b);
    } else {
      assert a + b == b;
    }
  }

  /** Collection keeps every field, in order, each with its key as data key ("" when it has none). */
  lemma {:induction false} TaggedAt(fs: seq<Field>, k: nat)
    requires k < |fs|
    ensures |Tagged(fs)| == |fs|
    ensures Tagged(fs)[k] == CollectedField(fs[k], fs[k].key.GetOr(""))
    decreases |fs|
  {
    if k > 0 {
      TaggedAt(fs[1..], k - 1);
    } else if |fs| > 1 {
      TaggedAt(fs[1..], 0);
    }
  }

  // ------------------------------------------------------------ row labels

  predicate IsNameType(f: Field) {
    f.fieldType == Some("textShort") || f.fieldType == Some("text_short")
  }

  /** `_find_name_field`: the key of the first short-text field, if any. */
  method FindNameField(fields: seq<Field>) returns (key: Option<string>)
    ensures (forall k :: 0 <= k < |fields| ==> !IsNameType(fields[k])) ==> key == None
    ensures forall k :: 0 <= k < |fields| && IsNameType(fields[k]) && (forall j :: 0 <= j < k ==> !IsNameType(fields[j]))
              ==> key == fields[k].key
  {
    var i := 0;
    while i < |fields|
      invariant 0 <= i <= |fields|
      invariant forall j :: 0 <= j < i ==> !IsNameType(fields[j])
    {
      var t := fields[i].fieldType.GetOr("");
      assert IsNameType(fields[i]) <==> t == "textShort" || t == "text_short";
      if t == "textShort" || t == "text_short" {
        return fields[i].key;
      }
      i := i + 1;
    }
    return None;
  }

  /** `_row_expander_label`: "Entry n", followed by " — name" when the block
      has a name field and the row's value for it is truthy. */
  function RowExpanderLabel(idx: int, row: Record, nameKey: Option<string>): (caption: string)
    ensures StartsWith(caption, "Entry " + IntToString(idx + 1))
    ensures caption == "Entry " + IntToString(idx + 1) <==>
              nameKey.None? || nameKey.value == "" || !Truthy(Lookup(row, nameKey.value))
    ensures nameKey.Some? && nameKey.value != "" && Truthy(Lookup(row, nameKey.value)) ==>
              caption == "Entry " + IntToString(idx + 1) + " — " + PyStr(Lookup(row, nameKey.value))
  {
    var base := "Entry " + IntToString(idx + 1);
    if nameKey.Some? && nameKey.value != "" && Truthy(Lookup(row, nameKey.value)) then
      base + " — " + PyStr(Lookup(row, nameKey.value))
    else base
  }
}
