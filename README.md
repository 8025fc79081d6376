# Risk map assistant: rules, joins and text builders in Dafny

This project models the deterministic core of an AI risk-map assistant. It does
not model the user interface around that core. Each part below is its own
Dafny module and is proved against a specification written as functions and
predicates.

- **Inventory form engine** (`InventorySchema`, `InventoryRules`, `InventoryFields`).
  - Conditions on form data and on computed flags.
  - `any`/`all` clauses.
  - Flag computation with last-write-wins.
  - Per-step states with `requiredWins` or last-value-wins.
  - Steps hidden by the first step's display rules.
  - Step visibility and optionality.
  - Relevance tracks.
  - Option lists of select fields.
  - Field collection, the name field of a repeating block, and its row caption.
- **Risk and control catalog** (`DataLoader`).
  - Relevant risks from the self-assessment answers.
  - The duplicate-free, order-preserving join from risks to controls.
  - Text lists.
- **Assessment export** (`ExportSummary`).
  - First sentences and category labels.
  - Framework hits.
  - The summary's risk, control, practice and tool entries.
  - The Markdown document.
- **ER diagram generator** (`ErDiagram`).
  - The quote- and parenthesis-aware comma splitter.
  - Column type and column name parsing, and type formatting.
  - Grouping of columns and foreign-key rows.
  - The Mermaid text.
- **Architecture diagrams** (`Architecture`).
  - Front matter removal.
  - Node definition ids.
  - Style-line highlighting.
  - The ids an assessment highlights.
- **Inventory spreadsheet export** (`NavigatorXlsx`).
  - Merging steps that share an id.
  - Flattening every field into a row with its step, section and block context.
  - The "options", "immutable" and "required" columns.

Three modules model the Python behaviour the code relies on:

- `Values` covers YAML/JSON values, Python `==` (where `True == 1`), truthiness, and keys spelled in camelCase or snake_case.
- `Text` covers `str.isspace`, `strip`, `split`, `join` and `upper`.
- `Seqs` covers order-preserving de-duplication, code-point string order, and sorting.

Imperative source code is modelled as methods with loops, proved equal to the
specification functions. Each loop body that updates a dict, set or list is
usually its own small method. Expression code is modelled as functions.
Lemmas state what the source promises about those functions.

## Model

| member | source | states |
|---|---|---|
| InventoryRules.FlagCondition | app/pages/ai_inventory.py:148-152 | a `flag` condition holds iff it has `equals` and the flag's value equals it (Python `==`); without `equals` it is false; a missing flag compares as None |
| InventoryRules.NoOperatorIsFalse | app/pages/ai_inventory.py:147-185 | a condition with no `equals`, `notEquals`/`not_equals` or `includes` is false on every path |
| InventoryRules.EqualsTakesPriority | app/pages/ai_inventory.py:176-177 | for a present value, `equals` decides alone: removing the other operators changes nothing, and the result is `value == equals` |
| InventoryRules.NotEqualsNegatesEquals | app/pages/ai_inventory.py:176-180 | for a present value, `notEquals: x` is exactly the negation of `equals: x` |
| InventoryRules.IncludesMeaning | app/pages/ai_inventory.py:181-184 | `includes` is membership (by Python `==`) for a list value and equality for a scalar |
| InventoryRules.MissingFieldSearchesRows | app/pages/ai_inventory.py:157-174 | when the field is missing at top level and repeating blocks exist, the condition holds iff some row has a non-None value for the field that satisfies one of the operators |
| InventoryRules.MissingEverywhereIsFalse | app/pages/ai_inventory.py:157-180 | with repeating blocks present and no row holding the field, a `notEquals` condition on a missing field is false; with no repeating blocks it is true |
| InventoryRules.EvalWhenDefaults | app/pages/ai_inventory.py:188-201 | `_eval_when`: neither `any` nor `all` is false; `any` wins over `all`; `any: []` is false; `all: []` is true |
| InventoryRules.IsVisibleVersusEvalWhen | app/pages/ai_inventory.py:204-213 | `_is_visible` equals `_eval_when` on a clause with a combinator; a missing, empty or combinator-less `visibleWhen` is visible although `_eval_when` is false on it |
| InventoryRules.ComputeFlags | app/pages/ai_inventory.py:226-245 | the loop computes the flags of the rules applied in order over the defaults |
| InventoryRules.ApplyFlagRule | app/pages/ai_inventory.py:240-243 | one rule overwrites the flags it sets exactly when it has non-empty `setFlags` and its `when` holds |
| InventoryRules.FlagLastWriteWins | app/pages/ai_inventory.py:226-245 | a flag's value is the one written by the last firing rule that writes it |
| InventoryRules.FlagDefaultKept | app/pages/ai_inventory.py:236-245 | a flag no firing rule writes keeps its default, or stays absent |
| InventoryRules.FlagKeys | app/pages/ai_inventory.py:236-245 | every flag is a default or is written by some firing rule |
| InventoryRules.ComputeStepStates | app/pages/ai_inventory.py:248-296 | the two passes compute the per-step states of the specification |
| InventoryRules.CollectStepStates | app/pages/ai_inventory.py:260-282 | the first pass maps each targeted step id to its non-None `required` values in rule order and its last non-None `collapsedByDefault` |
| InventoryRules.AbsorbRule | app/pages/ai_inventory.py:262-282 | one rule's contribution to the raw map |
| InventoryRules.RawStateStep | app/pages/ai_inventory.py:262-282 | the raw map's invariant survives one more rule |
| InventoryRules.StepStatesFromRaw | app/pages/ai_inventory.py:284-294 | resolving every raw entry yields the specified step states |
| InventoryRules.TargetsMeaning | app/pages/ai_inventory.py:262-273 | a step has a state iff some rule with a `stepState`, a non-empty `stepId` and a holding `when` targets it |
| InventoryRules.UntargetedStepHasNoValues | app/pages/ai_inventory.py:273-282 | an untargeted step has no `required` values and no `collapsedByDefault` |
| InventoryRules.RequiredTrueMeaning | app/pages/ai_inventory.py:286-288 | True is among a step's collected `required` values (which `requiredWins` resolves to True) iff some applying rule set `required: True` |
| InventoryRules.RequiredLastWins | app/pages/ai_inventory.py:276-288 | without `requiredWins`, `required` is the value of the last applying rule that set one |
| InventoryRules.CollapsedLastWins | app/pages/ai_inventory.py:280-282 | `collapsedByDefault` is the last non-None value an applying rule gave |
| InventoryRules.HiddenSteps | app/pages/ai_inventory.py:299-315 | the loop returns the ids hidden by the display rules of the steps that carry the first step's id |
| InventoryRules.HideByRules | app/pages/ai_inventory.py:310-314 | one step's display rules add exactly the ids they hide |
| InventoryRules.ApplyDisplayRule | app/pages/ai_inventory.py:311-314 | a rule adds its `hideSteps` (or `hide_steps`) when the list is non-empty and its `when` holds |
| InventoryRules.RulesHideMeaning | app/pages/ai_inventory.py:310-314 | an id is hidden by a list of rules iff some firing rule lists it |
| InventoryRules.StepsHideMeaning | app/pages/ai_inventory.py:306-315 | an id is hidden iff some firing display rule of some step with the given id lists it |
| InventoryRules.HiddenStepsMeaning | app/pages/ai_inventory.py:306-315 | the same, for the first step's id: "" when there are no steps or it has no id |
| InventoryRules.StepVisibility | app/pages/ai_inventory.py:318-346 | a hidden step is never visible; a step with neither `shownWhen` nor `optionalWhen` is visible; a `shownWhen` with a combinator decides alone |
| InventoryRules.RequiredWinsMakesMandatory | app/pages/ai_inventory.py:359-362 | under `requiredWins`, one applying `required: True` makes the step non-optional, whatever `collapsedByDefault` says |
| InventoryRules.StateMakesOptional | app/pages/ai_inventory.py:359-364 | a state with `required` not True and either `required: False` or `collapsedByDefault: True` makes the step optional |
| InventoryFields.GetActiveRelevance | app/pages/ai_inventory.py:383-406 | "neither" is always active; "modelCreator" iff the creator answer is truthy and not the no-creation answer; "modelUsage" iff the usage answer is truthy; "both" iff either is active; no other track |
| InventoryFields.NormalizeRelevance | app/pages/ai_inventory.py:409-415 | "model_creator" becomes "modelCreator" and "model_usage" becomes "modelUsage"; the result is never a snake_case track name; other names are unchanged |
| InventoryFields.NormalizeRelevanceIdempotent | app/pages/ai_inventory.py:409-415 | normalizing twice is normalizing once |
| InventoryFields.RelevanceFacts | app/pages/ai_inventory.py:418-424 | the routing selectors are always relevant; an untagged field is relevant; a `model_creator` field is relevant iff it is a routing selector or the creator track is active |
| InventoryFields.ResolveOptions | app/pages/ai_inventory.py:113-127 | explicit options are returned as given; otherwise the result is exactly the catalog's defaults, then "Other" if asked for and not listed, then "Unknown" if asked for and not listed; so "Other" and "Unknown" are present iff listed or asked for, and no duplicates are introduced |
| InventoryFields.AddExtras | app/pages/ai_inventory.py:120-127 | the result is exactly the catalog list, then "Other" if asked for and not listed, then "Unknown" if asked for and not listed, in that order; hence "Other" and "Unknown" are present iff listed or asked for, and no duplicates are introduced |
| InventoryFields.AppendIfAbsent | app/pages/ai_inventory.py:122-126 | the option is appended exactly when it is not listed yet; the list stays a prefix and gains no duplicates |
| InventoryFields.CollectFields | app/pages/ai_inventory.py:855-867 | the loops return the direct fields, then each section's, then (when asked) each repeating block's, each tagged with its data key |
| InventoryFields.TaggedAt | app/pages/ai_inventory.py:855-867 | collection keeps every field in order, with its `key` (or "") as data key |
| InventoryFields.TaggedAppend | app/pages/ai_inventory.py:858-866 | tagging the fields of consecutive loops is tagging each part in turn |
| InventoryFields.FindNameField | app/pages/ai_inventory.py:634-640 | the key of the first `textShort`/`text_short` field, and None when there is none |
| InventoryFields.RowExpanderLabel | app/pages/ai_inventory.py:643-650 | the caption is "Entry n+1 — name" when the name key is set and its value is truthy, with the value as `str()` renders it; otherwise it is exactly "Entry n+1" |
| DataLoader.RaisedRisksMeaning | app/data_loader.py:72-88 | a risk is raised iff some question was answered, has a selected persona, has its answer in `relevance`, and lists the risk |
| DataLoader.CalculateRelevantRisks | app/data_loader.py:67-90 | the result is strictly sorted and duplicate-free and holds exactly the raised risks |
| DataLoader.NoPersonasNoRisks | app/data_loader.py:78-80 | a question with no personas never contributes |
| DataLoader.GetControlsForRisks | app/data_loader.py:92-108 | the loops return the catalog entries of the de-duplicated candidate ids, in first-occurrence order, skipping uncatalogued ids |
| DataLoader.AddRiskControls | app/data_loader.py:100-106 | one risk's control list: the seen set tracks every candidate, including uncatalogued ones |
| DataLoader.SeenStep | app/data_loader.py:101-106 | a seen id adds nothing; a new id is appended when catalogued |
| DataLoader.KnownControlsIds | app/data_loader.py:104-106 | with a catalog keyed by id, the k-th control returned is the entry of the k-th kept id |
| DataLoader.KnownIdsMeaning | app/data_loader.py:104-106 | an id is kept iff it is listed and catalogued; distinct ids stay distinct |
| DataLoader.KnownControls | app/data_loader.py:104-106 | never more entries than ids |
| DataLoader.ControlsForRisksMeaning | app/data_loader.py:92-108 | a control comes back iff some known risk lists it and it is catalogued, and at most once |
| DataLoader.UnknownRisksSkipped | app/data_loader.py:97-99 | a control is a candidate iff some given risk id that is in the catalog lists it |
| DataLoader.FormatTextList | app/data_loader.py:110-114 | "" for no items; the item itself for one item |
| DataLoader.FormatTextListRoundTrip | app/data_loader.py:110-114 | a non-empty list of items without spaces is recovered by splitting the text at single spaces |
| ExportSummary.SentenceEndFrom | app/export_summary.py:26 | the leftmost position after `.`, `!` or `?` that starts whitespace, or none |
| ExportSummary.FirstSentence | app/export_summary.py:21-29 | "" for ""; the whole text when no sentence end exists; otherwise the stripped text before the first sentence end |
| ExportSummary.FirstEndIsFound | app/export_summary.py:26-29 | the search finds the first sentence end |
| ExportSummary.FirstSentenceEndsWithMark | app/export_summary.py:26-29 | the first sentence is a slice of the text ending at the first sentence end |
| ExportSummary.NormalizeCategory | app/export_summary.py:32-37 | "Other" for ""; otherwise the label with every occurrence of the prefix and then of "Control" removed, stripped, or "Other" if nothing is left; never empty and never padded with whitespace |
| ExportSummary.NormalizeCategoryKeepsCleanLabel | app/export_summary.py:32-37 | a label without the prefix, without "Control" and without padding is kept unchanged |
| ExportSummary.NormalizeCategoryDropsPrefixAndControl | app/export_summary.py:32-37 | a label made of the prefix, a clean name and "Control" normalizes to the clean name alone |
| ExportSummary.CollectFrameworkHits | app/export_summary.py:50-75 | the loops compute the hits of the risks' mappings, then the controls' |
| ExportSummary.AddAllMappings | app/export_summary.py:57-73 | one document loop folds each document into the hits |
| ExportSummary.AddDocMappings | app/export_summary.py:59-64 | one document's `setdefault`/`update`/`add` loop |
| ExportSummary.AddMappingsAt | app/export_summary.py:59-64 | a fed framework gains the document's truthy ids and its source; others are unchanged |
| ExportSummary.HitsKeys | app/export_summary.py:59-62 | a framework has a hit iff some document maps to it with a non-empty list |
| ExportSummary.HitSources | app/export_summary.py:62-64 | a hit's sources are the kinds of the documents that feed it |
| ExportSummary.HitItems | app/export_summary.py:62-63 | a hit's ids are the truthy ids, as strings, of the documents that feed it |
| ExportSummary.HitsMeaning | app/export_summary.py:50-75 | the three facts above together |
| ExportSummary.HitsOntoAppend | app/export_summary.py:57-73 | folding two runs of documents is folding the first, then the second onto its result |
| ExportSummary.SummaryHitSources | app/export_summary.py:57-75 | a summary hit's sources are a non-empty subset of {"risks", "controls"} |
| ExportSummary.SummaryHitFromRisks | app/export_summary.py:57-64 | "risks" is a source iff some risk maps to the framework with a non-empty list |
| ExportSummary.SummaryHitFromControls | app/export_summary.py:66-73 | "controls" is a source iff some control maps to the framework with a non-empty list |
| ExportSummary.BuildRiskEntries | app/export_summary.py:85-97 | one entry per distinct relevant id, in strictly increasing order, each built from its catalog entry (or `{"id": id}`) |
| ExportSummary.RiskEntriesOverIds | app/export_summary.py:88-97 | entries built over the sorted distinct ids meet that contract |
| ExportSummary.TitleByIdMeaning | app/export_summary.py:99 | with distinct ids, the title map sends each entry's id to its title and has no other keys |
| ExportSummary.TitleByIdKeys | app/export_summary.py:99 | the title map has exactly the entries' ids as keys |
| ExportSummary.TitleByIdValues | app/export_summary.py:99 | with distinct ids, each entry's id maps to that entry's title |
| ExportSummary.ControlsWithId | app/export_summary.py:104 | exactly the controls with a non-empty id are kept |
| ExportSummary.SortedControlsMeaning | app/export_summary.py:103-106 | the sorted controls are a permutation of those with an id, sorted by title-or-id, stably |
| ExportSummary.KeepKnown | app/export_summary.py:112-115 | the mitigated risks are the control's risks that are summary risks |
| ExportSummary.KeepKnownAppend | app/export_summary.py:112-115 | filtering distributes over concatenation, so the kept risks stay in the control's order with repeats kept |
| ExportSummary.KeepKnownAllKnown | app/export_summary.py:112-115 | when every listed risk is a summary risk, the list is kept as it is |
| ExportSummary.TitlesOf | app/export_summary.py:122 | one title per mitigated risk, aligned |
| ExportSummary.ControlEntryOf | app/export_summary.py:110-123 | the id, the title (the id when missing) and the normalized category; `mitigatesRisks` is the control's risks filtered to the summary risks in their original order; `mitigatesRiskTitles` is aligned with it, one summary title per risk |
| ExportSummary.PracticeEntryOf | app/export_summary.py:125-136 | a practice keeps its control's id, title and lifecycle stages, with one owner role per persona id, in order |
| ExportSummary.OwnerRoles | app/export_summary.py:125-128 | the role loop gives each persona's title, else the persona id |
| ExportSummary.PracticeOf | app/export_summary.py:125-136 | the practice entry of one control |
| ExportSummary.BuildControlEntries | app/export_summary.py:109-136 | one control entry and one practice entry per sorted control, in the same order |
| ExportSummary.BuildTools | app/export_summary.py:140-152 | one tool per framework hit, by strictly increasing framework id, each built from its hit and metadata |
| ExportSummary.BuildSummary | app/export_summary.py:78-174 | the summary's tier copy, its counts (the list lengths), its risk, control and practice entries, and one tool per framework hit |
| ExportSummary.RiskCountIsDistinctRelevant | app/export_summary.py:88-97 | `counts.risks` is the number of distinct relevant risk ids |
| ExportSummary.MitigatedTitlesAreRiskTitles | app/export_summary.py:112-122 | each mitigated-risk title is the title of the summary risk with that id |
| ExportSummary.SummaryToMarkdown | app/export_summary.py:182-256 | the line building returns the rendered document of the summary |
| ExportSummary.AppendSection | app/export_summary.py:199-254 | one section: a blank line, the heading, then the item lines or the placeholder |
| ExportSummary.SectionShapes | app/export_summary.py:196-254 | each section has its heading second, then its placeholder iff it has no items |
| ExportSummary.SectionShape | app/export_summary.py:199-254 | a section is a blank line, its heading, then its placeholder exactly when it has no items |
| ExportSummary.RiskSectionShape | app/export_summary.py:199-210 | "## Risks", then "- None identified." iff there are no risks |
| ExportSummary.ControlSectionShape | app/export_summary.py:212-226 | "## Controls", then "- None mapped." iff there are no controls |
| ExportSummary.PracticeSectionShape | app/export_summary.py:228-240 | "## Practices", then "- None available." iff there are no practices |
| ExportSummary.ToolSectionShape | app/export_summary.py:242-254 | "## Recommended Tools", then "- None mapped from framework references." iff there are no tools |
| ExportSummary.PreambleShape | app/export_summary.py:186-195 | the preamble opens with the title line, a blank line, and a line starting with a non-space |
| ExportSummary.SectionsInOrder | app/export_summary.py:186-254 | the document lists its four sections in the fixed order Risks, Controls, Practices, Recommended Tools |
| ExportSummary.MarkdownFrame | app/export_summary.py:186-256 | the document starts with its title line and ends with exactly one newline |
| ExportSummary.RenderedFrame | app/export_summary.py:256 | joined lines, stripped, plus a newline: the text starts with the first line and ends with exactly one newline |
| ErDiagram.EntityName | scripts/generate_er_diagram.py:40-41 | each character is upper-cased in place, so the name keeps its length and has no lower-case ASCII letter |
| ErDiagram.EntityNameIdempotent | scripts/generate_er_diagram.py:40-41 | upper-casing twice is upper-casing once |
| ErDiagram.FormatType | scripts/generate_er_diagram.py:44-53 | arrays become the lowered udt name without leading `_` plus "[]"; the two timestamp types are abbreviated; any other type is lower-cased character by character with each space turned into `_` |
| ErDiagram.FormatTypeIgnoresCase | scripts/generate_er_diagram.py:45-46 | the type mapping ignores the case of both inputs |
| ErDiagram.SplitTopLevelCommas | scripts/generate_er_diagram.py:168-203 | the character loop computes the top-level split |
| ErDiagram.FeedChar | scripts/generate_er_diagram.py:177-198 | one character: quotes toggle their mode, parentheses nest (never below 0), a comma at depth 0 outside quotes ends a piece |
| ErDiagram.SplitTopLevelClean | scripts/generate_er_diagram.py:192-202 | every piece is non-empty and stripped |
| ErDiagram.ScanInsideParens | scripts/generate_er_diagram.py:186-198 | inside parentheses, text without quotes or parentheses joins the current piece, commas included |
| ErDiagram.ScanInsideQuote | scripts/generate_er_diagram.py:177-198 | inside an open quote, text without that quote character joins the current piece, commas and parentheses included |
| ErDiagram.SplitTopLevelKeepsParens | scripts/generate_er_diagram.py:168-203 | a word with a parenthesised list, then a top-level comma, is one piece, followed by the split of the rest |
| ErDiagram.SplitTopLevelKeepsQuoted | scripts/generate_er_diagram.py:168-203 | a word with a single- or double-quoted text, then a top-level comma, is one piece, followed by the split of the rest |
| ErDiagram.SplitTopLevelOfPlain | scripts/generate_er_diagram.py:168-203 | without quotes and parentheses the split is the ordinary comma split, stripped, with empty pieces dropped |
| ErDiagram.StripQuotes | scripts/generate_er_diagram.py:231 | one piece per name, each stripped of surrounding double quotes |
| ErDiagram.ParseColumnNamesShape | scripts/generate_er_diagram.py:230-231 | no parsed name holds a comma, and none starts or ends with a double quote |
| ErDiagram.ParseColumnNamesOfJoin | scripts/generate_er_diagram.py:230-231 | plain names written comma-separated are read back unchanged |
| ErDiagram.ParseColumnNamesIsTopLevelSplit | scripts/generate_er_diagram.py:230-231 | on plain text the name list is the top-level split with quotes stripped |
| ErDiagram.TypeTokens | scripts/generate_er_diagram.py:220-226 | a prefix of the tokens with no keyword, ending at the first keyword (compared in upper case) |
| ErDiagram.ParseColumnType | scripts/generate_er_diagram.py:206-227 | the method computes the type of the definition |
| ErDiagram.TakeTypeTokens | scripts/generate_er_diagram.py:222-226 | the token loop stops at the first keyword |
| ErDiagram.TypeTokensStop | scripts/generate_er_diagram.py:222-226 | with no keyword before position i and a keyword at i (or the end), the type tokens are the first i |
| ErDiagram.GroupColumnsByTable | scripts/generate_er_diagram.py:146-150 | a table is a key iff it has columns, and its list is its columns in input order |
| ErDiagram.ColumnsOf | scripts/generate_er_diagram.py:146-150 | a table's columns are exactly the input columns with that table name |
| ErDiagram.ColumnsGroupedStep | scripts/generate_er_diagram.py:148-149 | appending a column to its table's list keeps the grouping invariant |
| ErDiagram.GroupFkRelationships | scripts/generate_er_diagram.py:153-165 | the loop computes one group per constraint, in first-seen order |
| ErDiagram.AddFkRow | scripts/generate_er_diagram.py:156-164 | a new constraint gets a group with its first row's tables; every row appends its pair |
| ErDiagram.FirstRowOf | scripts/generate_er_diagram.py:157-163 | the row that creates a constraint's group is an input row of that constraint |
| ErDiagram.GroupStep | scripts/generate_er_diagram.py:155-164 | one more row appends the constraint name once, adds its pair to an existing group or opens a group with its tables, and leaves other groups alone |
| ErDiagram.GroupedSnoc | scripts/generate_er_diagram.py:155-164 | the grouping invariant survives one more row |
| ErDiagram.FkGroupsOrder | scripts/generate_er_diagram.py:153-165 | the groups name each constraint once, in the order the constraints first appear, and every row's constraint has a group |
| ErDiagram.PairsOfMeaning | scripts/generate_er_diagram.py:164 | a pair is listed for a constraint iff some row of that constraint gives it |
| ErDiagram.RowInItsGroup | scripts/generate_er_diagram.py:157-164 | every row's pair lands in its constraint's group, whose tables are those of the constraint's first row |
| ErDiagram.ColumnLineTags | scripts/generate_er_diagram.py:351-358 | an attribute line ends in " PK FK", " PK", " FK" or nothing, exactly as the column is in the primary and foreign keys; PK comes before FK |
| ErDiagram.TagTextOf | scripts/generate_er_diagram.py:351-357 | the tag suffix is " PK FK", " PK", " FK" or "", by key membership |
| ErDiagram.RenderMermaid | scripts/generate_er_diagram.py:336-368 | the loops build the diagram text |
| ErDiagram.RenderEntity | scripts/generate_er_diagram.py:346-359 | one table's block |
| ErDiagram.AppendColumnLines | scripts/generate_er_diagram.py:348-358 | one attribute line per column, in order |
| ErDiagram.ColumnLinesAt | scripts/generate_er_diagram.py:348-358 | attribute line k belongs to column k |
| ErDiagram.EntityBlockShape | scripts/generate_er_diagram.py:346-359 | a block opens with the entity name, closes with a brace, and has one line per column between |
| ErDiagram.RelationLinesAt | scripts/generate_er_diagram.py:361-365 | one relationship line per group, in order |
| ErDiagram.MermaidFrame | scripts/generate_er_diagram.py:343-368 | the text starts with the `erDiagram` line and ends with a newline |
| Architecture.CloseAt | app/architecture.py:55 | a closing `\n---` followed by blank space up to a newline |
| Architecture.StripFrontmatter | app/architecture.py:60-62 | text that does not start with `---` is only stripped |
| Architecture.StripFrontmatterAt | app/architecture.py:60-62 | when a front matter block ends at e, the result is the rest after e, stripped |
| Architecture.FrontmatterIsBlock | app/architecture.py:55 | what the pattern removes is exactly one front matter block |
| Architecture.BlockIsFound | app/architecture.py:55 | whenever the text begins with a front matter block, the pattern removes one |
| Architecture.StripsOneBlock | app/architecture.py:55-62 | `---`, a body without a closing fence, the fence and the rest give the rest stripped: only one block is removed |
| Architecture.SimpleBlockEnd | app/architecture.py:55 | on such a text the pattern ends inside the blank space after the fence |
| Architecture.CapturedId | app/architecture.py:57 | a capture needs indentation, is non-empty, holds no whitespace, and starts the stripped line |
| Architecture.Capture | app/architecture.py:57 | a capture is a non-empty prefix of the text after the indentation, without whitespace |
| Architecture.BeforeFirst | app/architecture.py:95 | `split(pat)[0]`: the longest prefix before the first occurrence |
| Architecture.NodeDefId | app/architecture.py:91-95 | a line defines an id iff the pattern captures on it (so the line is indented); the id is a prefix of the capture |
| Architecture.NodeDefIdMeaning | app/architecture.py:95 | a node id holds no whitespace and no ":::" |
| Architecture.NodeDefIdOfDefinition | app/architecture.py:92-95 | an indented `raw[caption]` line defines `raw` cut at ":::" |
| Architecture.CapturedIdOfDefinition | app/architecture.py:57 | the pattern captures `raw` on an indented `raw[caption]` line |
| Architecture.FoundMeaning | app/architecture.py:91-95 | a value is collected iff some line yields it |
| Architecture.CollectDefinedNodeIds | app/architecture.py:88-96 | the loop collects the ids of the definition lines |
| Architecture.AddNodeId | app/architecture.py:92-95 | a definition line adds its id, any other line nothing |
| Architecture.KeepIn | app/architecture.py:110 | exactly the listed ids that are defined are kept, without repeats |
| Architecture.KeepInOrder | app/architecture.py:110 | the kept ids keep their order |
| Architecture.StyleLines | app/architecture.py:115 | one style line per id, in order |
| Architecture.HighlightNodes | app/architecture.py:106-107 | no ids or no code: the code comes back unchanged |
| Architecture.HighlightedIdsMeaning | app/architecture.py:109-110 | exactly the requested ids that the diagram defines are highlighted, each once, in first-request order |
| Architecture.HighlightNodesUnchanged | app/architecture.py:112-113 | with no requested id defined, the code comes back unchanged |
| Architecture.HighlightNodesAppends | app/architecture.py:115-116 | when some requested id is defined, the result is the right-stripped code, the header, the style lines joined by newlines, and a final newline |
| Architecture.NamedComponents | app/architecture.py:170 | the components other than "all" and "none" |
| Architecture.GetAssessmentHighlights | app/architecture.py:156-173 | the loops compute the de-duplicated risks, then the controls, each followed by its named components |
| Architecture.AddRisks | app/architecture.py:160-162 | each relevant risk once, in order |
| Architecture.AddControl | app/architecture.py:164-171 | one control: itself if new, then its named components if it has details |
| Architecture.AddComponents | app/architecture.py:169-171 | each new named component, in order |
| Architecture.AssessmentHighlightsMeaning | app/architecture.py:156-173 | no duplicates; the de-duplicated risks come first; every risk, control and named component of a control with details is present; "all" and "none" appear only when given as a risk or a control |
| Architecture.ControlCandidatesMembers | app/architecture.py:164-171 | every control and every named component of a control with details is a candidate |
| NavigatorXlsx.StepIdsMeaning | scripts/hooks/issue_template_generator/ai_navigator_to_xlsx.py:21-24 | an id is listed iff some step carries it, non-empty |
| NavigatorXlsx.StepIds | scripts/hooks/issue_template_generator/ai_navigator_to_xlsx.py:21-24 | every listed id is non-empty |
| NavigatorXlsx.FirstWithId | scripts/hooks/issue_template_generator/ai_navigator_to_xlsx.py:25-26 | the first step with the id carries that id |
| NavigatorXlsx.MergeStepsById | scripts/hooks/issue_template_generator/ai_navigator_to_xlsx.py:16-39 | the loop returns one merged step per id, in first-appearance order |
| NavigatorXlsx.AbsorbStep | scripts/hooks/issue_template_generator/ai_navigator_to_xlsx.py:21-37 | one step: skipped without an id; copied with fresh lists when new; otherwise its fields, sections and blocks extend the merged step |
| NavigatorXlsx.MergedSnoc | scripts/hooks/issue_template_generator/ai_navigator_to_xlsx.py:21-37 | the merge invariant survives one more step |
| NavigatorXlsx.MergedStepsIds | scripts/hooks/issue_template_generator/ai_navigator_to_xlsx.py:16-39 | the merged steps carry distinct non-empty ids, exactly the input's ids |
| NavigatorXlsx.MergedStepsOrder | scripts/hooks/issue_template_generator/ai_navigator_to_xlsx.py:21-39 | the merged steps follow the order in which their ids first appear |
| NavigatorXlsx.GatherAppend | scripts/hooks/issue_template_generator/ai_navigator_to_xlsx.py:33-37 | the lists gathered over two runs of steps are concatenated in input order |
| NavigatorXlsx.UniqueStepKept | scripts/hooks/issue_template_generator/ai_navigator_to_xlsx.py:25-31 | a step whose id no other step carries comes out as itself, with its blocks under `repeatingBlocks` |
| NavigatorXlsx.MergedOfIsolated | scripts/hooks/issue_template_generator/ai_navigator_to_xlsx.py:25-31 | a step whose id occurs nowhere else is merged into a copy of itself |
| NavigatorXlsx.MergeOfDistinct | scripts/hooks/issue_template_generator/ai_navigator_to_xlsx.py:16-39 | steps with distinct ids, their blocks under `repeatingBlocks`, come through unchanged |
| NavigatorXlsx.MergeIdempotent | scripts/hooks/issue_template_generator/ai_navigator_to_xlsx.py:16-39 | merging merged steps changes nothing |
| NavigatorXlsx.BoolStr | scripts/hooks/issue_template_generator/ai_navigator_to_xlsx.py:113-117 | "yes" iff the value is True itself, "no" iff it is False itself, else "" (also for missing, empty or non-mapping constraints) |
| NavigatorXlsx.BoolStrIsIdentity | scripts/hooks/issue_template_generator/ai_navigator_to_xlsx.py:117 | a constraint equal to True but not True itself (1) gives "" |
| NavigatorXlsx.OptionsString | scripts/hooks/issue_template_generator/ai_navigator_to_xlsx.py:78-84 | non-empty options: starts with the first option; else a truthy source: its type in brackets; else "" |
| NavigatorXlsx.OptionsStringSplits | scripts/hooks/issue_template_generator/ai_navigator_to_xlsx.py:82 | when no option's text holds a vertical bar, splitting the column at the bars gives back one piece per option, with the separator's spaces around it |
| NavigatorXlsx.Padded | scripts/hooks/issue_template_generator/ai_navigator_to_xlsx.py:82 | one padded piece per option |
| NavigatorXlsx.JoinPadded | scripts/hooks/issue_template_generator/ai_navigator_to_xlsx.py:82 | joining with the spaced bar separator is joining the padded pieces with a bare bar |
| NavigatorXlsx.RowsFor | scripts/hooks/issue_template_generator/ai_navigator_to_xlsx.py:51-53 | one row per field, in order, in the given context |
| NavigatorXlsx.SectionRowsShape | scripts/hooks/issue_template_generator/ai_navigator_to_xlsx.py:56-61 | one row per section field, in order, in a context that differs from the step's only in the section columns |
| NavigatorXlsx.BlockRowsShape | scripts/hooks/issue_template_generator/ai_navigator_to_xlsx.py:63-70 | one row per block field, in order, in a context that differs from the step's only in the block columns |
| NavigatorXlsx.StepRowsLayout | scripts/hooks/issue_template_generator/ai_navigator_to_xlsx.py:44-70 | one row per direct, section and block field, in that order, all with the step's id and title; direct rows have no section or block, section rows no block, block rows no section |
| NavigatorXlsx.AllRowsFields | scripts/hooks/issue_template_generator/ai_navigator_to_xlsx.py:42-72 | the row count is the total field count, and row k has the columns of field k |
| NavigatorXlsx.AppendFieldRows | scripts/hooks/issue_template_generator/ai_navigator_to_xlsx.py:51-53 | the field loop appends one row per field |
| NavigatorXlsx.AppendSectionRows | scripts/hooks/issue_template_generator/ai_navigator_to_xlsx.py:56-61 | the section loop, reassigning the section columns, appends the sections' rows |
| NavigatorXlsx.AppendBlockRows | scripts/hooks/issue_template_generator/ai_navigator_to_xlsx.py:64-70 | the block loop, reassigning the block columns, appends the blocks' rows |
| NavigatorXlsx.AppendStepRows | scripts/hooks/issue_template_generator/ai_navigator_to_xlsx.py:45-70 | one step's rows, with the section columns reset before the blocks |
| NavigatorXlsx.IterFields | scripts/hooks/issue_template_generator/ai_navigator_to_xlsx.py:42-72 | the loop returns the rows of all steps, in order |
| NavigatorXlsx.FieldsSheet | scripts/hooks/issue_template_generator/ai_navigator_to_xlsx.py:126-137 | the sheet's rows are the merged steps, flattened |

## Left out

- Streamlit rendering is not modelled: `_render_*`, `render_ai_inventory`, `_render_progress_summary` and the repeating-block add/delete controls.
- Session state is not modelled (`_inv`, `_get_repeat_blocks_data`). The form data and the repeating-block rows are parameters.
- The database controls and `_handle_submit` are not modelled, because they do storage I/O.
- Reading YAML files and the loader's lazy properties are not modelled. The risk, control and persona catalogs and the framework metadata are given as maps; `get_control_details` is a map from control id to its components.
- Database access in the ER generator is not modelled: `_connect_target`, the `_fetch_*` queries, `_write_markdown_wrapper` and `main`. Their rows are parameters.
- `_parse_sql_schema` is not modelled, because it is regex-driven.
- In the spreadsheet export, `_to_excel` (pandas and openpyxl) and `main` are not modelled. The "Fields" sheet's rows are modelled; the other sheets and the running-number column are not.
- `render_mermaid`, `render_architecture_page` and `load_mermaid_file` are not modelled: they are HTML, file reading and caching.
- Catalog entries are mappings that at least carry an id. So the truthiness tests on a looked-up risk or control are modelled as catalog membership.
- `generatedAt` is a parameter, because it comes from the clock.
- `_compact_text` is a parameter, because it relies on regex and `html.unescape`. `ExportSummary.FirstSentence` works on text that is already compacted. The `compact` parameter of `ExportSummary.BuildSummary` and the entry builders may be any function: no contract relies on what it does, so the entry texts are stated only as `compact` applied to the source text.
- `summary_to_json` is not modelled: it is JSON serialisation.
- `summary_to_markdown` is modelled over the typed summary that the builder produces, so every key is present.
- NavigatorXlsx.ColumnsOf: only the "key", "options", "immutable" and "required" columns are modelled. Neither are the label, type, relevance, guidance and other-detail columns (plain lookups), nor the `visible_when` and `constraints` columns (`yaml.dump` output).
- A YAML null in a key that the model reads as a string, a list or a mapping is read like a missing key. Python treats the two differently in the following places, and the model does not follow it there:
  - `.get(key, default)` that meets an explicit null: Python crashes or prints "None". For example, a null `type` in an options source prints "[None]".
  - `"flag" in cond` (app/pages/ai_inventory.py:148): Python takes the flag branch for a null `flag` and looks up the key `None`. The model evaluates the condition as a field condition.
  - `"options" in field` (app/pages/ai_inventory.py:115): Python crashes on a null `options`. The model falls back to the catalog.
  - `"any" in when` and `"all" in when` (app/pages/ai_inventory.py:197-200): Python crashes iterating a null list. The model falls through to the next test.
  A key the model holds as `Option<Value>`, such as `equals`, keeps the two apart: an explicit null there is `Some(VNone)`.
- Dict-valued and float values are not modelled. This covers number inputs, progress fractions and an option that is a mapping. `str()` of a list escapes quotes and control characters; that escaping is not modelled.
- ErDiagram.EntityName: upper-casing is ASCII-only, because Python's full Unicode case mapping (including one-to-many mappings such as "ß" to "SS") is not modelled. The same holds for the case folding in `ErDiagram.FormatType` and for the keyword test in `ErDiagram.TypeTokens`.
- ExportSummary.Preamble: the risk-tier line upper-cases the label with the ASCII-only `Upper`, while app/export_summary.py:190 calls `str.upper()`. A label with non-ASCII letters is therefore rendered differently.
- NavigatorXlsx.MergeStepsById: steps are values, so the merge cannot mutate its input. That the source builds fresh lists before extending them is therefore not a separate property of the model.
- NavigatorXlsx.AbsorbStep: keys of a step other than its id, title, fields, sections and repeating blocks are not modelled. The merged step otherwise copies the first step with that id.
