/** The portable assessment summary offered for download on the Results page:
    the relevant risks, the controls that address them, one practice per
    control, the frameworks those risks and controls map to, and the Markdown
    rendering of the whole. */
module ExportSummary {
  import opened Values
  import opened Text
  import opened Seqs
  import opened DataLoader

  // --------------------------------------------------------- first sentence

  /** The end of a sentence: position `p` follows '.', '!' or '?' and holds
      whitespace (a match start of the lookbehind pattern used). */
  predicate IsSentenceEnd(text: string, p: int) {
    1 <= p < |text| && text[p - 1] in ".!?" && IsSpace(text[p])
  }

  /** The leftmost sentence end at or after `from`, if any. */
  function SentenceEndFrom(text: string, from: nat): (r: Option<nat>)
    ensures r.Some? ==> from <= r.value && IsSentenceEnd(text, r.value)
    ensures r.Some? ==> forall p :: from <= p < r.value ==> !IsSentenceEnd(text, p)
    ensures r.None? ==> forall p :: from <= p ==> !IsSentenceEnd(text, p)
    decreases |text| - from
  {
    if from >= |text| then None
    else if IsSentenceEnd(text, from) then Some(from)
    else SentenceEndFrom(text, from + 1)
  }

  /** `_first_sentence` on already compacted text: "" for "", the text up to
      (and stripped before) the first sentence end, or the whole text when it
      has none. */
  function FirstSentence(text: string): (r: string)
    ensures text == "" ==> r == ""
    ensures (forall p :: !IsSentenceEnd(text, p)) ==> r == text
    ensures forall p :: IsSentenceEnd(text, p) && (forall q :: 0 <= q < p ==> !IsSentenceEnd(text, q)) ==>
              r == Strip(text[..p])
  {
    FirstEndIsFound(text);
    if text == "" then ""
    else
      match SentenceEndFrom(text, 0)
      case None => text
      case Some(p) => Strip(text[..p])
  }

  /** Every sentence end with none before it is the one the search finds. */
  lemma FirstEndIsFound(text: string)
    ensures forall p :: IsSentenceEnd(text, p) && (forall q :: 0 <= q < p ==> !IsSentenceEnd(text, q)) ==>
              SentenceEndFrom(text, 0) == Some(p)
  {
    var r := SentenceEndFrom(text, 0);
    forall p | IsSentenceEnd(text, p) && (forall q :: 0 <= q < p ==> !IsSentenceEnd(text, q))
      ensures r == Some(p)
    {
      assert r.Some?;
      assert !(r.value < p);
    }
  }

  /** When the text has a sentence end, the first sentence is the stretch of
      the text from its first non-space character up to that end: it is
      non-empty and ends with the punctuation mark. */
  lemma FirstSentenceEndsWithMark(text: string, p: nat) returns (a: nat)
    requires IsSentenceEnd(text, p)
    requires forall q :: 0 <= q < p ==> !IsSentenceEnd(text, q)
    ensures a < p && FirstSentence(text) == text[a..p]
  {
    var m := text[p - 1];
    assert m == '.' || m == '!' || m == '?';
    a := StripEndingInNonSpace(text[..p]);
    assert text[..p][a..] == text[a..p];
  }

  // ------------------------------------------------------------- categories

  /** `_normalize_category`: the label without the internal prefix `suffix` and
      the word "Control", stripped; "Other" when nothing is left. */
  function NormalizeCategory(value: string, suffix: string): (r: string)
    ensures r != ""
    ensures r != [] ==> !IsSpace(r[0]) && !IsSpace(r[|r| - 1])
    ensures value == "" ==> r == "Other"
    ensures value != "" ==>
              r == (var n := Strip(RemoveAll(RemoveAll(value, suffix), "Control"));
                    if n == "" then "Other" else n)
  {
    if value == "" then "Other"
    else
      var n := Strip(RemoveAll(RemoveAll(value, suffix), "Control"));
      if n == "" then "Other" else n
  }

  /** A clean label (no prefix, no "Control", no surrounding spaces) is kept as it is. */
  lemma NormalizeCategoryKeepsCleanLabel(value: string, suffix: string)
    requires value != ""
    requires !Occurs(suffix, value) && !Occurs("Control", value)
    requires !IsSpace(value[0]) && !IsSpace(value[|value| - 1])
    ensures NormalizeCategory(value, suffix) == value
  {
    RemoveAbsent(value, suffix);
    RemoveAbsent(value, "Control");
    StripUnchanged(value);
  }

  /** An internal label made of the prefix, a clean name and the word "Control"
      normalizes to the clean name alone. */
  lemma NormalizeCategoryDropsPrefixAndControl(name: string, suffix: string)
    requires suffix != "" && name != ""
    requires !Occurs(suffix, name + "Control") && !Occurs("Control", name)
    requires !IsSpace(name[0]) && !IsSpace(name[|name| - 1])
    ensures NormalizeCategory(suffix + name + "Control", suffix) == name
  {
    var v := suffix + name + "Control";
    assert v[..|suffix|] == suffix;
    assert v[|suffix|..] == name + "Control";
    RemoveAbsent(name + "Control", suffix);
    assert RemoveAll(v, suffix) == name + "Control";
    forall k | 0 <= k < |name| ensures !OccursAt("Control", name + "Control", k) {
      if k + 7 <= |name| {
        assert name[k..k + 7] == (name + "Control")[k..k + 7];
        assert !OccursAt("Control", name, k);
      } else {
        // the window would have to hold the final word's capital C past its start
        var j := |name| - k;
        assert (name + "Control")[k..k + 7][j] == (name + "Control")[k + j] == 'C';
        assert "Control"[j] != 'C';
      }
    }
    RemoveAllSkips(name, "Control", "Control");
    assert "Control"[..7] == "Control";
    assert RemoveAll("Control", "Control") == "";
    assert name + "" == name;
    StripUnchanged(name);
  }

  // --------------------------------------------------------- framework hits

  /** What the summary gathers for one framework: the ids mapped to it and
      whether risks, controls or both contributed them. */
  datatype Hit = Hit(mappedItems: set<string>, sources: set<string>)

  /** The framework mappings of one risk or control, tagged with the kind of
      document ("risks" or "controls") they come from. */
  datatype MappingDoc = MappingDoc(mappings: map<string, seq<Value>>, source: string)

  /** A document feeds framework `f` when it maps to `f` with a non-empty list. */
  predicate Feeds(d: MappingDoc, f: string) {
    f in d.mappings && d.mappings[f] != []
  }

  /** `str(mid) for mid in ids if mid`, as a set. */
  function MappedIds(ids: seq<Value>): set<string> {
    set v | v in ids && Truthy(v) :: PyStr(v)
  }

  /** The hits after one more document: each framework it feeds gains its ids and its source. */
  function AddMappings(hits: map<string, Hit>, d: MappingDoc): map<string, Hit> {
    map f | f in hits.Keys + d.mappings.Keys && (f in hits || Feeds(d, f)) ::
      if Feeds(d, f) then
        var h := if f in hits then hits[f] else Hit({}, {});
        Hit(h.mappedItems + MappedIds(d.mappings[f]), h.sources + {d.source})
      else hits[f]
  }

  /** The hits after the documents `docs`, in order, starting from `hits`. */
  function HitsOnto(hits: map<string, Hit>, docs: seq<MappingDoc>): map<string, Hit>
    decreases |docs|
  {
    if docs == [] then hits else AddMappings(HitsOnto(hits, docs[..|docs| - 1]), docs[|docs| - 1])
  }

  function HitsFrom(docs: seq<MappingDoc>): map<string, Hit> {
    HitsOnto(map[], docs)
  }

  lemma {:induction false} HitsOntoAppend(hits: map<string, Hit>, a: seq<MappingDoc>, b: seq<MappingDoc>)
    ensures HitsOnto(hits, a + b) == HitsOnto(HitsOnto(hits, a), b)
    decreases |b|
  {
    if b == [] {
      assert a + b == a;
    } else {
      assert (a + b)[..|a + b| - 1] == a + b[..|b| - 1];
      HitsOntoAppend(hits, a, b[..|b| - 1]);
    }
  }

  /** The documents `_collect_framework_hits` reads, in its order: the risks,
      then the controls, each tagged with the kind it comes from. */
  function ScannedDocs(risks: seq<RiskDoc>, controls: seq<ControlDoc>): (r: seq<MappingDoc>)
    ensures |r| == |risks| + |controls|
    ensures forall k :: 0 <= k < |risks| ==> r[k] == MappingDoc(risks[k].mappings, "risks")
    ensures forall k :: 0 <= k < |controls| ==> r[|risks| + k] == MappingDoc(controls[k].mappings, "controls")
  {
    seq(|risks| + |controls|, k requires 0 <= k < |risks| + |controls| =>
      if k < |risks| then MappingDoc(risks[k].mappings, "risks")
      else MappingDoc(controls[k - |risks|].mappings, "controls"))
  }

  /** `_collect_framework_hits`: the risks' mappings, then the controls'. */
  method CollectFrameworkHits(risks: seq<RiskDoc>, controls: seq<ControlDoc>) returns (hits: map<string, Hit>)
    ensures hits == HitsFrom(ScannedDocs(risks, controls))
  {
    var riskDocs, controlDocs := ScannedDocs(risks, []), ScannedDocs([], controls);
    hits := AddAllMappings(map[], riskDocs);
    hits := AddAllMappings(hits, controlDocs);
    HitsOntoAppend(map[], riskDocs, controlDocs);
    ScannedDocsSplit(risks, controls);
  }

  /** The two loops' documents, one after the other, are the scanned documents. */
  lemma ScannedDocsSplit(risks: seq<RiskDoc>, controls: seq<ControlDoc>)
    ensures ScannedDocs(risks, []) + ScannedDocs([], controls) == ScannedDocs(risks, controls)
  {
    var l, r, w := ScannedDocs(risks, []), ScannedDocs([], controls), ScannedDocs(risks, controls);
    forall k | 0 <= k < |w| ensures (l + r)[k] == w[k] {
      if k >= |risks| {
        var j := k - |risks|;
        assert w[k] == w[|risks| + j];
        assert r[j] == MappingDoc(controls[j].mappings, "controls");
      }
    }
  }

  /** One of the two document loops of `_collect_framework_hits`. */
  method AddAllMappings(hits0: map<string, Hit>, docs: seq<MappingDoc>) returns (hits: map<string, Hit>)
    ensures hits == HitsOnto(hits0, docs)
  {
    hits := hits0;
    var i := 0;
    while i < |docs|
      invariant 0 <= i <= |docs|
      invariant hits == HitsOnto(hits0, docs[..i])
    {
      HitsOntoStep(hits0, docs, i);
      hits := AddDocMappings(hits, docs[i]);
      i := i + 1;
    }
    assert docs[..i] == docs;
  }

  lemma HitsOntoStep(hits: map<string, Hit>, docs: seq<MappingDoc>, i: nat)
    requires i < |docs|
    ensures HitsOnto(hits, docs[..i + 1]) == AddMappings(HitsOnto(hits, docs[..i]), docs[i])
  {
    assert docs[..i + 1][..i] == docs[..i];
  }

  /** One document's `mappings.items()` loop: `setdefault` then `update` and `add`. */
  method AddDocMappings(hits0: map<string, Hit>, d: MappingDoc) returns (hits: map<string, Hit>)
    ensures hits == AddMappings(hits0, d)
  {
    hits := hits0;
    var todo := d.mappings.Keys;
    while todo != {}
      invariant todo <= d.mappings.Keys
      invariant hits == AddMappings(hits0, MappingDoc(d.mappings - todo, d.source))
      decreases todo
    {
      var f :| f in todo;
      var ids := d.mappings[f];
      ghost var before := MappingDoc(d.mappings - todo, d.source);
      todo := todo - {f};
      ghost var after := MappingDoc(d.mappings - todo, d.source);
      if ids != [] {
        var entry := if f in hits then hits[f] else Hit({}, {});
        hits := hits[f := Hit(entry.mappedItems + MappedIds(ids), entry.sources + {d.source})];
      }
      AddMappingsStep(hits0, before, after, f);
    }
    assert d.mappings - todo == d.mappings;
  }

  lemma AddMappingsStep(hits0: map<string, Hit>, before: MappingDoc, after: MappingDoc, f: string)
    requires after.source == before.source && f !in before.mappings
    requires f in after.mappings && after.mappings == before.mappings[f := after.mappings[f]]
    ensures AddMappings(hits0, after) ==
            if after.mappings[f] == [] then AddMappings(hits0, before)
            else
              var hits := AddMappings(hits0, before);
              var entry := if f in hits then hits[f] else Hit({}, {});
              hits[f := Hit(entry.mappedItems + MappedIds(after.mappings[f]), entry.sources + {after.source})]
  {
    var b := AddMappings(hits0, before);
    var a := AddMappings(hits0, after);
    var r := if after.mappings[f] == [] then b
             else
               var entry := if f in b then b[f] else Hit({}, {});
               b[f := Hit(entry.mappedItems + MappedIds(after.mappings[f]), entry.sources + {after.source})];
    forall g
      ensures g in a <==> g in r
      ensures g in a ==> a[g] == r[g]
    {
      AddMappingsAt(hits0, before, g);
      AddMappingsAt(hits0, after, g);
    }
    MapsEqual(a, r);
  }

  /** What one more document does to the entry of framework `f`. */
  lemma AddMappingsAt(hits: map<string, Hit>, d: MappingDoc, f: string)
    ensures f in AddMappings(hits, d) <==> f in hits || Feeds(d, f)
    ensures f in AddMappings(hits, d) && !Feeds(d, f) ==> AddMappings(hits, d)[f] == hits[f]
    ensures Feeds(d, f) ==>
              var h := if f in hits then hits[f] else Hit({}, {});
              AddMappings(hits, d)[f] == Hit(h.mappedItems + MappedIds(d.mappings[f]), h.sources + {d.source})
  {
  }

  /** A framework has a hit exactly when some document feeds it. */
  lemma {:induction false} HitsKeys(docs: seq<MappingDoc>, f: string)
    ensures f in HitsFrom(docs) <==> exists i :: 0 <= i < |docs| && Feeds(docs[i], f)
    decreases |docs|
  {
    if docs != [] {
      var n := |docs| - 1;
      var p := docs[..n];
      HitsKeys(p, f);
      AddMappingsAt(HitsFrom(p), docs[n], f);
      if exists i :: 0 <= i < |docs| && Feeds(docs[i], f) {
        var i :| 0 <= i < |docs| && Feeds(docs[i], f);
        if i < n {
          assert p[i] == docs[i];
        }
      }
      if exists i :: 0 <= i < n && Feeds(p[i], f) {
        var i :| 0 <= i < n && Feeds(p[i], f);
        assert docs[i] == p[i];
      }
    }
  }

  /** The sources of a hit are the kinds of the documents that feed it. */
  lemma {:induction false} HitSources(docs: seq<MappingDoc>, f: string, src: string)
    requires f in HitsFrom(docs)
    ensures src in HitsFrom(docs)[f].sources <==> exists i :: 0 <= i < |docs| && Feeds(docs[i], f) && docs[i].source == src
    decreases |docs|
  {
    var n := |docs| - 1;
    var p := docs[..n];
    HitsKeys(docs, f);
    HitsKeys(p, f);
    AddMappingsAt(HitsFrom(p), docs[n], f);
    if f in HitsFrom(p) {
      HitSources(p, f, src);
    }
    if exists i :: 0 <= i < |docs| && Feeds(docs[i], f) && docs[i].source == src {
      var i :| 0 <= i < |docs| && Feeds(docs[i], f) && docs[i].source == src;
      if i < n {
        assert p[i] == docs[i];
      }
    }
    if exists i :: 0 <= i < n && Feeds(p[i], f) && p[i].source == src {
      var i :| 0 <= i < n && Feeds(p[i], f) && p[i].source == src;
      assert docs[i] == p[i];
    }
  }

  /** The ids of a hit are the truthy ids, as strings, of the documents that feed it. */
  lemma {:induction false} HitItems(docs: seq<MappingDoc>, f: string, x: string)
    requires f in HitsFrom(docs)
    ensures x in HitsFrom(docs)[f].mappedItems <==>
              exists i :: 0 <= i < |docs| && Feeds(docs[i], f) && x in MappedIds(docs[i].mappings[f])
    decreases |docs|
  {
    var n := |docs| - 1;
    var p := docs[..n];
    HitsKeys(docs, f);
    HitsKeys(p, f);
    AddMappingsAt(HitsFrom(p), docs[n], f);
    if f in HitsFrom(p) {
      HitItems(p, f, x);
    }
    if exists i :: 0 <= i < |docs| && Feeds(docs[i], f) && x in MappedIds(docs[i].mappings[f]) {
      var i :| 0 <= i < |docs| && Feeds(docs[i], f) && x in MappedIds(docs[i].mappings[f]);
      if i < n {
        assert p[i] == docs[i];
      }
    }
    if exists i :: 0 <= i < n && Feeds(p[i], f) && x in MappedIds(p[i].mappings[f]) {
      var i :| 0 <= i < n && Feeds(p[i], f) && x in MappedIds(p[i].mappings[f]);
      assert docs[i] == p[i];
    }
  }

  /** A framework has a hit exactly when some document maps to it with a
      non-empty list; its sources are the kinds of those documents and its ids
      the truthy ids they list, as strings. */
  lemma HitsMeaning(docs: seq<MappingDoc>, f: string)
    ensures f in HitsFrom(docs) <==> exists i :: 0 <= i < |docs| && Feeds(docs[i], f)
    ensures f in HitsFrom(docs) ==>
              forall src :: src in HitsFrom(docs)[f].sources <==>
                exists i :: 0 <= i < |docs| && Feeds(docs[i], f) && docs[i].source == src
    ensures f in HitsFrom(docs) ==>
              forall x :: x in HitsFrom(docs)[f].mappedItems <==>
                exists i :: 0 <= i < |docs| && Feeds(docs[i], f) && x in MappedIds(docs[i].mappings[f])
  {
    HitsKeys(docs, f);
    if f in HitsFrom(docs) {
      forall src ensures src in HitsFrom(docs)[f].sources <==>
          exists i :: 0 <= i < |docs| && Feeds(docs[i], f) && docs[i].source == src {
        HitSources(docs, f, src);
      }
      forall x ensures x in HitsFrom(docs)[f].mappedItems <==>
          exists i :: 0 <= i < |docs| && Feeds(docs[i], f) && x in MappedIds(docs[i].mappings[f]) {
        HitItems(docs, f, x);
      }
    }
  }

  /** For the summary's documents, a framework's sources are among "risks"
      and "controls", and there is at least one. */
  lemma SummaryHitSources(risks: seq<RiskDoc>, controls: seq<ControlDoc>, f: string)
    requires f in HitsFrom(ScannedDocs(risks, controls))
    ensures var h := HitsFrom(ScannedDocs(risks, controls))[f];
            h.sources <= {"risks", "controls"} && h.sources != {}
  {
    var docs := ScannedDocs(risks, controls);
    HitsKeys(docs, f);
    var h := HitsFrom(docs)[f];
    forall src | src in h.sources ensures src == "risks" || src == "controls" {
      HitSources(docs, f, src);
      var i :| 0 <= i < |docs| && Feeds(docs[i], f) && docs[i].source == src;
      if i >= |risks| {
        assert docs[i] == docs[|risks| + (i - |risks|)];
      }
    }
    var i0 :| 0 <= i0 < |docs| && Feeds(docs[i0], f);
    HitSources(docs, f, docs[i0].source);
  }

  /** "risks" is a source of a framework exactly when some risk maps to it with a non-empty list. */
  lemma SummaryHitFromRisks(risks: seq<RiskDoc>, controls: seq<ControlDoc>, f: string)
    requires f in HitsFrom(ScannedDocs(risks, controls))
    ensures "risks" in HitsFrom(ScannedDocs(risks, controls))[f].sources <==>
            exists k :: 0 <= k < |risks| && f in risks[k].mappings && risks[k].mappings[f] != []
  {
    var docs := ScannedDocs(risks, controls);
    HitSources(docs, f, "risks");
    if exists k :: 0 <= k < |risks| && f in risks[k].mappings && risks[k].mappings[f] != [] {
      var k :| 0 <= k < |risks| && f in risks[k].mappings && risks[k].mappings[f] != [];
      assert Feeds(docs[k], f) && docs[k].source == "risks";
    }
    if "risks" in HitsFrom(docs)[f].sources {
      var i :| 0 <= i < |docs| && Feeds(docs[i], f) && docs[i].source == "risks";
      assert i < |risks|;
    }
  }

  /** "controls" is a source of a framework exactly when some control maps to it with a non-empty list. */
  lemma SummaryHitFromControls(risks: seq<RiskDoc>, controls: seq<ControlDoc>, f: string)
    requires f in HitsFrom(ScannedDocs(risks, controls))
    ensures "controls" in HitsFrom(ScannedDocs(risks, controls))[f].sources <==>
            exists k :: 0 <= k < |controls| && f in controls[k].mappings && controls[k].mappings[f] != []
  {
    var docs := ScannedDocs(risks, controls);
    HitSources(docs, f, "controls");
    if exists k :: 0 <= k < |controls| && f in controls[k].mappings && controls[k].mappings[f] != [] {
      var k :| 0 <= k < |controls| && f in controls[k].mappings && controls[k].mappings[f] != [];
      assert Feeds(docs[|risks| + k], f) && docs[|risks| + k].source == "controls";
    }
    if "controls" in HitsFrom(docs)[f].sources {
      var i :| 0 <= i < |docs| && Feeds(docs[i], f) && docs[i].source == "controls";
      assert i >= |risks| && docs[i] == docs[|risks| + (i - |risks|)];
    }
  }

  // ---------------------------------------------------------------- summary

  datatype RiskEntry = RiskEntry(id: string, title: string, category: string, summary: string)

  datatype ControlEntry = ControlEntry(
    id: string,
    title: string,
    category: string,
    summary: string,
    mitigatesRisks: seq<string>,
    mitigatesRiskTitles: seq<string>)

  datatype PracticeEntry = PracticeEntry(
    id: string,
    title: string,
    practice: string,
    ownerRoles: seq<string>,
    lifecycleStages: seq<string>)

  /** A recommended tool; its `type` is always "framework". */
  datatype ToolEntry = ToolEntry(
    id: string,
    name: string,
    description: string,
    reference: string,
    mappedItems: seq<string>,
    sourcedFrom: seq<string>)

  /** `riskTier`: `tierLabel` is the `label` key. */
  datatype RiskTier = RiskTier(tierLabel: Value, value: Value, escalationTriggers: seq<Value>)

  datatype Counts = Counts(risks: nat, controls: nat, practices: nat, recommendedTools: nat)

  datatype Summary = Summary(
    generatedAt: string,
    riskTier: RiskTier,
    counts: Counts,
    risks: seq<RiskEntry>,
    controls: seq<ControlEntry>,
    practices: seq<PracticeEntry>,
    recommendedTools: seq<ToolEntry>)

  /** The tier assessment the summary copies; `tierLabel` (the `label` key) is
      `None` when the key is absent. */
  datatype TierResult = TierResult(tierLabel: Option<Value>, tier: Value, escalatedRules: seq<Value>)

  datatype Persona = Persona(title: Option<string>)

  /** Framework metadata, keyed by framework id. */
  datatype FrameworkMeta = FrameworkMeta(name: Option<string>, description: Option<string>, baseUri: Option<string>)

  /** `get_risk_details(id) or {"id": id}`. */
  function RiskDetails(id: string, catalog: map<string, RiskDoc>): RiskDoc {
    if id in catalog then catalog[id] else RiskDoc(id, None, None, [], [], map[])
  }

  /** The summary entry of one relevant risk; `compact` is the text compaction
      applied to descriptions. */
  function RiskEntryOf(id: string, catalog: map<string, RiskDoc>, compact: string -> string): RiskEntry {
    var r := RiskDetails(id, catalog);
    RiskEntry(id, r.title.GetOr(id), NormalizeCategory(r.category.GetOr(""), "risks"),
              compact(FormatTextList(r.shortDescription)))
  }

  /** Strictly increasing risk ids. */
  predicate RiskIdsSorted(entries: seq<RiskEntry>) {
    forall i, j :: 0 <= i < j < |entries| ==> StrLt(entries[i].id, entries[j].id)
  }

  /** The risk loop: one entry per distinct relevant id, in sorted order,
      together with the looked-up risk documents. */
  method BuildRiskEntries(relevant: seq<string>, catalog: map<string, RiskDoc>, compact: string -> string)
    returns (entries: seq<RiskEntry>, docs: seq<RiskDoc>)
    ensures RiskIdsSorted(entries)
    ensures forall r :: r in relevant <==> exists k :: 0 <= k < |entries| && entries[k].id == r
    ensures forall k :: 0 <= k < |entries| ==> entries[k] == RiskEntryOf(entries[k].id, catalog, compact)
    ensures docs == RiskDocsOf(entries, catalog)
  {
    var ids := SortSet(set r | r in relevant);
    entries := [];
    docs := [];
    ghost var entryOf := id => RiskEntryOf(id, catalog, compact);
    ghost var detailsOf := id => RiskDetails(id, catalog);
    var i := 0;
    while i < |ids|
      invariant 0 <= i <= |ids| && |entries| == i && |docs| == i
      invariant forall k :: 0 <= k < i ==> entries[k] == entryOf(ids[k])
      invariant forall k :: 0 <= k < i ==> docs[k] == detailsOf(ids[k])
    {
      var risk := RiskDetails(ids[i], catalog);
      var entry := RiskEntry(ids[i], risk.title.GetOr(ids[i]), NormalizeCategory(risk.category.GetOr(""), "risks"),
                             compact(FormatTextList(risk.shortDescription)));
      SnocPointwise(ids, docs, risk, detailsOf);
      SnocPointwise(ids, entries, entry, entryOf);
      docs := docs + [risk];
      entries := entries + [entry];
      i := i + 1;
    }
    RiskEntriesOverIds(relevant, ids, entries, docs, catalog, compact);
  }

  /** The entries built over the sorted distinct ids meet the risk loop's contract. */
  lemma RiskEntriesOverIds(relevant: seq<string>, ids: seq<string>, entries: seq<RiskEntry>, docs: seq<RiskDoc>,
                           catalog: map<string, RiskDoc>, compact: string -> string)
    requires StrictlySorted(ids) && forall y :: y in ids <==> y in relevant
    requires |entries| == |ids| && |docs| == |ids|
    requires forall k :: 0 <= k < |ids| ==> entries[k] == RiskEntryOf(ids[k], catalog, compact)
    requires forall k :: 0 <= k < |ids| ==> docs[k] == RiskDetails(ids[k], catalog)
    ensures RiskIdsSorted(entries)
    ensures forall r :: r in relevant <==> exists k :: 0 <= k < |entries| && entries[k].id == r
    ensures forall k :: 0 <= k < |entries| ==> entries[k] == RiskEntryOf(entries[k].id, catalog, compact)
    ensures docs == RiskDocsOf(entries, catalog)
  {
    forall r ensures r in relevant <==> exists k :: 0 <= k < |entries| && entries[k].id == r {
      if r in relevant {
        assert r in ids;
        var k :| 0 <= k < |ids| && ids[k] == r;
        assert entries[k].id == r;
      }
      if exists k :: 0 <= k < |entries| && entries[k].id == r {
        var k :| 0 <= k < |entries| && entries[k].id == r;
        assert ids[k] in ids;
      }
    }
  }

  /** The risk documents of the entries, as the framework hits read them. */
  function RiskDocsOf(entries: seq<RiskEntry>, catalog: map<string, RiskDoc>): (r: seq<RiskDoc>)
    ensures |r| == |entries|
    ensures forall k :: 0 <= k < |r| ==> r[k] == RiskDetails(entries[k].id, catalog)
  {
    seq(|entries|, k requires 0 <= k < |entries| => RiskDetails(entries[k].id, catalog))
  }

  /** `{item["id"]: item["title"] for item in risk_entries}`: a later entry overrides an earlier one. */
  function TitleById(entries: seq<RiskEntry>): map<string, string>
    decreases |entries|
  {
    if entries == [] then map[]
    else
      var e := entries[|entries| - 1];
      TitleById(entries[..|entries| - 1])[e.id := e.title]
  }

  /** The title map's keys are exactly the entries' ids. */
  lemma {:induction false} TitleByIdKeys(entries: seq<RiskEntry>)
    ensures forall id :: id in TitleById(entries) <==> exists k :: 0 <= k < |entries| && entries[k].id == id
    decreases |entries|
  {
    if entries != [] {
      var n := |entries| - 1;
      var p := entries[..n];
      TitleByIdKeys(p);
      forall id ensures id in TitleById(entries) <==> exists k :: 0 <= k < |entries| && entries[k].id == id {
        if id in TitleById(p) {
          var k :| 0 <= k < |p| && p[k].id == id;
          assert entries[k].id == id;
        }
        if exists k :: 0 <= k < |entries| && entries[k].id == id {
          var k :| 0 <= k < |entries| && entries[k].id == id;
          if k < n {
            assert p[k].id == id;
          }
        }
      }
    }
  }

  /** With distinct ids, the title map sends each entry's id to its title. */
  lemma {:induction false} TitleByIdValues(entries: seq<RiskEntry>)
    requires forall i, j :: 0 <= i < j < |entries| ==> entries[i].id != entries[j].id
    ensures forall k :: 0 <= k < |entries| ==>
              entries[k].id in TitleById(entries) && TitleById(entries)[entries[k].id] == entries[k].title
    decreases |entries|
  {
    if entries != [] {
      var n := |entries| - 1;
      var p := entries[..n];
      TitleByIdValues(p);
      forall k | 0 <= k < n ensures entries[k] == p[k] {
      }
    }
  }

  /** With distinct ids, the title map sends each entry's id to its title and has no other keys. */
  lemma TitleByIdMeaning(entries: seq<RiskEntry>)
    requires forall i, j :: 0 <= i < j < |entries| ==> entries[i].id != entries[j].id
    ensures forall k :: 0 <= k < |entries| ==>
              entries[k].id in TitleById(entries) && TitleById(entries)[entries[k].id] == entries[k].title
    ensures forall id :: id in TitleById(entries) <==> exists k :: 0 <= k < |entries| && entries[k].id == id
  {
    TitleByIdKeys(entries);
    TitleByIdValues(entries);
  }

  /** `[c for c in controls if c and c.get("id")]`. */
  function ControlsWithId(controls: seq<ControlDoc>): (r: seq<ControlDoc>)
    ensures forall c :: c in r <==> c in controls && c.id != ""
    ensures |r| <= |controls|
    decreases |controls|
  {
    if controls == [] then []
    else
      var c := controls[|controls| - 1];
      ControlsWithId(controls[..|controls| - 1]) + (if c.id != "" then [c] else [])
  }

  /** The sort key of a control: its title, else its id. */
  function TitleKey(c: ControlDoc): string {
    c.title.GetOr(c.id)
  }

  /** The controls of the summary, in order. */
  function SortedControls(controls: seq<ControlDoc>): seq<ControlDoc> {
    SortByKey(ControlsWithId(controls), TitleKey)
  }

  /** The summary's controls are exactly the controls with an id, each as often
      as given, ordered by title-or-id, controls with equal keys in their given order. */
  lemma SortedControlsMeaning(controls: seq<ControlDoc>, k: string)
    ensures multiset(SortedControls(controls)) == multiset(ControlsWithId(controls))
    ensures forall c :: c in SortedControls(controls) <==> c in controls && c.id != ""
    ensures SortedByKey(SortedControls(controls), TitleKey)
    ensures WithKey(SortedControls(controls), TitleKey, k) == WithKey(ControlsWithId(controls), TitleKey, k)
  {
    SortByKeyProps(ControlsWithId(controls), TitleKey);
    SortByKeyStable(ControlsWithId(controls), TitleKey, k);
    forall c ensures c in SortedControls(controls) <==> c in ControlsWithId(controls) {
      assert c in SortedControls(controls) <==> c in multiset(SortedControls(controls));
      assert c in ControlsWithId(controls) <==> c in multiset(ControlsWithId(controls));
    }
  }

  /** `[r for r in ids if r in titles]`. */
  function KeepKnown(ids: seq<string>, titles: map<string, string>): (r: seq<string>)
    ensures forall x :: x in r <==> x in ids && x in titles
    ensures |r| <= |ids|
    decreases |ids|
  {
    if ids == [] then []
    else
      var x := ids[|ids| - 1];
      KeepKnown(ids[..|ids| - 1], titles) + (if x in titles then [x] else [])
  }

  /** Filtering distributes over concatenation: the kept ids stay in their
      original order, repeats included. */
  lemma {:induction false} KeepKnownAppend(a: seq<string>, b: seq<string>, titles: map<string, string>)
    ensures KeepKnown(a + b, titles) == KeepKnown(a, titles) + KeepKnown(b, titles)
    decreases |b|
  {
    if b == [] {
      assert a + b == a;
    } else {
      var x := b[|b| - 1];
      assert (a + b)[..|a + b| - 1] == a + b[..|b| - 1];
      KeepKnownAppend(a, b[..|b| - 1], titles);
      AppendAssoc(KeepKnown(a, titles), KeepKnown(b[..|b| - 1], titles), if x in titles then [x] else []);
    }
  }

  /** When every id has a title, nothing is dropped. */
  lemma {:induction false} KeepKnownAllKnown(ids: seq<string>, titles: map<string, string>)
    requires forall k :: 0 <= k < |ids| ==> ids[k] in titles
    ensures KeepKnown(ids, titles) == ids
    decreases |ids|
  {
    if ids != [] {
      var init, x := ids[..|ids| - 1], ids[|ids| - 1];
      KeepKnownAllKnown(init, titles);
      assert ids == init + [x] by {
        TakeStep(ids, |ids| - 1);
        assert ids[..|ids|] == ids;
      }
    }
  }

  /** `[titles[r] for r in ids]`. */
  function TitlesOf(ids: seq<string>, titles: map<string, string>): (r: seq<string>)
    requires forall x :: x in ids ==> x in titles
    ensures |r| == |ids|
    ensures forall k :: 0 <= k < |ids| ==> r[k] == titles[ids[k]]
  {
    seq(|ids|, k requires 0 <= k < |ids| => titles[ids[k]])
  }

  /** The summary entry of one control: the risks it mitigates are its listed
      risks that are in the summary, in its order, each beside its title. */
  function ControlEntryOf(c: ControlDoc, titles: map<string, string>, compact: string -> string): (e: ControlEntry)
    ensures |e.mitigatesRiskTitles| == |e.mitigatesRisks|
    ensures forall j :: 0 <= j < |e.mitigatesRisks| ==>
              e.mitigatesRisks[j] in titles && e.mitigatesRisks[j] in c.risks &&
              e.mitigatesRiskTitles[j] == titles[e.mitigatesRisks[j]]
    ensures forall r :: r in c.risks && r in titles ==> r in e.mitigatesRisks
    ensures e.mitigatesRisks == KeepKnown(c.risks, titles)
    ensures e.id == c.id && e.title == c.title.GetOr(c.id)
    ensures e.category == NormalizeCategory(c.category.GetOr(""), "controls")
  {
    var mitigates := KeepKnown(c.risks, titles);
    ControlEntry(c.id, c.title.GetOr(c.id), NormalizeCategory(c.category.GetOr(""), "controls"),
                 compact(FormatTextList(c.description)), mitigates, TitlesOf(mitigates, titles))
  }

  /** `personas.get(pid, {}).get("title", pid)`. */
  function RoleName(pid: string, personas: map<string, Persona>): string {
    if pid in personas then personas[pid].title.GetOr(pid) else pid
  }

  /** The practice entry of control `c`: its id and title, the first sentence
      of its description, one role name per persona id in order, and its
      lifecycle stages. */
  function PracticeEntryOf(c: ControlDoc, personas: map<string, Persona>, compact: string -> string): (p: PracticeEntry)
    ensures p.id == c.id && p.title == c.title.GetOr(c.id) && p.lifecycleStages == c.lifecycleStage
    ensures |p.ownerRoles| == |c.personas|
    ensures forall j :: 0 <= j < |c.personas| ==> p.ownerRoles[j] == RoleName(c.personas[j], personas)
  {
    PracticeEntry(c.id, c.title.GetOr(c.id), FirstSentence(compact(FormatTextList(c.description))),
                  seq(|c.personas|, j requires 0 <= j < |c.personas| => RoleName(c.personas[j], personas)),
                  c.lifecycleStage)
  }

  /** The owner-role loop: one role name per persona id, in order. */
  method OwnerRoles(pids: seq<string>, personas: map<string, Persona>) returns (roles: seq<string>)
    ensures |roles| == |pids|
    ensures forall j :: 0 <= j < |pids| ==> roles[j] == RoleName(pids[j], personas)
  {
    roles := [];
    var j := 0;
    while j < |pids|
      invariant 0 <= j <= |pids| && |roles| == j
      invariant forall m :: 0 <= m < j ==> roles[m] == RoleName(pids[m], personas)
    {
      var pid := pids[j];
      var name := if pid in personas && personas[pid].title.Some? then personas[pid].title.value else pid;
      roles := roles + [name];
      j := j + 1;
    }
  }

  /** The practice entry of one control. */
  method PracticeOf(c: ControlDoc, personas: map<string, Persona>, compact: string -> string)
    returns (p: PracticeEntry)
    ensures p == PracticeEntryOf(c, personas, compact)
  {
    var description := FormatTextList(c.description);
    var roles := OwnerRoles(c.personas, personas);
    p := PracticeEntry(c.id, c.title.GetOr(c.id), FirstSentence(compact(description)), roles, c.lifecycleStage);
    assert roles == PracticeEntryOf(c, personas, compact).ownerRoles;
  }

  /** The control loop: one control entry and one practice entry per control, in order. */
  method BuildControlEntries(sorted: seq<ControlDoc>, titles: map<string, string>,
                             personas: map<string, Persona>, compact: string -> string)
    returns (entries: seq<ControlEntry>, practices: seq<PracticeEntry>)
    ensures |entries| == |sorted| && |practices| == |sorted|
    ensures forall k :: 0 <= k < |sorted| ==> entries[k] == ControlEntryOf(sorted[k], titles, compact)
    ensures forall k :: 0 <= k < |sorted| ==> practices[k] == PracticeEntryOf(sorted[k], personas, compact)
  {
    entries := [];
    practices := [];
    ghost var entryOf := c => ControlEntryOf(c, titles, compact);
    ghost var practiceOf := c => PracticeEntryOf(c, personas, compact);
    var i := 0;
    while i < |sorted|
      invariant 0 <= i <= |sorted| && |entries| == i && |practices| == i
      invariant forall k :: 0 <= k < i ==> entries[k] == entryOf(sorted[k])
      invariant forall k :: 0 <= k < i ==> practices[k] == practiceOf(sorted[k])
    {
      var p := PracticeOf(sorted[i], personas, compact);
      SnocPointwise(sorted, entries, ControlEntryOf(sorted[i], titles, compact), entryOf);
      SnocPointwise(sorted, practices, p, practiceOf);
      entries := entries + [ControlEntryOf(sorted[i], titles, compact)];
      practices := practices + [p];
      i := i + 1;
    }
  }

  /** The metadata of a framework, empty when it has none. */
  function MetaOf(f: string, meta: map<string, FrameworkMeta>): FrameworkMeta {
    if f in meta then meta[f] else FrameworkMeta(None, None, None)
  }

  /** What the tool entry of a framework with hit `h` holds: its metadata
      (name defaulting to the id) and the hit's ids and sources, each sorted. */
  ghost predicate ToolMatches(t: ToolEntry, h: Hit, meta: map<string, FrameworkMeta>, compact: string -> string) {
    var m := MetaOf(t.id, meta);
    && t.name == m.name.GetOr(t.id)
    && t.description == compact(m.description.GetOr(""))
    && t.reference == m.baseUri.GetOr("")
    && StrictlySorted(t.mappedItems) && (forall x :: x in t.mappedItems <==> x in h.mappedItems)
    && StrictlySorted(t.sourcedFrom) && (forall x :: x in t.sourcedFrom <==> x in h.sources)
  }

  /** The tool loop: one tool per framework hit, by increasing framework id. */
  method BuildTools(hits: map<string, Hit>, meta: map<string, FrameworkMeta>, compact: string -> string)
    returns (tools: seq<ToolEntry>)
    ensures forall i, j :: 0 <= i < j < |tools| ==> StrLt(tools[i].id, tools[j].id)
    ensures forall f :: f in hits <==> exists k :: 0 <= k < |tools| && tools[k].id == f
    ensures forall k :: 0 <= k < |tools| ==> tools[k].id in hits && ToolMatches(tools[k], hits[tools[k].id], meta, compact)
  {
    var ids := SortSet(hits.Keys);
    tools := [];
    var i := 0;
    while i < |ids|
      invariant 0 <= i <= |ids| && |tools| == i
      invariant forall k :: 0 <= k < i ==> tools[k].id == ids[k]
      invariant forall k :: 0 <= k < i ==> ToolMatches(tools[k], hits[ids[k]], meta, compact)
    {
      var f := ids[i];
      assert f in hits;
      var h := hits[f];
      var m := if f in meta then meta[f] else FrameworkMeta(None, None, None);
      var items := SortSet(h.mappedItems);
      var sources := SortSet(h.sources);
      tools := tools + [ToolEntry(f, m.name.GetOr(f), compact(m.description.GetOr("")), m.baseUri.GetOr(""), items, sources)];
      i := i + 1;
    }
    forall f ensures f in hits <==> exists k :: 0 <= k < |tools| && tools[k].id == f {
      if f in hits {
        var k :| 0 <= k < |ids| && ids[k] == f;
        assert tools[k].id == f;
      }
    }
  }

  /** The framework hits of a summary: its risks' documents, then its controls. */
  function SummaryHits(risks: seq<RiskEntry>, catalog: map<string, RiskDoc>, sorted: seq<ControlDoc>): map<string, Hit> {
    HitsFrom(ScannedDocs(RiskDocsOf(risks, catalog), sorted))
  }

  /** `build_assessment_export_summary`, with the catalogs, personas and
      framework metadata given, the timestamp passed in and text compaction
      passed as `compact`. */
  method BuildSummary(
    catalog: map<string, RiskDoc>,
    personas: map<string, Persona>,
    meta: map<string, FrameworkMeta>,
    vayu: TierResult,
    relevant: seq<string>,
    controls: seq<ControlDoc>,
    generatedAt: string,
    compact: string -> string)
    returns (s: Summary)
    ensures s.generatedAt == generatedAt
    ensures s.riskTier == RiskTier(vayu.tierLabel.GetOr(VStr("unknown")), vayu.tier, vayu.escalatedRules)
    ensures s.counts == Counts(|s.risks|, |s.controls|, |s.practices|, |s.recommendedTools|)
    // risks: the distinct relevant ids, sorted
    ensures RiskIdsSorted(s.risks)
    ensures forall r :: r in relevant <==> exists k :: 0 <= k < |s.risks| && s.risks[k].id == r
    ensures forall k :: 0 <= k < |s.risks| ==> s.risks[k] == RiskEntryOf(s.risks[k].id, catalog, compact)
    // controls and practices: one each per control with an id, in title order
    ensures |s.controls| == |SortedControls(controls)| == |s.practices|
    ensures forall k :: 0 <= k < |s.controls| ==>
              s.controls[k] == ControlEntryOf(SortedControls(controls)[k], TitleById(s.risks), compact)
    ensures forall k :: 0 <= k < |s.practices| ==>
              s.practices[k] == PracticeEntryOf(SortedControls(controls)[k], personas, compact)
    ensures forall k :: 0 <= k < |s.practices| ==>
              s.practices[k].id == s.controls[k].id && s.practices[k].title == s.controls[k].title
    // tools: one per framework hit, by id
    ensures var hits := SummaryHits(s.risks, catalog, SortedControls(controls));
            && (forall i, j :: 0 <= i < j < |s.recommendedTools| ==> StrLt(s.recommendedTools[i].id, s.recommendedTools[j].id))
            && (forall f :: f in hits <==> exists k :: 0 <= k < |s.recommendedTools| && s.recommendedTools[k].id == f)
            && (forall k :: 0 <= k < |s.recommendedTools| ==>
                  s.recommendedTools[k].id in hits &&
                  ToolMatches(s.recommendedTools[k], hits[s.recommendedTools[k].id], meta, compact))
  {
    var risks, riskDocs := BuildRiskEntries(relevant, catalog, compact);
    var titles := TitleById(risks);
    var sorted := SortedControls(controls);
    var ctrls, practices := BuildControlEntries(sorted, titles, personas, compact);
    var hits := CollectFrameworkHits(riskDocs, sorted);
    var tools := BuildTools(hits, meta, compact);
    var tier := RiskTier(vayu.tierLabel.GetOr(VStr("unknown")), vayu.tier, vayu.escalatedRules);
    s := Summary(generatedAt, tier, Counts(|risks|, |ctrls|, |practices|, |tools|), risks, ctrls, practices, tools);
  }

  // ------------------------------------------------------ summary properties

  /** `counts.risks` is the number of distinct relevant risk ids. */
  lemma RiskCountIsDistinctRelevant(entries: seq<RiskEntry>, relevant: seq<string>)
    requires RiskIdsSorted(entries)
    requires forall r :: r in relevant <==> exists k :: 0 <= k < |entries| && entries[k].id == r
    ensures |entries| == |set r | r in relevant|
  {
    var ids := seq(|entries|, k requires 0 <= k < |entries| => entries[k].id);
    forall i, j | 0 <= i < j < |ids| ensures ids[i] != ids[j] {
      StrLtIrreflexive(ids[i]);
    }
    NoDupCardinality(ids);
    assert (set x | x in ids) == (set r | r in relevant) by {
      forall x ensures x in ids <==> x in relevant {
        if x in ids {
          var k :| 0 <= k < |ids| && ids[k] == x;
          assert entries[k].id == x;
        }
        if x in relevant {
          var k :| 0 <= k < |entries| && entries[k].id == x;
          assert ids[k] == x;
        }
      }
    }
  }

  /** Each mitigated-risk title is the title of the summary risk with that id,
      and each mitigated risk is one the control lists. */
  lemma MitigatedTitlesAreRiskTitles(risks: seq<RiskEntry>, c: ControlDoc, compact: string -> string, j: nat)
    requires RiskIdsSorted(risks)
    requires j < |ControlEntryOf(c, TitleById(risks), compact).mitigatesRisks|
    ensures var e := ControlEntryOf(c, TitleById(risks), compact);
            e.mitigatesRisks[j] in c.risks &&
            exists k :: 0 <= k < |risks| && risks[k].id == e.mitigatesRisks[j] && risks[k].title == e.mitigatesRiskTitles[j]
  {
    forall i, i' | 0 <= i < i' < |risks| ensures risks[i].id != risks[i'].id {
      StrLtIrreflexive(risks[i].id);
    }
    TitleByIdMeaning(risks);
    var e := ControlEntryOf(c, TitleById(risks), compact);
    var id := e.mitigatesRisks[j];
    var k :| 0 <= k < |risks| && risks[k].id == id;
    assert risks[k].title == e.mitigatesRiskTitles[j];
  }

  // --------------------------------------------------------------- markdown

  const Title := "# AI Risk Assessment Summary"

  /** The title block: generation time, tier label in capitals, the four counts. */
  function Preamble(s: Summary): seq<string> {
    [Title,
     "",
     "- Generated at: " + s.generatedAt,
     "- Risk tier: " + Upper(PyStr(s.riskTier.tierLabel)),
     "- Risks: " + IntToString(s.counts.risks),
     "- Controls: " + IntToString(s.counts.controls),
     "- Practices: " + IntToString(s.counts.practices),
     "- Recommended tools: " + IntToString(s.counts.recommendedTools)]
  }

  /** A detail line `  - text` under an item, present only when `text` is non-empty. */
  function Detail(text: string): seq<string> {
    if text == "" then [] else ["  - " + text]
  }

  /** A labelled detail line, present only when `items` is non-empty. */
  function ListDetail(caption: string, items: seq<string>): seq<string> {
    if items == [] then [] else ["  - " + caption + ": " + Join(items, ", ")]
  }

  function RiskLines(r: RiskEntry): seq<string> {
    ["- **" + r.id + " - " + r.title + "** (" + r.category + ")"] + Detail(r.summary)
  }

  function ControlLines(c: ControlEntry): seq<string> {
    ["- **" + c.id + " - " + c.title + "** (" + c.category + ")"]
    + Detail(c.summary)
    + ListDetail("Mitigates", c.mitigatesRiskTitles)
  }

  function PracticeLines(p: PracticeEntry): seq<string> {
    ["- **" + p.title + "**"]
    + Detail(p.practice)
    + ListDetail("Owners", p.ownerRoles)
    + ListDetail("Lifecycle", p.lifecycleStages)
  }

  function ToolLines(t: ToolEntry): seq<string> {
    ["- **" + t.name + "**"]
    + Detail(t.description)
    + ListDetail("Mapped IDs", t.mappedItems)
    + (if t.reference == "" then [] else ["  - Reference: " + t.reference])
  }

  /** The lines of every item, in order. */
  function ItemLines<T>(xs: seq<T>, render: T -> seq<string>): seq<string>
    decreases |xs|
  {
    if xs == [] then [] else ItemLines(xs[..|xs| - 1], render) + render(xs[|xs| - 1])
  }

  /** A section: a blank line, its heading, then its items or, when there are none, a placeholder. */
  function Section<T>(heading: string, xs: seq<T>, render: T -> seq<string>, placeholder: string): seq<string> {
    ["", heading] + (if xs == [] then [placeholder] else ItemLines(xs, render))
  }

  /** All lines of the Markdown document. */
  function SummaryLines(s: Summary): seq<string> {
    Preamble(s)
    + Section("## Risks", s.risks, RiskLines, "- None identified.")
    + Section("## Controls", s.controls, ControlLines, "- None mapped.")
    + Section("## Practices", s.practices, PracticeLines, "- None available.")
    + Section("## Recommended Tools", s.recommendedTools, ToolLines, "- None mapped from framework references.")
  }

  /** The document text: the lines joined by newlines, stripped, with one final newline. */
  function Rendered(lines: seq<string>): string {
    Strip(Join(lines, "\n")) + "\n"
  }

  /** `summary_to_markdown` over a summary built as above. */
  method SummaryToMarkdown(s: Summary) returns (md: string)
    ensures md == Rendered(SummaryLines(s))
  {
    var lines := Preamble(s);
    lines := AppendSection(lines, "## Risks", s.risks, RiskLines, "- None identified.");
    lines := AppendSection(lines, "## Controls", s.controls, ControlLines, "- None mapped.");
    lines := AppendSection(lines, "## Practices", s.practices, PracticeLines, "- None available.");
    lines := AppendSection(lines, "## Recommended Tools", s.recommendedTools, ToolLines,
                           "- None mapped from framework references.");
    md := Strip(Join(lines, "\n")) + "\n";
  }

  lemma ItemLinesStep<T>(xs: seq<T>, render: T -> seq<string>, i: nat)
    requires i < |xs|
    ensures ItemLines(xs[..i + 1], render) == ItemLines(xs[..i], render) + render(xs[i])
  {
    assert xs[..i + 1][..i] == xs[..i];
  }

  /** One section of the document: `lines += ["", heading]`, then the
      placeholder when there are no items, else each item's lines in order. */
  method AppendSection<T>(lines0: seq<string>, heading: string, xs: seq<T>, render: T -> seq<string>, placeholder: string)
    returns (lines: seq<string>)
    ensures lines == lines0 + Section(heading, xs, render, placeholder)
  {
    lines := lines0 + ["", heading];
    if xs == [] {
      lines := lines + [placeholder];
      return;
    }
    ghost var head := lines;
    var i := 0;
    while i < |xs|
      invariant 0 <= i <= |xs|
      invariant lines == head + ItemLines(xs[..i], render)
    {
      ItemLinesStep(xs, render, i);
      lines := lines + render(xs[i]);
      i := i + 1;
    }
    assert xs[..i] == xs;
  }

  // ----------------------------------------------------- markdown properties

  lemma {:induction false} ItemLinesFirst<T>(xs: seq<T>, render: T -> seq<string>)
    requires xs != []
    requires forall x :: |render(x)| >= 1
    ensures |ItemLines(xs, render)| >= 1 && ItemLines(xs, render)[0] == render(xs[0])[0]
    decreases |xs|
  {
    var p := xs[..|xs| - 1];
    if p != [] {
      ItemLinesFirst(p, render);
      assert p[0] == xs[0];
    }
  }

  /** A section is its blank line, its heading, then the placeholder exactly
      when it has no items (every item's first line starts "- **"). */
  lemma SectionShape<T>(heading: string, xs: seq<T>, render: T -> seq<string>, placeholder: string)
    requires forall x :: |render(x)| >= 1 && |render(x)[0]| >= 3 && render(x)[0][2] == '*'
    requires |placeholder| >= 3 && placeholder[2] != '*'
    ensures var sec := Section(heading, xs, render, placeholder);
            |sec| >= 3 && sec[0] == "" && sec[1] == heading && (sec[2] == placeholder <==> xs == [])
  {
    if xs != [] {
      ItemLinesFirst(xs, render);
    }
  }

  lemma RiskSectionShape(xs: seq<RiskEntry>)
    ensures var sec := Section("## Risks", xs, RiskLines, "- None identified.");
            |sec| >= 3 && sec[1] == "## Risks" && (sec[2] == "- None identified." <==> xs == [])
  {
    forall x ensures |RiskLines(x)| >= 1 && |RiskLines(x)[0]| >= 3 && RiskLines(x)[0][2] == '*' {
    }
    SectionShape("## Risks", xs, RiskLines, "- None identified.");
  }

  lemma ControlSectionShape(xs: seq<ControlEntry>)
    ensures var sec := Section("## Controls", xs, ControlLines, "- None mapped.");
            |sec| >= 3 && sec[1] == "## Controls" && (sec[2] == "- None mapped." <==> xs == [])
  {
    forall x ensures |ControlLines(x)| >= 1 && |ControlLines(x)[0]| >= 3 && ControlLines(x)[0][2] == '*' {
    }
    SectionShape("## Controls", xs, ControlLines, "- None mapped.");
  }

  lemma PracticeSectionShape(xs: seq<PracticeEntry>)
    ensures var sec := Section("## Practices", xs, PracticeLines, "- None available.");
            |sec| >= 3 && sec[1] == "## Practices" && (sec[2] == "- None available." <==> xs == [])
  {
    forall x ensures |PracticeLines(x)| >= 1 && |PracticeLines(x)[0]| >= 3 && PracticeLines(x)[0][2] == '*' {
    }
    SectionShape("## Practices", xs, PracticeLines, "- None available.");
  }

  lemma ToolSectionShape(xs: seq<ToolEntry>)
    ensures var sec := Section("## Recommended Tools", xs, ToolLines, "- None mapped from framework references.");
            |sec| >= 3 && sec[1] == "## Recommended Tools" && (sec[2] == "- None mapped from framework references." <==> xs == [])
  {
    forall x ensures |ToolLines(x)| >= 1 && |ToolLines(x)[0]| >= 3 && ToolLines(x)[0][2] == '*' {
    }
    SectionShape("## Recommended Tools", xs, ToolLines, "- None mapped from framework references.");
  }

  /** Each of the four sections has its heading on its second line and its
      placeholder on its third exactly when it has no entries. */
  lemma SectionShapes(s: Summary)
    ensures var sec := Section("## Risks", s.risks, RiskLines, "- None identified.");
            |sec| >= 3 && sec[1] == "## Risks" && (sec[2] == "- None identified." <==> s.risks == [])
    ensures var sec := Section("## Controls", s.controls, ControlLines, "- None mapped.");
            |sec| >= 3 && sec[1] == "## Controls" && (sec[2] == "- None mapped." <==> s.controls == [])
    ensures var sec := Section("## Practices", s.practices, PracticeLines, "- None available.");
            |sec| >= 3 && sec[1] == "## Practices" && (sec[2] == "- None available." <==> s.practices == [])
    ensures var sec := Section("## Recommended Tools", s.recommendedTools, ToolLines,
                               "- None mapped from framework references.");
            |sec| >= 3 && sec[1] == "## Recommended Tools"
            && (sec[2] == "- None mapped from framework references." <==> s.recommendedTools == [])
  {
    RiskSectionShape(s.risks);
    ControlSectionShape(s.controls);
    PracticeSectionShape(s.practices);
    ToolSectionShape(s.recommendedTools);
  }

  /** Where the second and third lines of each of four consecutive parts sit
      in their concatenation. */
  lemma SectionOffsets<T>(pre: seq<T>, rs: seq<T>, cs: seq<T>, ps: seq<T>, ts: seq<T>)
    returns (a: nat, b: nat, c: nat, d: nat)
    requires |rs| >= 3 && |cs| >= 3 && |ps| >= 3 && |ts| >= 3
    ensures var lines := pre + rs + cs + ps + ts;
            a < b < c < d && d + 1 < |lines|
            && lines[a] == rs[1] && lines[a + 1] == rs[2] && lines[b] == cs[1] && lines[b + 1] == cs[2]
            && lines[c] == ps[1] && lines[c + 1] == ps[2] && lines[d] == ts[1] && lines[d + 1] == ts[2]
  {
    var p2 := pre + rs;
    var p3 := p2 + cs;
    var p4 := p3 + ps;
    a := |pre| + 1;
    b := |p2| + 1;
    c := |p3| + 1;
    d := |p4| + 1;
    assert p2[a] == rs[1] && p2[a + 1] == rs[2];
    assert p3[b] == cs[1] && p3[b + 1] == cs[2];
    assert p4[c] == ps[1] && p4[c + 1] == ps[2];
  }

  /** The document lists its four sections in the fixed order, and the line
      under each heading is the section's placeholder exactly when the section
      has no entries. */
  lemma SectionsInOrder(s: Summary) returns (a: nat, b: nat, c: nat, d: nat)
    ensures var lines := SummaryLines(s);
            a < b < c < d && d + 1 < |lines|
            && lines[a] == "## Risks" && lines[b] == "## Controls"
            && lines[c] == "## Practices" && lines[d] == "## Recommended Tools"
            && (lines[a + 1] == "- None identified." <==> s.risks == [])
            && (lines[b + 1] == "- None mapped." <==> s.controls == [])
            && (lines[c + 1] == "- None available." <==> s.practices == [])
            && (lines[d + 1] == "- None mapped from framework references." <==> s.recommendedTools == [])
  {
    SectionShapes(s);
    a, b, c, d := SectionOffsets(Preamble(s),
                                 Section("## Risks", s.risks, RiskLines, "- None identified."),
                                 Section("## Controls", s.controls, ControlLines, "- None mapped."),
                                 Section("## Practices", s.practices, PracticeLines, "- None available."),
                                 Section("## Recommended Tools", s.recommendedTools, ToolLines,
                                         "- None mapped from framework references."));
  }

  lemma PreambleShape(s: Summary)
    ensures var pre := Preamble(s);
            |pre| >= 3 && pre[0] == Title && pre[1] == "" && pre[2] != "" && !IsSpace(pre[2][0])
  {
  }

  /** The first three lines of a document are those of its preamble. */
  lemma PreambleFirst<T>(pre: seq<T>, rs: seq<T>, cs: seq<T>, ps: seq<T>, ts: seq<T>)
    requires |pre| >= 3
    ensures var lines := pre + rs + cs + ps + ts;
            |lines| >= 3 && lines[0] == pre[0] && lines[1] == pre[1] && lines[2] == pre[2]
  {
  }

  /** The document starts with its title line and ends with exactly one newline. */
  lemma MarkdownFrame(s: Summary)
    ensures var md := Rendered(SummaryLines(s));
            StartsWith(md, Title + "\n") &&
            |md| >= 2 && md[|md| - 1] == '\n' && !IsSpace(md[|md| - 2])
  {
    var pre := Preamble(s);
    var rs := Section("## Risks", s.risks, RiskLines, "- None identified.");
    var cs := Section("## Controls", s.controls, ControlLines, "- None mapped.");
    var ps := Section("## Practices", s.practices, PracticeLines, "- None available.");
    var ts := Section("## Recommended Tools", s.recommendedTools, ToolLines, "- None mapped from framework references.");
    var lines := pre + rs + cs + ps + ts;
    assert SummaryLines(s) == lines;
    PreambleShape(s);
    PreambleFirst(pre, rs, cs, ps, ts);
    RenderedFrame(lines);
  }

  /** Lines whose first line starts with a non-space, followed by a blank line
      and a line starting with a non-space, render to text that starts with the
      first line and ends with exactly one newline. */
  lemma RenderedFrame(lines: seq<string>)
    requires |lines| >= 3 && lines[1] == ""
    requires lines[0] != "" && !IsSpace(lines[0][0])
    requires lines[2] != "" && !IsSpace(lines[2][0])
    ensures var md := Rendered(lines);
            StartsWith(md, lines[0] + "\n") &&
            |md| >= 2 && md[|md| - 1] == '\n' && !IsSpace(md[|md| - 2])
  {
    var j := Join(lines, "\n");
    var j2 := Join(lines[2..], "\n");
    JoinStartsWithFirst(lines[2..], "\n");
    assert lines[1..][1..] == lines[2..];
    assert Join(lines[1..], "\n") == "" + "\n" + j2;
    assert j == lines[0] + "\n" + Join(lines[1..], "\n");
    var n := |lines[0]|;
    assert j == lines[0] + "\n" + ("\n" + j2);
    assert j[..n + 1] == lines[0] + "\n";
    assert j[n + 2] == j2[0] == lines[2][0];
    assert j[0] == lines[0][0];
    assert LStrip(j) == j;
    var r := RStrip(j);
    assert n + 2 < |r|;
    assert Strip(j) == r;
    assert r[..n + 1] == j[..n + 1];
  }
}
