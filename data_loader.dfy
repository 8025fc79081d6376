/** The risk-map catalog queries the assessment uses: which risks the
    self-assessment answers make relevant, which controls address a list of
    risks, and the joining of multi-line text lists. The catalogs are given
    as maps keyed by id (they are read from YAML files, which this model
    does not do). */
module DataLoader {
  import opened Values
  import opened Text
  import opened Seqs

  /** A self-assessment question: the personas it applies to, the answers
      that make it relevant and the risks it then raises. */
  datatype Question = Question(id: string, personas: seq<string>, relevance: seq<string>, risks: seq<string>)

  /** A risk of the catalog. `mappings` maps a framework id to the ids the risk maps to there. */
  datatype RiskDoc = RiskDoc(
    id: string,
    title: Option<string>,
    category: Option<string>,
    shortDescription: seq<string>,
    controls: seq<string>,
    mappings: map<string, seq<Value>>)

  /** A control of the catalog; `id` is "" when the control has none. */
  datatype ControlDoc = ControlDoc(
    id: string,
    title: Option<string>,
    category: Option<string>,
    description: seq<string>,
    personas: seq<string>,
    lifecycleStage: seq<string>,
    risks: seq<string>,
    mappings: map<string, seq<Value>>)

  // ------------------------------------------------------- relevant risks

  /** A question contributes its risks when it was answered, one of its
      personas is selected and the answer is one of its relevant answers. */
  predicate Contributes(q: Question, answers: map<string, string>, selected: seq<string>) {
    q.id in answers
    && (exists p | p in q.personas :: p in selected)
    && answers[q.id] in q.relevance
  }

  /** The risks raised by the contributing questions among `qs`. */
  function RaisedRisks(qs: seq<Question>, answers: map<string, string>, selected: seq<string>): set<string>
    decreases |qs|
  {
    if qs == [] then {}
    else
      var q := qs[|qs| - 1];
      RaisedRisks(qs[..|qs| - 1], answers, selected) + (if Contributes(q, answers, selected) then set r | r in q.risks else {})
  }

  lemma {:induction false} RaisedRisksMeaning(qs: seq<Question>, answers: map<string, string>, selected: seq<string>, r: string)
    ensures r in RaisedRisks(qs, answers, selected) <==>
            exists i :: 0 <= i < |qs| && Contributes(qs[i], answers, selected) && r in qs[i].risks
    decreases |qs|
  {
    if qs != [] {
      var p := qs[..|qs| - 1];
      RaisedRisksMeaning(p, answers, selected, r);
      if exists i :: 0 <= i < |p| && Contributes(p[i], answers, selected) && r in p[i].risks {
        var i :| 0 <= i < |p| && Contributes(p[i], answers, selected) && r in p[i].risks;
        assert qs[i] == p[i];
      }
      if exists i :: 0 <= i < |qs| && Contributes(qs[i], answers, selected) && r in qs[i].risks {
        var i :| 0 <= i < |qs| && Contributes(qs[i], answers, selected) && r in qs[i].risks;
        if i < |p| {
          assert p[i] == qs[i];
        }
      }
    }
  }

  /** `calculate_relevant_risks`: the risks of every contributing question, sorted, each once. */
  method CalculateRelevantRisks(questions: seq<Question>, answers: map<string, string>, selected: seq<string>)
    returns (risks: seq<string>)
    ensures StrictlySorted(risks) && NoDup(risks)
    ensures forall r :: r in risks <==>
              exists i :: 0 <= i < |questions| && Contributes(questions[i], answers, selected) && r in questions[i].risks
  {
    var relevant: set<string> := {};
    var i := 0;
    while i < |questions|
      invariant 0 <= i <= |questions|
      invariant relevant == RaisedRisks(questions[..i], answers, selected)
    {
      var q := questions[i];
      assert questions[..i + 1][..i] == questions[..i];
      if q.id in answers {
        var applies := false;
        var k := 0;
        while k < |q.personas|
          invariant 0 <= k <= |q.personas|
          invariant applies <==> exists p | p in q.personas[..k] :: p in selected
        {
          assert q.personas[..k + 1] == q.personas[..k] + [q.personas[k]];
          applies := applies || q.personas[k] in selected;
          k := k + 1;
        }
        assert q.personas[..k] == q.personas;
        if applies && answers[q.id] in q.relevance {
          relevant := relevant + set r | r in q.risks;
        }
      }
      i := i + 1;
    }
    assert questions[..i] == questions;
    risks := SortSet(relevant);
    StrictlySortedNoDup(risks);
    forall r ensures r in risks <==>
        exists i :: 0 <= i < |questions| && Contributes(questions[i], answers, selected) && r in questions[i].risks {
      RaisedRisksMeaning(questions, answers, selected, r);
    }
  }

  /** A question with no personas never contributes. */
  lemma NoPersonasNoRisks(q: Question, answers: map<string, string>, selected: seq<string>)
    requires q.personas == []
    ensures !Contributes(q, answers, selected)
  {
  }

  // ------------------------------------------------------ controls for risks

  /** The control ids listed by the known risks among `riskIds`, in order, repeats kept. */
  function CandidateControls(riskIds: seq<string>, catalog: map<string, RiskDoc>): seq<string>
    decreases |riskIds|
  {
    if riskIds == [] then []
    else
      var r := riskIds[|riskIds| - 1];
      CandidateControls(riskIds[..|riskIds| - 1], catalog) + (if r in catalog then catalog[r].controls else [])
  }

  /** The catalog entries of the ids that are in the catalog, in order. */
  function KnownControls(ids: seq<string>, controls: map<string, ControlDoc>): (r: seq<ControlDoc>)
    ensures |r| <= |ids|
    decreases |ids|
  {
    if ids == [] then []
    else
      var c := ids[|ids| - 1];
      KnownControls(ids[..|ids| - 1], controls) + (if c in controls then [controls[c]] else [])
  }

  /** The ids kept by `KnownControls`. */
  function KnownIds(ids: seq<string>, controls: map<string, ControlDoc>): seq<string>
    decreases |ids|
  {
    if ids == [] then []
    else
      var c := ids[|ids| - 1];
      KnownIds(ids[..|ids| - 1], controls) + (if c in controls then [c] else [])
  }

  /** `get_controls_for_risks`: the catalog entries of the controls the known
      risks list, each id once at its first occurrence; an id missing from the
      control catalog is dropped (it is still marked as seen). */
  method GetControlsForRisks(riskIds: seq<string>, risks: map<string, RiskDoc>, controls: map<string, ControlDoc>)
    returns (out: seq<ControlDoc>)
    ensures out == KnownControls(Dedup(CandidateControls(riskIds, risks)), controls)
  {
    var seen: set<string> := {};
    out := [];
    ghost var cands: seq<string> := [];
    var i := 0;
    while i < |riskIds|
      invariant 0 <= i <= |riskIds|
      invariant cands == CandidateControls(riskIds[..i], risks)
      invariant forall x :: x in seen <==> x in cands
      invariant out == KnownControls(Dedup(cands), controls)
    {
      var rid := riskIds[i];
      CandidateStep(riskIds, i, risks);
      if rid in risks {
        seen, out, cands := AddRiskControls(risks[rid].controls, controls, seen, out, cands);
      }
      i := i + 1;
    }
    assert riskIds[..i] == riskIds;
  }

  /** The inner loop of `get_controls_for_risks`: one risk's control list. */
  method AddRiskControls(listed: seq<string>, controls: map<string, ControlDoc>,
                         seen0: set<string>, out0: seq<ControlDoc>, ghost cands0: seq<string>)
    returns (seen: set<string>, out: seq<ControlDoc>, ghost cands: seq<string>)
    requires forall x :: x in seen0 <==> x in cands0
    requires out0 == KnownControls(Dedup(cands0), controls)
    ensures cands == cands0 + listed
    ensures forall x :: x in seen <==> x in cands
    ensures out == KnownControls(Dedup(cands), controls)
  {
    seen, out, cands := seen0, out0, cands0;
    var j := 0;
    while j < |listed|
      invariant 0 <= j <= |listed|
      invariant cands == cands0 + listed[..j]
      invariant forall x :: x in seen <==> x in cands
      invariant out == KnownControls(Dedup(cands), controls)
    {
      var c := listed[j];
      PrefixStep(cands0, listed, j);
      SeenStep(cands, seen, c, controls);
      if c !in seen {
        if c in controls {
          out := out + [controls[c]];
        }
        seen := seen + {c};
      }
      cands := cands + [c];
      j := j + 1;
    }
    assert listed[..j] == listed;
  }

  lemma PrefixStep<T>(a: seq<T>, b: seq<T>, j: nat)
    requires j < |b|
    ensures a + b[..j + 1] == (a + b[..j]) + [b[j]]
  {
    assert b[..j + 1] == b[..j] + [b[j]];
  }

  lemma CandidateStep(riskIds: seq<string>, i: nat, risks: map<string, RiskDoc>)
    requires i < |riskIds|
    ensures CandidateControls(riskIds[..i + 1], risks) ==
            CandidateControls(riskIds[..i], risks) + (if riskIds[i] in risks then risks[riskIds[i]].controls else [])
  {
    assert riskIds[..i + 1][..i] == riskIds[..i];
  }

  /** One more candidate: a repeat changes nothing, a new id is appended when catalogued. */
  lemma SeenStep(s: seq<string>, seen: set<string>, c: string, controls: map<string, ControlDoc>)
    requires forall x :: x in seen <==> x in s
    ensures forall x :: x in seen + {c} <==> x in s + [c]
    ensures c in seen ==> KnownControls(Dedup(s + [c]), controls) == KnownControls(Dedup(s), controls)
    ensures c !in seen ==>
              KnownControls(Dedup(s + [c]), controls) ==
              KnownControls(Dedup(s), controls) + (if c in controls then [controls[c]] else [])
  {
    var t := s + [c];
    assert t[..|t| - 1] == s;
    var d := Dedup(s);
    if c !in s {
      assert (d + [c])[..|d + [c]| - 1] == d;
    }
  }

  /** The controls returned are those of `KnownIds`: their ids, when every catalog
      entry carries its own key as id, are distinct and in first-occurrence order. */
  lemma {:induction false} KnownControlsIds(ids: seq<string>, controls: map<string, ControlDoc>)
    requires forall c :: c in controls ==> controls[c].id == c
    ensures |KnownControls(ids, controls)| == |KnownIds(ids, controls)|
    ensures forall k :: 0 <= k < |KnownIds(ids, controls)| ==>
              KnownControls(ids, controls)[k].id == KnownIds(ids, controls)[k]
    decreases |ids|
  {
    if ids != [] {
      KnownControlsIds(ids[..|ids| - 1], controls);
    }
  }

  /** `KnownIds` keeps exactly the catalogued ids, in order, without adding repeats. */
  lemma {:induction false} KnownIdsMeaning(ids: seq<string>, controls: map<string, ControlDoc>)
    ensures forall c :: c in KnownIds(ids, controls) <==> c in ids && c in controls
    ensures NoDup(ids) ==> NoDup(KnownIds(ids, controls))
    decreases |ids|
  {
    if ids != [] {
      var p := ids[..|ids| - 1];
      KnownIdsMeaning(p, controls);
      assert ids == p + [ids[|ids| - 1]];
      if NoDup(ids) {
        assert NoDup(p);
      }
    }
  }

  /** A control comes back exactly when some known risk lists it and it is catalogued, and at most once. */
  lemma ControlsForRisksMeaning(riskIds: seq<string>, risks: map<string, RiskDoc>, controls: map<string, ControlDoc>)
    ensures var ids := KnownIds(Dedup(CandidateControls(riskIds, risks)), controls);
            NoDup(ids) &&
            (forall c :: c in ids <==> c in controls && c in CandidateControls(riskIds, risks))
  {
    KnownIdsMeaning(Dedup(CandidateControls(riskIds, risks)), controls);
  }

  /** Unknown risk ids contribute no controls. */
  lemma {:induction false} UnknownRisksSkipped(riskIds: seq<string>, risks: map<string, RiskDoc>, c: string)
    ensures c in CandidateControls(riskIds, risks) <==>
            exists i :: 0 <= i < |riskIds| && riskIds[i] in risks && c in risks[riskIds[i]].controls
    decreases |riskIds|
  {
    if riskIds != [] {
      var p := riskIds[..|riskIds| - 1];
      UnknownRisksSkipped(p, risks, c);
      if exists i :: 0 <= i < |p| && p[i] in risks && c in risks[p[i]].controls {
        var i :| 0 <= i < |p| && p[i] in risks && c in risks[p[i]].controls;
        assert riskIds[i] == p[i];
      }
      if exists i :: 0 <= i < |riskIds| && riskIds[i] in risks && c in risks[riskIds[i]].controls {
        var i :| 0 <= i < |riskIds| && riskIds[i] in risks && c in risks[riskIds[i]].controls;
        if i < |p| {
          assert p[i] == riskIds[i];
        }
      }
    }
  }

  // -------------------------------------------------------------- text lists

  /** `format_text_list`: "" for no items, else the items joined by single spaces. */
  function FormatTextList(items: seq<string>): (s: string)
    ensures items == [] ==> s == ""
    ensures |items| == 1 ==> s == items[0]
  {
    if items == [] then "" else Join(items, " ")
  }

  /** Items without spaces come back from the formatted text by splitting on spaces. */
  lemma FormatTextListRoundTrip(items: seq<string>)
    requires |items| >= 1
    requires forall k :: 0 <= k < |items| ==> ' ' !in items[k]
    ensures Split(FormatTextList(items), ' ') == items
  {
    JoinThenSplit(items, ' ');
  }
}
