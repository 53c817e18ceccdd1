/** Installer-framework mitigation: who may soften findings, what is softened, and the ledger of it. */
module Mitigation {
  import opened Presentation
  import opened Findings
  import opened Scoring
  import opened Convergence
  import opened Aggregation

  // ---- framework detections ----

  datatype Confidence = Unknown | WeakHint | Corroborated | Structural

  datatype EvidenceSource =
    | PeHeaders | SectionTable | Resource | Overlay | Imports | VersionInfo | EmbeddedArchive | TextHint | Filename

  predicate IsStructural(s: EvidenceSource) { s != TextHint && s != Filename }

  datatype Detection = Detection(
    known: bool, confidence: Confidence, sources: seq<EvidenceSource>, mitigationSafe: bool)

  /** The only way to make a detection: a claim without structural evidence is downgraded. */
  function Build(known: bool, claimed: Confidence, sources: seq<EvidenceSource>): (d: Detection) {
    var hasStructural := exists s :: s in sources && IsStructural(s);
    var strong := claimed == Corroborated || claimed == Structural;
    var confidence := if !known then Unknown else if strong && !hasStructural then WeakHint else claimed;
    Detection(known, confidence, sources,
              (confidence == Corroborated || confidence == Structural) && hasStructural)
  }

  /**
   No detection is better than its evidence: corroborated and structural confidence need a structural source, and
   every other claim for a known framework stands as it is.
   */
  lemma BuildMeaning(known: bool, claimed: Confidence, sources: seq<EvidenceSource>)
    ensures var d := Build(known, claimed, sources);
      var structural := exists s :: s in sources && s != TextHint && s != Filename;
      && d.known == known && d.sources == sources
      && (!known ==> d.confidence == Unknown)
      && (known && (claimed == Unknown || claimed == WeakHint || structural) ==> d.confidence == claimed)
      && (known && (claimed == Corroborated || claimed == Structural) && !structural ==> d.confidence == WeakHint)
      && (d.mitigationSafe <==> known && structural && (claimed == Corroborated || claimed == Structural))
  {
  }

  // ---- what mitigation does to one finding ----

  const VETO_WEIGHT := 40

  predicate Contains(s: string, key: string) {
    exists i {:trigger s[i..]} :: 0 <= i <= |s| - |key| && s[i..][..|key|] == key
  }

  /** YARA details that installers are expected to trip. */
  predicate InstallerClass(detail: string) {
    var d := LowerText(detail);
    || Contains(d, "dropper") || Contains(d, "updater") || Contains(d, "installer")
    || Contains(d, "persistence") || Contains(d, "temp_extraction") || Contains(d, "fake_updater")
  }

  /** `Contains` is being a substring. */
  lemma ContainsMeaning(s: string, key: string)
    ensures Contains(s, key) <==> exists a: string, b: string :: s == a + key + b
  {
    if Contains(s, key) {
      var i :| 0 <= i <= |s| - |key| && s[i..][..|key|] == key;
      assert s == s[..i] + key + s[i..][|key|..];
    }
    forall a: string, b: string | s == a + key + b ensures Contains(s, key) {
      assert s[|a|..][..|key|] == key;
    }
  }

  /** Six words make a detail installer-class, wherever and in whatever ASCII case they stand in it. */
  lemma InstallerClassMeaning(detail: string)
    ensures InstallerClass(detail) <==>
      exists key :: key in {"dropper", "updater", "installer", "persistence", "temp_extraction", "fake_updater"}
        && Contains(LowerText(detail), key)
  {
    hide Contains, LowerText;
    assert "dropper" in {"dropper", "updater", "installer", "persistence", "temp_extraction", "fake_updater"};
  }

  function SoftWeight(f: Finding): (w: nat)
    ensures w <= f.weight
  {
    match f.layer
    case StructuralAnalysis => f.weight / 3
    case PackerDetection => f.weight / 3
    case YaraRules => if f.detail.Some? && InstallerClass(f.detail.value) then f.weight / 2 else f.weight
    case _ => f.weight
  }

  /** A third for structural and packer findings, a half for installer-class YARA findings, rounded down. */
  lemma SoftWeightMeaning(f: Finding)
    ensures var w := SoftWeight(f);
      && (f.layer == StructuralAnalysis || f.layer == PackerDetection ==> 3 * w <= f.weight < 3 * (w + 1))
      && (f.layer == YaraRules && f.detail.Some? && InstallerClass(f.detail.value) ==> 2 * w <= f.weight < 2 * (w + 1))
      && (w != f.weight ==>
            || f.layer == StructuralAnalysis || f.layer == PackerDetection
            || (f.layer == YaraRules && f.detail.Some? && InstallerClass(f.detail.value)))
  {
    hide InstallerClass;
  }

  function Soften(f: Finding): (r: Finding) {
    var w := SoftWeight(f);
    f.(weight := w, severity := if w == 0 then Info else f.severity)
  }

  /** A softened finding keeps everything but its weight, and its severity unless nothing is left of the weight. */
  lemma SoftenMeaning(f: Finding)
    ensures var r := Soften(f);
      && r.weight == SoftWeight(f) && r == f.(weight := r.weight, severity := r.severity)
      && (r.weight == 0 ==> r.severity == Info) && (r.weight > 0 ==> r.severity == f.severity)
  {
    hide SoftWeight;
  }

  function SoftenAll(fs: seq<Finding>): (r: seq<Finding>)
    ensures |r| == |fs| && forall i :: 0 <= i < |fs| ==> r[i] == Soften(fs[i])
  {
    if fs == [] then [] else [Soften(fs[0])] + SoftenAll(fs[1..])
  }

  // ---- the ledger ----

  datatype Op = Op(layer: Layer, before: nat, after: nat)

  function Ledger(fs: seq<Finding>): (ops: seq<Op>) {
    if fs == [] then []
    else Entry(fs[0]) + Ledger(fs[1..])
  }

  function Entry(f: Finding): (ops: seq<Op>) {
    if SoftWeight(f) != f.weight then [Op(f.layer, f.weight, SoftWeight(f))] else []
  }

  function Saved(ops: seq<Op>): (n: int) {
    if ops == [] then 0 else ops[0].before - ops[0].after + Saved(ops[1..])
  }

  predicate Qualifies(d: Detection) { d.confidence == Structural && d.mitigationSafe }

  predicate Vetoed(fs: seq<Finding>) { exists f :: f in fs && f.weight >= VETO_WEIGHT }

  predicate Applies(d: Detection, fs: seq<Finding>) { Qualifies(d) && !Vetoed(fs) }

  datatype Outcome = Outcome(applied: bool, vetoed: bool, ops: seq<Op>, before: nat, after: nat)

  function Mitigated(d: Detection, fs: seq<Finding>): (r: seq<Finding>) {
    if Applies(d, fs) then SoftenAll(fs) else fs
  }

  function OutcomeOf(d: Detection, fs: seq<Finding>): (o: Outcome) {
    Outcome(Applies(d, fs), Qualifies(d) && Vetoed(fs), if Applies(d, fs) then Ledger(fs) else [],
            Total(fs), Total(Mitigated(d, fs)))
  }

  /** `evaluate`, on the finding list itself. */
  method Evaluate(d: Detection, findings: array<Finding>) returns (o: Outcome)
    modifies findings
    ensures findings[..] == Mitigated(d, old(findings[..])) && o == OutcomeOf(d, old(findings[..]))
  {
    hide Contains, LowerText, InstallerClass, Total, Ledger, SoftenAll;
    ghost var start := findings[..];
    var before := Total(findings[..]);
    NothingToSoften();
    if d.confidence != Structural || !d.mitigationSafe {
      return Outcome(false, false, [], before, before);
    }
    if exists f :: f in findings[..] && f.weight >= VETO_WEIGHT {
      return Outcome(false, true, [], before, before);
    }
    var ops: seq<Op> := [];
    var i := 0;
    while i < findings.Length
      invariant 0 <= i <= findings.Length
      invariant forall k :: 0 <= k < i ==> findings[k] == Soften(start[k])
      invariant forall k :: i <= k < findings.Length ==> findings[k] == start[k]
      invariant ops == Ledger(start[..i])
    {
      var was := findings[i];
      var w := was.weight;
      match was.layer {
        case StructuralAnalysis => w := w / 3;
        case PackerDetection => w := w / 3;
        case YaraRules => if was.detail.Some? && InstallerClass(was.detail.value) { w := w / 2; }
        case _ =>
      }
      if w != was.weight { ops := ops + [Op(was.layer, was.weight, w)]; }
      findings[i] := was.(weight := w, severity := if w == 0 then Info else was.severity);
      assert start[..i + 1] == start[..i] + [was];
      LedgerSnoc(start[..i], was);
      i := i + 1;
    }
    assert start[..i] == start;
    SoftenedAll(start, findings[..]);
    return Outcome(true, false, ops, before, Total(findings[..]));
  }

  lemma NothingToSoften()
    ensures Ledger([]) == []
  {
  }

  lemma SoftenedAll(fs: seq<Finding>, out: seq<Finding>)
    requires |out| == |fs| && forall i :: 0 <= i < |fs| ==> out[i] == Soften(fs[i])
    ensures out == SoftenAll(fs)
  {
    hide Soften;
  }

  lemma {:induction false} LedgerSnoc(fs: seq<Finding>, x: Finding)
    ensures Ledger(fs + [x]) == Ledger(fs) + Entry(x)
    decreases |fs|
  {
    hide Entry;
    if fs == [] {
      assert [x][1..] == [] && fs + [x] == [x];
    } else {
      LedgerSnoc(fs[1..], x);
      assert (fs + [x])[1..] == fs[1..] + [x];
    }
  }

  // ---- the ledger balances and lists exactly the changes ----

  lemma {:induction false} LedgerSum(fs: seq<Finding>)
    ensures Total(fs) - Total(SoftenAll(fs)) == Saved(Ledger(fs))
    decreases |fs|
  {
    hide SoftWeight;
    if fs != [] {
      LedgerSum(fs[1..]);
      SavedCons(fs[0], Ledger(fs[1..]));
    }
  }

  lemma SavedCons(f: Finding, ops: seq<Op>)
    ensures Saved(Entry(f) + ops) == f.weight - SoftWeight(f) + Saved(ops)
  {
    hide SoftWeight;
    if SoftWeight(f) == f.weight {
      assert Entry(f) + ops == ops;
    } else {
      assert (Entry(f) + ops)[1..] == ops;
    }
  }

  /** Positions of the findings whose weight changes. */
  function Changed(fs: seq<Finding>, from: nat): (r: seq<nat>)
    decreases |fs|
  {
    if fs == [] then []
    else (if SoftWeight(fs[0]) != fs[0].weight then [from] else []) + Changed(fs[1..], from + 1)
  }

  lemma {:induction false} ChangedInOrder(fs: seq<Finding>, from: nat)
    ensures var c := Changed(fs, from);
      && |c| == |Ledger(fs)|
      && (forall i, j :: 0 <= i < j < |c| ==> c[i] < c[j])
      && (forall i :: i in c <==> from <= i < from + |fs| && SoftWeight(fs[i - from]) != fs[i - from].weight)
    decreases |fs|
  {
    hide SoftWeight;
    if fs != [] {
      ChangedInOrder(fs[1..], from + 1);
      var rest := Changed(fs[1..], from + 1);
      assert forall i :: 0 <= i < |rest| ==> rest[i] in rest;
      assert forall k :: 0 <= k < |fs| - 1 ==> fs[1..][k] == fs[k + 1];
    }
  }

  lemma {:induction false} LedgerRecords(fs: seq<Finding>, from: nat, k: nat)
    requires k < |Changed(fs, from)|
    ensures k < |Ledger(fs)| && from <= Changed(fs, from)[k] < from + |fs|
    ensures var f := fs[Changed(fs, from)[k] - from]; Ledger(fs)[k] == Op(f.layer, f.weight, SoftWeight(f))
    decreases |fs|
  {
    hide SoftWeight;
    if SoftWeight(fs[0]) != fs[0].weight {
      if k > 0 { LedgerRecords(fs[1..], from + 1, k - 1); }
    } else {
      LedgerRecords(fs[1..], from + 1, k);
    }
  }

  /** `at` lists the changed positions in order, and `ops` records layer and weights at each of them. */
  ghost predicate ExactLedger(fs: seq<Finding>, out: seq<Finding>, ops: seq<Op>, at: seq<nat>) {
    && |out| == |fs| && |at| == |ops|
    && (forall i, j :: 0 <= i < j < |at| ==> at[i] < at[j])
    && (forall i :: i in at <==> 0 <= i < |fs| && out[i].weight != fs[i].weight)
    && (forall k :: 0 <= k < |at| ==> at[k] < |fs|)
    && (forall k :: 0 <= k < |at| ==> ops[k] == Op(fs[at[k]].layer, fs[at[k]].weight, out[at[k]].weight))
  }

  lemma SoftenedWeights(fs: seq<Finding>)
    ensures |SoftenAll(fs)| == |fs| && forall i :: 0 <= i < |fs| ==> SoftenAll(fs)[i].weight == SoftWeight(fs[i])
  {
    hide SoftWeight;
  }

  lemma SoftenedLedger(fs: seq<Finding>)
    ensures ExactLedger(fs, SoftenAll(fs), Ledger(fs), Changed(fs, 0))
  {
    hide SoftWeight, Ledger, Changed, SoftenAll;
    SoftenedWeights(fs);
    ChangedInOrder(fs, 0);
    LedgerEntries(fs);
  }

  lemma LedgerEntries(fs: seq<Finding>)
    ensures var at, ops := Changed(fs, 0), Ledger(fs);
      && |at| == |ops| && (forall k :: 0 <= k < |at| ==> at[k] < |fs|)
      && (forall k :: 0 <= k < |at| ==> ops[k] == Op(fs[at[k]].layer, fs[at[k]].weight, SoftWeight(fs[at[k]])))
  {
    hide SoftWeight, Ledger, Changed;
    ChangedInOrder(fs, 0);
    forall k | 0 <= k < |Changed(fs, 0)|
      ensures Changed(fs, 0)[k] < |fs|
      ensures var f := fs[Changed(fs, 0)[k]]; Ledger(fs)[k] == Op(f.layer, f.weight, SoftWeight(f))
    {
      LedgerRecords(fs, 0, k);
    }
  }

  /**
   The ledger is exact: one entry per changed finding, in list order, with its weights before and after;
   the entries add up to the drop in the total, and nothing ever gains weight.
   */
  lemma LedgerIsExact(d: Detection, fs: seq<Finding>)
    ensures var o, out := OutcomeOf(d, fs), Mitigated(d, fs);
      && o.before == Total(fs) && o.after == Total(out) && o.before - o.after == Saved(o.ops)
      && (forall i :: 0 <= i < |fs| && |out| == |fs| ==> out[i].weight <= fs[i].weight)
      && exists at: seq<nat> :: ExactLedger(fs, out, o.ops, at)
  {
    if Applies(d, fs) {
      hide SoftWeight, Saved, ExactLedger, Applies, Total;
      LedgerSum(fs);
      SoftenedLedger(fs);
    } else {
      assert ExactLedger(fs, fs, [], []);
    }
  }

  // ---- veto and authority ----

  /**
   The pass and then the aggregation, on one list, beside the aggregation alone on a copy of it. With any finding of
   weight 40 or more, both leave the same list and give the same score, verdict and convergence, whatever was
   detected; so they do for a detection that does not qualify.
   */
  method EvaluateThenAggregate(
    d: Detection, findings: array<Finding>, copy: array<Finding>, reputation: nat, authenticode: nat, scale: Scale)
    returns (score: nat, verdict: Verdict, convergence: ConvergenceInfo, same: bool)
    requires findings != copy && findings[..] == copy[..]
    modifies findings, copy
    ensures var a := Aggregate(Mitigated(d, old(findings[..])), reputation, authenticode, scale);
      findings[..] == a.findings && score == a.score && verdict == a.verdict && convergence == a.convergence
    ensures copy[..] == Aggregate(old(findings[..]), reputation, authenticode, scale).findings
    ensures (exists f :: f in old(findings[..]) && f.weight >= 40) || !Qualifies(d) ==> same && findings[..] == copy[..]
  {
    hide Aggregate, SoftenAll;
    var _ := Evaluate(d, findings);
    score, verdict, convergence := AggregateScore(findings, reputation, authenticode, scale);
    var score', verdict', convergence' := AggregateScore(copy, reputation, authenticode, scale);
    same := score == score' && verdict == verdict' && convergence == convergence';
  }

  /** Without structural confidence, or not marked safe, a detection changes nothing. */
  lemma NothingWithoutAuthority(d: Detection, fs: seq<Finding>)
    ensures d.confidence != Structural || !d.mitigationSafe ==>
      Mitigated(d, fs) == fs && OutcomeOf(d, fs) == Outcome(false, false, [], Total(fs), Total(fs))
  {
  }

  /** Text markers and file names never soften anything, whatever confidence is claimed for them. */
  lemma HintsGrantNothing(known: bool, claimed: Confidence, sources: seq<EvidenceSource>, fs: seq<Finding>)
    requires forall s :: s in sources ==> s == TextHint || s == Filename
    ensures Mitigated(Build(known, claimed, sources), fs) == fs
    ensures !OutcomeOf(Build(known, claimed, sources), fs).vetoed
  {
  }

  /** Exactly when the pass applies: a known framework, claimed and backed structurally, no strong evidence. */
  lemma AppliesExactly(known: bool, claimed: Confidence, sources: seq<EvidenceSource>, fs: seq<Finding>)
    ensures var o := OutcomeOf(Build(known, claimed, sources), fs);
      var authorized :=
        known && claimed == Structural && exists s :: s in sources && s != TextHint && s != Filename;
      && (o.applied <==> authorized && forall f :: f in fs ==> f.weight < 40)
      && (o.vetoed <==> authorized && exists f :: f in fs && f.weight >= 40)
  {
  }
}
