/** `aggregate_score`: dedup, caps, the larger discount, verdict and convergence. */
module Aggregation {
  import opened Bytes
  import opened Progression
  import opened Findings
  import opened Scoring
  import opened Convergence

  const MAX_SCORE := 100

  datatype Verdict = Clean | LowSuspicion | PotentiallyUnwanted | Suspicious | HighSuspicion | Malicious

  function FromScore(score: nat): (v: Verdict) {
    if score == 0 then Clean
    else if score <= 25 then LowSuspicion
    else if score <= 50 then Suspicious
    else if score <= 75 then HighSuspicion
    else Malicious
  }

  function Total(fs: seq<Finding>): (n: nat) { if fs == [] then 0 else fs[0].weight + Total(fs[1..]) }

  /** Weight of the findings tagged potentially unwanted. */
  function PuaWeight(fs: seq<Finding>): (n: nat) {
    if fs == [] then 0
    else (if fs[0].tag == Some(BehaviorTag.PotentiallyUnwanted) then fs[0].weight else 0) + PuaWeight(fs[1..])
  }

  /** Dominantly unwanted software in the suspicious range is relabelled. */
  function Reclassify(v: Verdict, pua: nat, raw: nat): (r: Verdict) {
    if (v == Suspicious || v == HighSuspicion) && pua > 0 && pua >= raw / 2 then Verdict.PotentiallyUnwanted else v
  }

  function Capped(fs: seq<Finding>, scale: Scale): (r: seq<Finding>) {
    CapAll(Dedup(SortDesc(fs), {}), CAPS, scale)
  }

  function Discounted(raw: nat, reputation: nat, authenticode: nat): (score: nat) {
    var discount := Max(reputation, authenticode);
    Min(if raw > discount then raw - discount else 0, MAX_SCORE)
  }

  datatype Assessment = Assessment(
    findings: seq<Finding>, raw: nat, score: nat, verdict: Verdict, convergence: ConvergenceInfo)

  function Aggregate(fs: seq<Finding>, reputation: nat, authenticode: nat, scale: Scale): (a: Assessment) {
    var capped := Capped(fs, scale);
    var sorted := SortDesc(capped);
    var raw := Total(capped);
    var score := Discounted(raw, reputation, authenticode);
    Assessment(sorted, raw, score, Reclassify(FromScore(score), PuaWeight(sorted), raw), Converge(sorted))
  }

  // ---- independence of the order ----

  lemma {:induction false} TotalsAreSums(fs: seq<Finding>)
    ensures Total(fs) == SumBy((e: Evidence) => e.weight, Active(fs))
    ensures PuaWeight(fs)
         == SumBy((e: Evidence) => if e.tag == Some(BehaviorTag.PotentiallyUnwanted) then e.weight else 0, Active(fs))
    decreases |fs|
  {
    if fs != [] { TotalsAreSums(fs[1..]); }
  }

  lemma TotalsPermutation(a: seq<Finding>, b: seq<Finding>)
    requires multiset(Active(a)) == multiset(Active(b))
    ensures Total(a) == Total(b) && PuaWeight(a) == PuaWeight(b)
  {
    hide Total, PuaWeight, Active, SumBy;
    TotalsAreSums(a);
    TotalsAreSums(b);
    SumByPermutation((e: Evidence) => e.weight, Active(a), Active(b));
    SumByPermutation((e: Evidence) => if e.tag == Some(BehaviorTag.PotentiallyUnwanted) then e.weight else 0,
      Active(a), Active(b));
  }

  lemma SortKeepsEvidence(fs: seq<Finding>)
    ensures multiset(Active(SortDesc(fs))) == multiset(Active(fs))
  {
    SortDescSorts(fs);
    ActivePermutation(SortDesc(fs), fs);
  }

  /** Score, verdict and convergence do not depend on the order in which the findings were made. */
  lemma OrderIndependence(a: seq<Finding>, b: seq<Finding>, reputation: nat, authenticode: nat, scale: Scale)
    requires ScaleOk(scale) && multiset(a) == multiset(b)
    ensures var x, y := Aggregate(a, reputation, authenticode, scale), Aggregate(b, reputation, authenticode, scale);
      && x.raw == y.raw && x.score == y.score && x.verdict == y.verdict && x.convergence == y.convergence
      && multiset(Active(x.findings)) == multiset(Active(y.findings))
  {
    hide ScaleOk, Active, Dedup, SortDesc, CapAll, Converge, Total, PuaWeight, Discounted, Reclassify, CAPS;
    var p, q := Capped(a, scale), Capped(b, scale);
    DedupPermutation(a, b);
    CapAllPermutation(Dedup(SortDesc(a), {}), Dedup(SortDesc(b), {}), CAPS, scale);
    SortKeepsEvidence(p);
    SortKeepsEvidence(q);
    TotalsPermutation(p, q);
    TotalsPermutation(SortDesc(p), SortDesc(q));
    ConvergePermutation(SortDesc(p), SortDesc(q));
  }

  // ---- stability on re-run ----

  /** Nothing left for deduplication: later members of a group already weigh nothing. */
  ghost predicate Deduplicated(fs: seq<Finding>) {
    forall i, j :: 0 <= i < j < |fs| && SameGroup(fs[i], fs[j]) ==> fs[j] == Zeroed(fs[j])
  }

  lemma DeduplicatedCons(f: Finding, fs: seq<Finding>)
    ensures Deduplicated([f] + fs) <==> Deduplicated(fs) && forall g :: g in fs && SameGroup(f, g) ==> g == Zeroed(g)
  {
    var all := [f] + fs;
    if Deduplicated(all) {
      assert forall j :: 0 <= j < |fs| ==> fs[j] == all[j + 1];
      forall g | g in fs && SameGroup(f, g) ensures g == Zeroed(g) {
        var j :| 0 <= j < |fs| && fs[j] == g;
        assert SameGroup(all[0], all[j + 1]);
      }
    }
  }

  lemma {:induction false} DedupCleans(fs: seq<Finding>, seen: set<(Layer, BehaviorTag)>)
    ensures Deduplicated(Dedup(fs, seen))
    ensures forall g :: g in Dedup(fs, seen) && !Exempt(g.tag) && (g.layer, g.tag.value) in seen ==> g == Zeroed(g)
    decreases |fs|
  {
    hide Deduplicated;
    if fs == [] {
      NothingToClean();
    } else {
      var f, rest := fs[0], fs[1..];
      assert fs == [f] + rest;
      DedupHead(f, rest, seen);
      DedupCleans(rest, SeenAfter(f, seen));
      DeduplicatedCons(HeadAfter(f, seen), Dedup(rest, SeenAfter(f, seen)));
    }
  }

  lemma NothingToClean()
    ensures Deduplicated([])
  {
  }

  /** Deduplicating a deduplicated list does nothing. */
  lemma {:induction false} DedupIdle(fs: seq<Finding>, seen: set<(Layer, BehaviorTag)>)
    requires Deduplicated(fs)
    requires forall g :: g in fs && !Exempt(g.tag) && (g.layer, g.tag.value) in seen ==> g == Zeroed(g)
    ensures Dedup(fs, seen) == fs
    decreases |fs|
  {
    hide Deduplicated;
    if fs != [] {
      var f, rest := fs[0], fs[1..];
      assert fs == [f] + rest;
      DeduplicatedCons(f, rest);
      DedupHead(f, rest, seen);
      DedupIdle(rest, SeenAfter(f, seen));
    }
  }

  lemma CappedStaysClean(fs: seq<Finding>, c: seq<Finding>)
    requires Deduplicated(fs) && CappedFrom(fs, c)
    ensures Deduplicated(c)
  {
  }

  lemma {:induction false} InsertCleans(x: Finding, fs: seq<Finding>)
    requires Deduplicated([x] + fs)
    ensures Deduplicated(Insert(x, fs))
    decreases |fs|
  {
    hide Deduplicated;
    if fs != [] && fs[0].weight > x.weight {
      var f, rest := fs[0], fs[1..];
      assert fs == [f] + rest;
      DeduplicatedCons(x, fs);
      DeduplicatedCons(f, rest);
      DeduplicatedCons(x, rest);
      InsertCleans(x, rest);
      InsertedMembers(x, rest);
      assert !SameGroup(x, f);
      DeduplicatedCons(f, Insert(x, rest));
    }
  }

  lemma {:induction false} SortCleans(fs: seq<Finding>)
    requires Deduplicated(fs)
    ensures Deduplicated(SortDesc(fs))
    decreases |fs|
  {
    hide Deduplicated;
    if fs != [] {
      var f, rest := fs[0], fs[1..];
      assert fs == [f] + rest;
      DeduplicatedCons(f, rest);
      SortCleans(rest);
      SortDescSorts(rest);
      SameMembers(SortDesc(rest), rest);
      DeduplicatedCons(f, SortDesc(rest));
      InsertCleans(f, SortDesc(rest));
    }
  }

  lemma CapsAreDistinct()
    ensures DistinctLayers(CAPS)
  {
  }

  /** The findings an aggregation leaves: sorted, deduplicated, every capped layer within its cap. */
  lemma AggregateNormalises(fs: seq<Finding>, reputation: nat, authenticode: nat, scale: Scale)
    requires ScaleOk(scale)
    ensures var out := Aggregate(fs, reputation, authenticode, scale).findings;
      && Descending(out) && Deduplicated(out)
      && (forall i :: 0 <= i < |CAPS| ==> LayerTotal(out, CAPS[i].0) <= CAPS[i].1)
  {
    hide ScaleOk, Active, Dedup, Deduplicated, Descending, SortDesc, CapAll, Converge, Total, PuaWeight, LayerTotal,
      Discounted, Reclassify, CAPS, DistinctLayers, CappedFrom;
    var deduped, capped := Dedup(SortDesc(fs), {}), Capped(fs, scale);
    DedupCleans(SortDesc(fs), {});
    CapAllShape(deduped, CAPS, scale);
    CappedStaysClean(deduped, capped);
    SortCleans(capped);
    SortDescSorts(capped);
    CapsAreDistinct();
    SortKeepsEvidence(capped);
    forall i | 0 <= i < |CAPS| ensures LayerTotal(SortDesc(capped), CAPS[i].0) <= CAPS[i].1 {
      CapAllOneLayer(deduped, CAPS, scale, i);
      LayerTotalPermutation(SortDesc(capped), capped, CAPS[i].0);
    }
  }

  /** The caps in numbers. */
  lemma CapsInNumbers(fs: seq<Finding>, reputation: nat, authenticode: nat, scale: Scale)
    requires ScaleOk(scale)
    ensures var out := Aggregate(fs, reputation, authenticode, scale).findings;
      && LayerTotal(out, StructuralAnalysis) <= 30 && LayerTotal(out, YaraRules) <= 40
      && LayerTotal(out, Context) <= 15 && LayerTotal(out, PackerDetection) <= 20
      && LayerTotal(out, PatternDetection) <= 25 && LayerTotal(out, ScriptAnalysis) <= 40
      && LayerTotal(out, FileDeception) <= 50
  {
    hide ScaleOk, Aggregate, Deduplicated, Descending, LayerTotal;
    AggregateNormalises(fs, reputation, authenticode, scale);
    var out := Aggregate(fs, reputation, authenticode, scale).findings;
    assert forall i :: 0 <= i < 7 ==> LayerTotal(out, CAPS[i].0) <= CAPS[i].1;
    assert CAPS[0] == (StructuralAnalysis, 30) && CAPS[1] == (YaraRules, 40) && CAPS[2] == (Context, 15);
    assert CAPS[3] == (PackerDetection, 20) && CAPS[4] == (PatternDetection, 25) && CAPS[5] == (ScriptAnalysis, 40);
    assert CAPS[6] == (FileDeception, 50);
  }

  /** Layers that are within their cap, or have none, keep the total deduplication left them. */
  lemma UncappedTotals(fs: seq<Finding>, scale: Scale, l: Layer)
    requires ScaleOk(scale)
    requires Uncapped(l, CAPS)
    ensures LayerTotal(Capped(fs, scale), l) == LayerTotal(Dedup(SortDesc(fs), {}), l)
  {
    hide ScaleOk, CapAll, LayerTotal;
    CapAllElsewhere(Dedup(SortDesc(fs), {}), CAPS, scale, l);
  }

  /** Aggregating an aggregation's own findings again changes nothing: not the list, the score or the verdict. */
  lemma RerunIsStable(fs: seq<Finding>, reputation: nat, authenticode: nat, scale: Scale)
    requires ScaleOk(scale)
    ensures var a := Aggregate(fs, reputation, authenticode, scale);
      Aggregate(a.findings, reputation, authenticode, scale) == a
  {
    hide ScaleOk, Active, Dedup, Deduplicated, Descending, SortDesc, CapAll, Converge, Total, PuaWeight, LayerTotal,
      Discounted, Reclassify, CAPS;
    var out := Aggregate(fs, reputation, authenticode, scale).findings;
    AggregateNormalises(fs, reputation, authenticode, scale);
    SortDescIdle(out);
    DedupIdle(out, {});
    CapAllIdle(out, CAPS, scale);
    SortKeepsEvidence(Capped(fs, scale));
    TotalsPermutation(out, Capped(fs, scale));
  }

  // ---- score and verdict ----

  /** The raw score is the total weight of the findings the aggregation leaves. */
  lemma RawIsTotal(fs: seq<Finding>, reputation: nat, authenticode: nat, scale: Scale)
    ensures var a := Aggregate(fs, reputation, authenticode, scale); a.raw == Total(a.findings)
  {
    hide Capped, SortDesc, Active, Total, PuaWeight, Converge;
    SortKeepsEvidence(Capped(fs, scale));
    TotalsPermutation(SortDesc(Capped(fs, scale)), Capped(fs, scale));
  }

  /** The total weight as a sum over positions, whatever their order. */
  lemma {:induction false} TotalSplits(a: seq<Finding>, f: Finding, b: seq<Finding>)
    ensures Total(a + [f] + b) == f.weight + Total(a + b) && Total([]) == 0
    ensures PuaWeight(a + [f] + b)
         == (if f.tag == Some(BehaviorTag.PotentiallyUnwanted) then f.weight else 0) + PuaWeight(a + b)
    decreases |a|
  {
    if a == [] {
      assert [] + [f] + b == [f] + b && ([f] + b)[1..] == b && [] + b == b;
    } else {
      TotalSplits(a[1..], f, b);
      assert (a + [f] + b)[1..] == a[1..] + [f] + b && (a + b)[1..] == a[1..] + b;
    }
  }

  /**
   The score is capped and discounts do not stack; the verdict names the band of the score, unless the score is
   suspicious and at least half the raw score (rounded down) comes from potentially unwanted software.
   */
  lemma ScoreAndVerdict(fs: seq<Finding>, reputation: nat, authenticode: nat, scale: Scale)
    ensures var a := Aggregate(fs, reputation, authenticode, scale);
      var total, discount := Total(a.findings), if reputation >= authenticode then reputation else authenticode;
      var unwanted := 25 < a.score <= 75 && 0 < PuaWeight(a.findings) && total <= 2 * PuaWeight(a.findings) + 1;
      && a.raw == total && a.convergence == Converge(a.findings)
      && a.score <= 100 && (total <= discount ==> a.score == 0)
      && (discount < total <= discount + 100 ==> a.score == total - discount)
      && (total > discount + 100 ==> a.score == 100)
      && a.score == Min(Aggregate(fs, reputation, 0, scale).score, Aggregate(fs, 0, authenticode, scale).score)
      && (a.verdict == Clean <==> total <= reputation || total <= authenticode)
      && (a.verdict == LowSuspicion <==> 0 < a.score <= 25)
      && (a.verdict == Suspicious <==> 25 < a.score <= 50 && !unwanted)
      && (a.verdict == HighSuspicion <==> 50 < a.score <= 75 && !unwanted)
      && (a.verdict == Malicious <==> a.score > 75)
      && (a.verdict == Verdict.PotentiallyUnwanted <==> unwanted)
  {
    hide Capped, SortDesc, Total, PuaWeight, Converge;
    RawIsTotal(fs, reputation, authenticode, scale);
  }

  // ---- the in-place form ----

  /** The library's stable sort of the finding list. */
  method SortByWeight(findings: array<Finding>)
    modifies findings
    ensures findings[..] == SortDesc(old(findings[..]))
  {
    var sorted := SortDesc(findings[..]);
    forall i | 0 <= i < findings.Length { findings[i] := sorted[i]; }
  }

  /** `deduplicate_findings`. */
  method DeduplicateFindings(findings: array<Finding>)
    modifies findings
    ensures findings[..] == Dedup(SortDesc(old(findings[..])), {})
  {
    hide Dedup, SortDesc, SeenAfter, HeadAfter;
    NothingToDedup();
    SortByWeight(findings);
    ghost var sorted := findings[..];
    var seen: set<(Layer, BehaviorTag)> := {};
    var i := 0;
    while i < findings.Length
      invariant 0 <= i <= findings.Length && findings[i..] == sorted[i..]
      invariant findings[..i] + Dedup(sorted[i..], seen) == Dedup(sorted, {})
    {
      var f := findings[i];
      assert f == findings[i..][0];
      DedupStep(findings[..i], sorted, i, seen);
      if f.tag.Some? && f.tag.value != DownloadOriginContext {
        var key := (f.layer, f.tag.value);
        if key in seen {
          findings[i] := f.(weight := 0, severity := Info);
        } else {
          seen := seen + {key};
        }
      }
      assert findings[..i + 1] == findings[..i] + [findings[i]];
      assert findings[i + 1..] == sorted[i + 1..];
      i := i + 1;
    }
    assert findings[..i] == findings[..] && sorted[i..] == [];
  }

  lemma NothingToDedup()
    ensures forall seen :: Dedup([], seen) == []
  {
  }

  /** One more finding treated, whichever of the three branches it takes. */
  lemma DedupStep(done: seq<Finding>, sorted: seq<Finding>, i: nat, seen: set<(Layer, BehaviorTag)>)
    requires i < |sorted|
    ensures done + Dedup(sorted[i..], seen)
         == (done + [HeadAfter(sorted[i], seen)]) + Dedup(sorted[i + 1..], SeenAfter(sorted[i], seen))
    ensures Exempt(sorted[i].tag) ==> HeadAfter(sorted[i], seen) == sorted[i] && SeenAfter(sorted[i], seen) == seen
    ensures !Exempt(sorted[i].tag) ==>
      var key := (sorted[i].layer, sorted[i].tag.value);
      && HeadAfter(sorted[i], seen) == (if key in seen then Zeroed(sorted[i]) else sorted[i])
      && SeenAfter(sorted[i], seen) == if key in seen then seen else seen + {key}
  {
    assert sorted[i..] == [sorted[i]] + sorted[i + 1..];
    DedupHead(sorted[i], sorted[i + 1..], seen);
    hide Dedup;
    if !Exempt(sorted[i].tag) && (sorted[i].layer, sorted[i].tag.value) in seen {
      assert seen + {(sorted[i].layer, sorted[i].tag.value)} == seen;
    }
  }

  lemma {:induction false} LayerTotalSnoc(fs: seq<Finding>, x: Finding, l: Layer)
    ensures LayerTotal(fs + [x], l) == LayerTotal(fs, l) + if x.layer == l then x.weight else 0
    decreases |fs|
  {
    if fs == [] {
      assert [x][1..] == [];
    } else {
      LayerTotalSnoc(fs[1..], x, l);
      assert (fs + [x])[1..] == fs[1..] + [x];
    }
  }

  /** `apply_cap`. */
  method ApplyCap(findings: array<Finding>, l: Layer, cap: nat, scale: Scale)
    modifies findings
    ensures findings[..] == CapLayer(old(findings[..]), l, cap, scale)
  {
    ghost var start := findings[..];
    var total, i := 0, 0;
    while i < findings.Length
      invariant 0 <= i <= findings.Length && findings[..] == start && total == LayerTotal(start[..i], l)
    {
      assert start[..i + 1] == start[..i] + [findings[i]];
      LayerTotalSnoc(start[..i], findings[i], l);
      if findings[i].layer == l { total := total + findings[i].weight; }
      i := i + 1;
    }
    assert start[..i] == start;
    if total > cap && total > 0 {
      i := 0;
      while i < findings.Length
        invariant 0 <= i <= findings.Length
        invariant forall k :: 0 <= k < i ==> findings[k] == ScaleOne(start[k], l, cap, total, scale)
        invariant forall k :: i <= k < findings.Length ==> findings[k] == start[k]
      {
        if findings[i].layer == l {
          findings[i] := findings[i].(weight := scale(findings[i].weight, cap, total));
        }
        i := i + 1;
      }
      assert findings[..] == ScaleAll(start, l, cap, total, scale);
    }
  }

  lemma CapAllOnce(fs: seq<Finding>, k: nat, scale: Scale)
    requires k < |CAPS|
    ensures CapAll(fs, CAPS[k..], scale) == CapAll(CapLayer(fs, CAPS[k].0, CAPS[k].1, scale), CAPS[k + 1..], scale)
  {
    assert CAPS[k..][1..] == CAPS[k + 1..];
    hide CapLayer;
  }

  /** The seven caps, one after the other. */
  method ApplyCaps(findings: array<Finding>, scale: Scale)
    modifies findings
    ensures findings[..] == CapAll(old(findings[..]), CAPS, scale)
  {
    hide CapLayer, CapAll;
    ghost var start := findings[..];
    assert CAPS[0..] == CAPS;
    CapAllOnce(findings[..], 0, scale);
    ApplyCap(findings, StructuralAnalysis, 30, scale);
    CapAllOnce(findings[..], 1, scale);
    ApplyCap(findings, YaraRules, 40, scale);
    CapAllOnce(findings[..], 2, scale);
    ApplyCap(findings, Context, 15, scale);
    CapAllOnce(findings[..], 3, scale);
    ApplyCap(findings, PackerDetection, 20, scale);
    CapAllOnce(findings[..], 4, scale);
    ApplyCap(findings, PatternDetection, 25, scale);
    CapAllOnce(findings[..], 5, scale);
    ApplyCap(findings, ScriptAnalysis, 40, scale);
    CapAllOnce(findings[..], 6, scale);
    ApplyCap(findings, FileDeception, 50, scale);
    NoCapsLeft(findings[..], scale);
  }

  lemma NoCapsLeft(fs: seq<Finding>, scale: Scale)
    ensures CapAll(fs, CAPS[7..], scale) == fs
  {
  }

  /** `aggregate_score`, on the finding list itself. */
  method AggregateScore(findings: array<Finding>, reputation: nat, authenticode: nat, scale: Scale)
    returns (score: nat, verdict: Verdict, convergence: ConvergenceInfo)
    modifies findings
    ensures var a := Aggregate(old(findings[..]), reputation, authenticode, scale);
      && findings[..] == a.findings && score == a.score && verdict == a.verdict && convergence == a.convergence
  {
    hide Dedup, CapAll, CAPS, SortDesc, Total, PuaWeight, Converge;
    DeduplicateFindings(findings);
    ApplyCaps(findings, scale);
    var raw := Total(findings[..]);
    var discount := if reputation >= authenticode then reputation else authenticode;
    var adjusted := if raw >= discount then raw - discount else 0;
    score := if adjusted <= MAX_SCORE then adjusted else MAX_SCORE;
    SortByWeight(findings);
    verdict := FromScore(score);
    if verdict == Suspicious || verdict == HighSuspicion {
      var pua := PuaWeight(findings[..]);
      if pua > 0 && pua >= raw / 2 { verdict := Verdict.PotentiallyUnwanted; }
    }
    convergence := Converge(findings[..]);
  }
}
