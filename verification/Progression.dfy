/** Behaviour tags, attack stages, and the progression score. */
module Progression {
  datatype BehaviorTag =
    | DownloaderCapability | DownloadOriginContext | KnownMalware | Packing | Entropy | Persistence
    | CredentialTheft | Exfiltration | Ransomware | Injection | Evasion | ScriptAbuse | C2Communication
    | WalletTheft | ArchiveStaging | FakeInstaller | PotentiallyUnwanted

  const STAGES := 9

  /** Position of the tag's attack stage in the lifecycle, 0 (access) to 8 (impact). */
  function Stage(tag: BehaviorTag): (s: nat)
    ensures s < STAGES
  {
    match tag
    case DownloaderCapability | DownloadOriginContext | KnownMalware | FakeInstaller | ArchiveStaging => 0
    case ScriptAbuse | PotentiallyUnwanted => 1
    case Persistence => 2
    case Evasion | Packing | Entropy => 3
    case CredentialTheft | WalletTheft => 4
    case Injection => 5
    case Exfiltration => 6
    case C2Communication => 7
    case Ransomware => 8
  }

  /** The stages of the tags; download-origin context is not an attack stage. */
  function StageSet(tags: seq<BehaviorTag>): (r: set<nat>) {
    set t | t in tags && t != DownloadOriginContext :: Stage(t)
  }

  /** Stages followed by another one at most four stages later. */
  function Advancing(stages: set<nat>): (r: set<nat>)
    ensures r <= stages
  {
    set s | s in stages && exists t :: t in stages && s < t <= s + 4
  }

  /** Simple form of the score: at most three of the advancing stages count. */
  function ProgressionScore(stages: set<nat>): (n: nat) {
    if |Advancing(stages)| <= 3 then |Advancing(stages)| else 3
  }

  // ---- the loop: sort, dedup, count windows ----

  predicate Ascending(s: seq<nat>) { forall i, j :: 0 <= i < j < |s| ==> s[i] < s[j] }

  /** Keep a strictly ascending list while adding `x`: what sorting and then deduplicating amounts to. */
  function InsertStage(s: seq<nat>, x: nat): (r: seq<nat>) {
    if s == [] || x < s[0] then [x] + s
    else if x == s[0] then s
    else [s[0]] + InsertStage(s[1..], x)
  }

  lemma {:induction false} InsertStageKeeps(s: seq<nat>, x: nat)
    requires Ascending(s)
    ensures Ascending(InsertStage(s, x)) && forall y :: y in InsertStage(s, x) <==> y in s || y == x
    decreases |s|
  {
    if s != [] && x > s[0] {
      InsertStageKeeps(s[1..], x);
      var r := InsertStage(s[1..], x);
      assert s == [s[0]] + s[1..];
      forall j | 0 <= j < |r| ensures s[0] < r[j] { assert r[j] in r; }
    }
  }

  function Windows(s: seq<nat>): (n: nat) {
    if |s| < 2 then 0 else (if s[0] < s[1] <= s[0] + 4 then 1 else 0) + Windows(s[1..])
  }

  lemma {:induction false} WindowsSnoc(s: seq<nat>, x: nat)
    requires s != []
    ensures Windows(s + [x]) == Windows(s) + if s[|s| - 1] < x <= s[|s| - 1] + 4 then 1 else 0
    decreases |s|
  {
    if |s| == 1 {
      assert (s + [x])[1..] == [x];
    } else {
      WindowsSnoc(s[1..], x);
      assert (s + [x])[1..] == s[1..] + [x];
    }
  }

  /** One more stage below all others advances iff the next one is near. */
  lemma AdvancingStep(x: nat, next: nat, rest: set<nat>)
    requires next in rest && x < next && forall y :: y in rest ==> next <= y
    ensures Advancing({x} + rest) == (if next <= x + 4 then {x} else {}) + Advancing(rest)
    ensures x !in Advancing(rest)
  {
    if next <= x + 4 { assert next in {x} + rest; }
  }

  /** On an ascending list the window count is the number of advancing stages. */
  lemma {:induction false} WindowsAreAdvancing(s: seq<nat>)
    requires Ascending(s)
    ensures Windows(s) == |Advancing(Elements(s))|
    decreases |s|
  {
    hide Advancing, Ascending, Elements;
    if |s| < 2 {
      NoneAdvances(s);
    } else {
      TailAscends(s);
      WindowsAreAdvancing(s[1..]);
      AdvancingStep(s[0], s[1], Elements(s[1..]));
      var rest := Advancing(Elements(s[1..]));
      assert |{s[0]} + rest| == 1 + |rest| && {} + rest == rest;
    }
  }

  lemma NoneAdvances(s: seq<nat>)
    requires |s| < 2
    ensures Advancing(Elements(s)) == {}
  {
  }

  function Elements(s: seq<nat>): set<nat> { set x | x in s }

  lemma TailAscends(s: seq<nat>)
    requires Ascending(s) && |s| >= 2
    ensures Ascending(s[1..]) && Elements(s) == {s[0]} + Elements(s[1..])
    ensures s[0] < s[1] && s[1] in Elements(s[1..]) && forall y :: y in Elements(s[1..]) ==> s[1] <= y
  {
    assert s == [s[0]] + s[1..] && s[1..][0] == s[1];
  }

  /** Filter, sort and dedup. */
  method CollectStages(tags: seq<BehaviorTag>) returns (stages: seq<nat>)
    ensures Ascending(stages) && Elements(stages) == StageSet(tags)
  {
    stages := [];
    var i := 0;
    while i < |tags|
      invariant 0 <= i <= |tags| && Ascending(stages)
      invariant forall y :: y in stages <==> y in StageSet(tags[..i])
    {
      assert tags[..i + 1] == tags[..i] + [tags[i]];
      if tags[i] != DownloadOriginContext {
        InsertStageKeeps(stages, Stage(tags[i]));
        stages := InsertStage(stages, Stage(tags[i]));
      }
      i := i + 1;
    }
    assert tags[..i] == tags;
  }

  /** The loop over adjacent pairs. */
  method CountTransitions(stages: seq<nat>) returns (transitions: nat)
    requires Ascending(stages) && |stages| > 1
    ensures transitions == Windows(stages)
  {
    var k := 1;
    transitions := 0;
    while k < |stages|
      invariant 1 <= k <= |stages| && transitions == Windows(stages[..k])
    {
      assert stages[..k + 1] == stages[..k] + [stages[k]];
      WindowsSnoc(stages[..k], stages[k]);
      var gap := stages[k] - stages[k - 1];
      if 1 <= gap <= 4 { transitions := transitions + 1; }
      k := k + 1;
    }
    assert stages[..k] == stages;
  }

  /** `attack_progression_score`: order and repetition of tags do not matter. */
  method AttackProgressionScore(tags: seq<BehaviorTag>) returns (score: nat)
    ensures score == ProgressionScore(StageSet(tags))
  {
    var stages := CollectStages(tags);
    WindowsAreAdvancing(stages);
    hide Advancing, StageSet, Ascending, Elements;
    if |stages| <= 1 { return 0; }
    var transitions := CountTransitions(stages);
    return if transitions <= 3 then transitions else 3;
  }

  lemma SubsetSize(a: set<nat>, b: set<nat>)
    requires a <= b
    ensures |a| <= |b| && (a != b ==> |a| < |b|)
  {
    assert |b - a| + |a| == |b| by { assert b == (b - a) + a; }
    if a != b { assert b - a != {}; }
  }

  lemma {:induction false} GreatestStage(s: set<nat>) returns (m: nat)
    requires s != {}
    ensures m in s && forall x :: x in s ==> x <= m
    decreases |s|
  {
    m :| m in s;
    if s != {m} {
      assert s == (s - {m}) + {m};
      var n := GreatestStage(s - {m});
      if n > m { m := n; }
    }
  }

  /** At most min(3, distinct stages - 1). */
  lemma ProgressionBound(stages: set<nat>)
    ensures ProgressionScore(stages) <= 3
    ensures stages == {} ==> ProgressionScore(stages) == 0
    ensures stages != {} ==> ProgressionScore(stages) <= |stages| - 1
  {
    if stages != {} {
      var m := GreatestStage(stages);
      assert m !in Advancing(stages);
      SubsetSize(Advancing(stages), stages);
    } else {
      assert Advancing(stages) == {};
    }
  }

  /** More tags never lower the score. */
  lemma ProgressionMonotone(a: seq<BehaviorTag>, b: seq<BehaviorTag>)
    requires forall t :: t in a ==> t in b
    ensures ProgressionScore(StageSet(a)) <= ProgressionScore(StageSet(b))
  {
    assert StageSet(a) <= StageSet(b);
    assert Advancing(StageSet(a)) <= Advancing(StageSet(b));
    SubsetSize(Advancing(StageSet(a)), Advancing(StageSet(b)));
  }

  /** The lifecycle: which behaviours belong to which stage, in order. */
  lemma StageTable(tag: BehaviorTag)
    ensures Stage(tag) == 0 <==>
      tag in {DownloaderCapability, DownloadOriginContext, KnownMalware, FakeInstaller, ArchiveStaging}
    ensures Stage(tag) == 1 <==> tag in {ScriptAbuse, PotentiallyUnwanted}
    ensures Stage(tag) == 2 <==> tag == Persistence
    ensures Stage(tag) == 3 <==> tag in {Evasion, Packing, Entropy}
    ensures Stage(tag) == 4 <==> tag in {CredentialTheft, WalletTheft}
    ensures Stage(tag) == 5 <==> tag == Injection
    ensures Stage(tag) == 6 <==> tag == Exfiltration
    ensures Stage(tag) == 7 <==> tag == C2Communication
    ensures Stage(tag) == 8 <==> tag == Ransomware
  {
  }

  /** Three neighbouring stages and one far behind: two of the first three lead on, the last is too far off. */
  lemma ProgressionExample()
    ensures ProgressionScore({0, 1, 2, 8}) == 2 && ProgressionScore({0, 8}) == 0 && ProgressionScore({0, 4}) == 1
    ensures ProgressionScore({0, 1, 2, 3, 4, 5}) == 3
  {
    assert Advancing({0, 1, 2, 8}) == {0, 1};
    assert Advancing({0, 8}) == {};
    assert Advancing({0, 4}) == {0};
    assert Advancing({0, 1, 2, 3, 4, 5}) == {0, 1, 2, 3, 4} && |{0, 1, 2, 3, 4}| == 5;
  }

  /** Every tag but download context adds its own stage, and that one adds nothing. */
  lemma StagesOneByOne(tags: seq<BehaviorTag>, t: BehaviorTag)
    ensures StageSet([]) == {}
    ensures StageSet(tags + [t]) == StageSet(tags) + if t == DownloadOriginContext then {} else {Stage(t)}
  {
    assert forall x :: x in tags + [t] <==> x in tags || x == t;
  }
}
