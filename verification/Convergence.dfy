/** How independent evidence adds up to attack chains. */
module Convergence {
  import opened Progression
  import opened Findings

  datatype Strength = NoChain | Weak | Moderate | Strong

  function Rank(s: Strength): (r: nat) {
    match s case NoChain => 0 case Weak => 1 case Moderate => 2 case Strong => 3
  }

  datatype Chain = Chain(name: string, strength: Strength)

  datatype ConvergenceInfo = ConvergenceInfo(
    distinctBehaviors: nat, distinctLayers: nat, strength: Strength, names: seq<string>, progression: nat)

  /** The behaviours with any weight behind them, download context aside. */
  function ActiveTags(fs: seq<Finding>): (r: set<BehaviorTag>) {
    set f | f in fs && f.weight > 0 && f.tag.Some? && f.tag.value != DownloadOriginContext :: f.tag.value
  }

  function ActiveLayers(fs: seq<Finding>): (r: set<Layer>) {
    set f | f in fs && f.weight > 0 :: f.layer
  }

  function ChainIf(present: bool, name: string, strength: Strength): (r: seq<Chain>) {
    if present then [Chain(name, strength)] else []
  }

  function StrongChains(tags: set<BehaviorTag>): (r: seq<Chain>) {
    ChainIf(KnownMalware in tags, "known_malware_ioc", Strong)
    + ChainIf({CredentialTheft, Exfiltration} <= tags, "stealer", Strong)
    + ChainIf(Ransomware in tags && (Injection in tags || Persistence in tags), "ransomware", Strong)
    + ChainIf({Persistence, C2Communication} <= tags, "backdoor", Strong)
    + ChainIf(WalletTheft in tags && (Exfiltration in tags || CredentialTheft in tags), "crypto_stealer", Strong)
  }

  function ModerateChains(tags: set<BehaviorTag>): (r: seq<Chain>) {
    ChainIf(FakeInstaller in tags && (Persistence in tags || DownloaderCapability in tags), "fake_installer", Moderate)
    + ChainIf(ScriptAbuse in tags && (DownloaderCapability in tags || C2Communication in tags),
              "script_malware", Moderate)
    + ChainIf({DownloaderCapability, ArchiveStaging, Evasion} <= tags, "loader", Moderate)
    + ChainIf({Persistence, DownloaderCapability} <= tags, "persistent_downloader", Moderate)
  }

  function WeakChains(tags: set<BehaviorTag>): (r: seq<Chain>) {
    ChainIf(DownloaderCapability in tags && |tags| == 1, "downloader_only", Weak)
    + ChainIf({Packing, Entropy} <= tags && |tags| <= 2, "packed_only", Weak)
  }

  function Chains(tags: set<BehaviorTag>): (r: seq<Chain>) {
    StrongChains(tags) + ModerateChains(tags) + WeakChains(tags)
  }

  function Strongest(chains: seq<Chain>): (s: Strength) {
    if chains == [] then NoChain
    else
      var rest := Strongest(chains[1..]);
      if Rank(chains[0].strength) >= Rank(rest) then chains[0].strength else rest
  }

  /** Names of the chains that are at least moderate. */
  function NamesOf(chains: seq<Chain>): (r: seq<string>) {
    if chains == [] then []
    else (if Rank(chains[0].strength) >= 2 then [chains[0].name] else []) + NamesOf(chains[1..])
  }

  function Stages(tags: set<BehaviorTag>): (r: set<nat>) { set t | t in tags :: Stage(t) }

  function ConvergenceOf(tags: set<BehaviorTag>, layers: nat): (c: ConvergenceInfo) {
    ConvergenceInfo(|tags|, layers, Strongest(Chains(tags)), NamesOf(Chains(tags)), ProgressionScore(Stages(tags)))
  }

  function Converge(fs: seq<Finding>): (c: ConvergenceInfo) {
    ConvergenceOf(ActiveTags(fs), |ActiveLayers(fs)|)
  }

  /** Convergence only looks at the evidence that weighs something, in any order. */
  lemma ConvergePermutation(a: seq<Finding>, b: seq<Finding>)
    requires multiset(Active(a)) == multiset(Active(b))
    ensures Converge(a) == Converge(b)
  {
    hide Active, ActiveTags, ActiveLayers, ConvergenceOf;
    TagsAreActive(a);
    TagsAreActive(b);
    SameEvidence(Active(a), Active(b));
  }

  function EvidenceTags(es: seq<Evidence>): set<BehaviorTag> {
    set e | e in es && e.tag.Some? && e.tag.value != DownloadOriginContext :: e.tag.value
  }

  function EvidenceLayers(es: seq<Evidence>): set<Layer> { set e | e in es :: e.layer }

  lemma SameEvidence(a: seq<Evidence>, b: seq<Evidence>)
    requires multiset(a) == multiset(b)
    ensures EvidenceTags(a) == EvidenceTags(b) && EvidenceLayers(a) == EvidenceLayers(b)
  {
    assert forall e :: e in a <==> e in multiset(a);
    assert forall e :: e in b <==> e in multiset(b);
  }

  lemma {:induction false} ActiveMembers(fs: seq<Finding>)
    ensures forall e :: e in Active(fs) <==> exists f :: f in fs && f.weight > 0 && EvidenceOf(f) == e
    decreases |fs|
  {
    if fs != [] {
      ActiveMembers(fs[1..]);
      assert fs == [fs[0]] + fs[1..];
    }
  }

  lemma TagsAreActive(fs: seq<Finding>)
    ensures ActiveTags(fs) == EvidenceTags(Active(fs)) && ActiveLayers(fs) == EvidenceLayers(Active(fs))
  {
    ActiveMembers(fs);
    forall f | f in fs && f.weight > 0 ensures EvidenceOf(f) in Active(fs) {}
  }

  lemma {:induction false} StrongestBounds(chains: seq<Chain>)
    ensures forall c :: c in chains ==> Rank(c.strength) <= Rank(Strongest(chains))
    ensures Strongest(chains) != NoChain ==> exists c :: c in chains && c.strength == Strongest(chains)
    ensures forall n :: n in NamesOf(chains) <==> exists c :: c in chains && c.name == n && Rank(c.strength) >= 2
    decreases |chains|
  {
    if chains != [] {
      StrongestBounds(chains[1..]);
      assert chains == [chains[0]] + chains[1..];
    }
  }

  lemma ChainsGrow(a: set<BehaviorTag>, b: set<BehaviorTag>, c: Chain)
    requires a <= b && c in Chains(a) && Rank(c.strength) >= 2
    ensures c in Chains(b)
  {
  }

  /** More behaviours never lose a chain that is at least moderate, nor weaken the verdict drawn from it. */
  lemma ChainsNeverLost(a: set<BehaviorTag>, b: set<BehaviorTag>, layers: nat)
    requires a <= b
    ensures var x, y := ConvergenceOf(a, layers), ConvergenceOf(b, layers);
      && (forall n :: n in x.names ==> n in y.names)
      && (Rank(x.strength) >= 2 ==> Rank(y.strength) >= Rank(x.strength))
      && x.progression <= y.progression
  {
    StrongestBounds(Chains(a));
    StrongestBounds(Chains(b));
    hide Chains;
    forall c | c in Chains(a) && Rank(c.strength) >= 2 ensures c in Chains(b) { ChainsGrow(a, b, c); }
    StagesGrow(a, b);
  }

  lemma StagesGrow(a: set<BehaviorTag>, b: set<BehaviorTag>)
    requires a <= b
    ensures ProgressionScore(Stages(a)) <= ProgressionScore(Stages(b))
  {
    assert Stages(a) <= Stages(b);
    assert forall s :: s in Advancing(Stages(a)) ==> s in Advancing(Stages(b));
    SubsetSize(Advancing(Stages(a)), Advancing(Stages(b)));
  }

  /** Which behaviours make which strong chain. */
  lemma StrongTable(tags: set<BehaviorTag>, c: Chain)
    ensures c in StrongChains(tags) <==>
      || (c == Chain("known_malware_ioc", Strong) && KnownMalware in tags)
      || (c == Chain("stealer", Strong) && CredentialTheft in tags && Exfiltration in tags)
      || (c == Chain("ransomware", Strong) && Ransomware in tags && (Injection in tags || Persistence in tags))
      || (c == Chain("backdoor", Strong) && Persistence in tags && C2Communication in tags)
      || (c == Chain("crypto_stealer", Strong)
          && WalletTheft in tags && (Exfiltration in tags || CredentialTheft in tags))
  {
  }

  /** And which moderate one. */
  lemma ModerateTable(tags: set<BehaviorTag>, c: Chain)
    ensures c in ModerateChains(tags) <==>
      || (c == Chain("fake_installer", Moderate)
          && FakeInstaller in tags && (Persistence in tags || DownloaderCapability in tags))
      || (c == Chain("script_malware", Moderate)
          && ScriptAbuse in tags && (DownloaderCapability in tags || C2Communication in tags))
      || (c == Chain("loader", Moderate) && DownloaderCapability in tags && ArchiveStaging in tags && Evasion in tags)
      || (c == Chain("persistent_downloader", Moderate) && Persistence in tags && DownloaderCapability in tags)
  {
  }

  /** The weak ones need the behaviours alone. */
  lemma WeakTable(tags: set<BehaviorTag>, c: Chain)
    ensures c in WeakChains(tags) <==>
      || (c == Chain("downloader_only", Weak) && tags == {DownloaderCapability})
      || (c == Chain("packed_only", Weak) && tags == {Packing, Entropy})
  {
    WeakOnly(tags);
  }

  /**
   The strength and the names follow from those tables: names are those of the strong and moderate chains, and the
   strength is strong, else moderate, else weak, as soon as there is such a chain, and otherwise none.
   */
  lemma StrengthTable(tags: set<BehaviorTag>)
    ensures var s, names := Strongest(Chains(tags)), NamesOf(Chains(tags));
      && (s == Strong <==> StrongChains(tags) != [])
      && (s == Moderate <==> StrongChains(tags) == [] && ModerateChains(tags) != [])
      && (s == NoChain <==> Chains(tags) == [])
      && forall n :: n in names <==>
           exists c: Chain :: c.name == n && (c in StrongChains(tags) || c in ModerateChains(tags))
  {
    var ss, ms, ws := StrongChains(tags), ModerateChains(tags), WeakChains(tags);
    StrongestBounds(ss + ms + ws);
    forall c
      ensures c in ss ==> c.strength == Strong
      ensures c in ms ==> c.strength == Moderate
      ensures c in ws ==> c.strength == Weak
    {
      StrongTable(tags, c);
      ModerateTable(tags, c);
      WeakTable(tags, c);
    }
    hide StrongChains, ModerateChains, WeakChains, Strongest, NamesOf;
    assert forall c :: c in ss + ms + ws <==> c in ss || c in ms || c in ws;
    if ss != [] { assert ss[0] in ss + ms + ws; }
    if ms != [] { assert ms[0] in ss + ms + ws; }
    if ws != [] { assert ws[0] in ss + ms + ws; }
  }

  lemma WeakOnly(tags: set<BehaviorTag>)
    ensures DownloaderCapability in tags && |tags| == 1 <==> tags == {DownloaderCapability}
    ensures {Packing, Entropy} <= tags && |tags| <= 2 <==> tags == {Packing, Entropy}
  {
    if DownloaderCapability in tags && |tags| == 1 {
      assert |tags - {DownloaderCapability}| == 0;
      assert tags == {DownloaderCapability};
    }
    if {Packing, Entropy} <= tags && |tags| <= 2 {
      assert |tags - {Packing, Entropy}| == |tags| - |{Packing, Entropy}|;
      assert tags == {Packing, Entropy};
    }
    assert |{Packing, Entropy}| == 2 && |{DownloaderCapability}| == 1;
  }

  /** What the convergence of a list of findings counts: weighing behaviours but download context, weighing layers. */
  lemma ConvergeMeaning(fs: seq<Finding>)
    ensures var c := Converge(fs);
      && c.distinctBehaviors == |ActiveTags(fs)| && c.distinctLayers == |ActiveLayers(fs)|
      && c.strength == Strongest(Chains(ActiveTags(fs))) && c.names == NamesOf(Chains(ActiveTags(fs)))
    ensures forall t :: t in ActiveTags(fs) <==>
      t != DownloadOriginContext && exists f :: f in fs && f.weight > 0 && f.tag.Some? && f.tag.value == t
    ensures forall l :: l in ActiveLayers(fs) <==> exists f :: f in fs && f.weight > 0 && f.layer == l
  {
    hide Chains;
  }
}
