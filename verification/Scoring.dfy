/** ARGUS score aggregation: dedup per behaviour and layer, layer caps, discount, verdict. */
module Scoring {
  import opened Bytes
  import opened Progression
  import opened Findings

  // ---- deduplication ----

  /** Findings without a tag, and context, are never deduplicated. */
  predicate Exempt(tag: Option<BehaviorTag>) { tag.None? || tag.value == DownloadOriginContext }

  predicate InGroup(f: Finding, l: Layer, t: BehaviorTag) { f.layer == l && f.tag == Some(t) }

  predicate SameGroup(f: Finding, g: Finding) { !Exempt(f.tag) && f.layer == g.layer && f.tag == g.tag }

  function Zeroed(f: Finding): Finding { f.(weight := 0, severity := Info) }

  /** First finding of each (behaviour, layer) keeps its weight; later ones count for nothing. */
  function Dedup(fs: seq<Finding>, seen: set<(Layer, BehaviorTag)>): (r: seq<Finding>)
    ensures |r| == |fs|
  {
    if fs == [] then []
    else if Exempt(fs[0].tag) then [fs[0]] + Dedup(fs[1..], seen)
    else if (fs[0].layer, fs[0].tag.value) in seen then [Zeroed(fs[0])] + Dedup(fs[1..], seen)
    else [fs[0]] + Dedup(fs[1..], seen + {(fs[0].layer, fs[0].tag.value)})
  }

  /**
   What deduplication does to each finding: one that is exempt or first of its group is left as it is, and any other
   keeps everything but its weight, now zero, and its severity, now informational.
   */
  lemma {:induction false} DedupExactly(fs: seq<Finding>, seen: set<(Layer, BehaviorTag)>, i: nat)
    requires i < |fs|
    ensures var repeated := !Exempt(fs[i].tag)
        && ((fs[i].layer, fs[i].tag.value) in seen || exists j :: 0 <= j < i && SameGroup(fs[j], fs[i]));
      var r := Dedup(fs, seen)[i];
      if repeated then r.weight == 0 && r.severity == Info && r == fs[i].(weight := r.weight, severity := r.severity)
      else r == fs[i]
    decreases |fs|
  {
    hide Exempt;
    var f, rest := fs[0], fs[1..];
    assert fs == [f] + rest;
    if i > 0 {
      DedupExactly(rest, SeenAfter(f, seen), i - 1);
      DedupHead(f, rest, seen);
      assert Dedup(fs, seen)[i] == Dedup(rest, SeenAfter(f, seen))[i - 1];
      if !Exempt(fs[i].tag) { GroupSeen(fs, seen, i); }
    }
  }

  /** The tail sees the head's group as seen. */
  lemma GroupSeen(fs: seq<Finding>, seen: set<(Layer, BehaviorTag)>, i: nat)
    requires 0 < i < |fs| && !Exempt(fs[i].tag)
    ensures ((fs[i].layer, fs[i].tag.value) in seen || exists j :: 0 <= j < i && SameGroup(fs[j], fs[i])) <==>
      ((fs[i].layer, fs[i].tag.value) in SeenAfter(fs[0], seen)
       || exists j :: 0 <= j < i - 1 && SameGroup(fs[1..][j], fs[1..][i - 1]))
  {
    assert forall j :: 0 <= j < |fs| - 1 ==> fs[1..][j] == fs[j + 1];
    forall j | 0 <= j < i && SameGroup(fs[j], fs[i])
      ensures SameGroup(fs[0], fs[i]) || exists k :: 0 <= k < i - 1 && SameGroup(fs[1..][k], fs[1..][i - 1])
    {
      if j > 0 { assert SameGroup(fs[1..][j - 1], fs[1..][i - 1]); }
    }
    forall k | 0 <= k < i - 1 && SameGroup(fs[1..][k], fs[1..][i - 1]) ensures SameGroup(fs[k + 1], fs[i]) {}
  }

  /** Weight of the first finding of a group. */
  function First(fs: seq<Finding>, l: Layer, t: BehaviorTag): (w: Option<nat>) {
    if fs == [] then None else if InGroup(fs[0], l, t) then Some(fs[0].weight) else First(fs[1..], l, t)
  }

  ghost predicate IsMax(fs: seq<Finding>, l: Layer, t: BehaviorTag, w: nat) {
    && (exists f :: f in fs && InGroup(f, l, t) && f.weight == w)
    && (forall f :: f in fs && InGroup(f, l, t) ==> f.weight <= w)
  }

  lemma FirstCons(f: Finding, fs: seq<Finding>, l: Layer, t: BehaviorTag)
    ensures First([f] + fs, l, t) == if InGroup(f, l, t) then Some(f.weight) else First(fs, l, t)
    ensures First([], l, t) == None
  {
    assert ([f] + fs)[1..] == fs;
  }

  /** The maximum of a group depends on who is in the list, not on the order. */
  lemma MaxMembers(a: seq<Finding>, b: seq<Finding>, l: Layer, t: BehaviorTag, w: nat)
    requires forall f :: InGroup(f, l, t) ==> (f in a <==> f in b)
    ensures IsMax(a, l, t, w) <==> IsMax(b, l, t, w)
  {
  }

  lemma MaxSkip(f: Finding, fs: seq<Finding>, l: Layer, t: BehaviorTag, w: nat)
    requires !InGroup(f, l, t)
    ensures IsMax([f] + fs, l, t, w) <==> IsMax(fs, l, t, w)
  {
    hide IsMax;
    forall g | InGroup(g, l, t) ensures g in [f] + fs <==> g in fs {
      assert g != f;
    }
    MaxMembers([f] + fs, fs, l, t, w);
  }

  lemma MaxHead(f: Finding, fs: seq<Finding>, l: Layer, t: BehaviorTag, w: nat)
    requires InGroup(f, l, t) && forall g :: g in fs ==> f.weight >= g.weight
    ensures IsMax([f] + fs, l, t, w) <==> w == f.weight
  {
    assert f in [f] + fs && forall g :: g in [f] + fs <==> g == f || g in fs;
    hide InGroup;
  }

  lemma {:induction false} FirstIsMax(fs: seq<Finding>, l: Layer, t: BehaviorTag, w: nat)
    requires Descending(fs)
    ensures First(fs, l, t) == Some(w) <==> IsMax(fs, l, t, w)
    decreases |fs|
  {
    hide Descending, First, IsMax;
    if fs == [] {
      NothingFirst(l, t, w);
    } else {
      var f, rest := fs[0], fs[1..];
      assert fs == [f] + rest;
      DescendingTail(fs);
      FirstCons(f, rest, l, t);
      if InGroup(f, l, t) {
        MaxHead(f, rest, l, t, w);
      } else {
        MaxSkip(f, rest, l, t, w);
        FirstIsMax(rest, l, t, w);
      }
    }
  }

  lemma NothingFirst(l: Layer, t: BehaviorTag, w: nat)
    ensures First([], l, t) == None && !IsMax([], l, t, w)
  {
  }

  /** Total weight of a (behaviour, layer) group. */
  function GroupTotal(fs: seq<Finding>, l: Layer, t: BehaviorTag): (n: nat) {
    if fs == [] then 0 else (if InGroup(fs[0], l, t) then fs[0].weight else 0) + GroupTotal(fs[1..], l, t)
  }

  lemma GroupCons(f: Finding, fs: seq<Finding>, l: Layer, t: BehaviorTag)
    ensures GroupTotal([f] + fs, l, t) == (if InGroup(f, l, t) then f.weight else 0) + GroupTotal(fs, l, t)
  {
    assert ([f] + fs)[1..] == fs;
  }

  lemma DedupHead(f: Finding, fs: seq<Finding>, seen: set<(Layer, BehaviorTag)>)
    ensures Dedup([f] + fs, seen) == [HeadAfter(f, seen)] + Dedup(fs, SeenAfter(f, seen))
  {
    assert ([f] + fs)[1..] == fs;
    if !Exempt(f.tag) && (f.layer, f.tag.value) in seen { assert SeenAfter(f, seen) == seen; }
  }

  function SeenAfter(f: Finding, seen: set<(Layer, BehaviorTag)>): set<(Layer, BehaviorTag)> {
    if Exempt(f.tag) then seen else seen + {(f.layer, f.tag.value)}
  }

  function HeadAfter(f: Finding, seen: set<(Layer, BehaviorTag)>): Finding {
    if !Exempt(f.tag) && (f.layer, f.tag.value) in seen then Zeroed(f) else f
  }

  lemma {:induction false} DedupGroup(fs: seq<Finding>, seen: set<(Layer, BehaviorTag)>, l: Layer, t: BehaviorTag)
    requires t != DownloadOriginContext
    ensures GroupTotal(Dedup(fs, seen), l, t)
         == if (l, t) in seen || First(fs, l, t).None? then 0 else First(fs, l, t).value
    decreases |fs|
  {
    if fs != [] {
      var f, rest := fs[0], fs[1..];
      assert fs == [f] + rest;
      DedupGroup(rest, SeenAfter(f, seen), l, t);
      DedupHead(f, rest, seen);
      GroupCons(HeadAfter(f, seen), Dedup(rest, SeenAfter(f, seen)), l, t);
      FirstCons(f, rest, l, t);
    }
  }

  /** After deduplication each group of a behaviour and a layer contributes exactly its maximum weight. */
  lemma DedupKeepsGroupMaximum(fs: seq<Finding>, l: Layer, t: BehaviorTag)
    requires t != DownloadOriginContext
    ensures var total := GroupTotal(Dedup(SortDesc(fs), {}), l, t);
      if exists f :: f in fs && InGroup(f, l, t) then IsMax(fs, l, t, total) else total == 0
  {
    var s := SortDesc(fs);
    SortDescSorts(fs);
    SameMembers(s, fs);
    DedupGroup(s, {}, l, t);
    FirstExists(s, l, t);
    if First(s, l, t).Some? { FirstIsMax(s, l, t, First(s, l, t).value); }
  }

  lemma {:induction false} FirstExists(fs: seq<Finding>, l: Layer, t: BehaviorTag)
    ensures First(fs, l, t).Some? <==> exists f :: f in fs && InGroup(f, l, t)
    decreases |fs|
  {
    if fs != [] {
      FirstExists(fs[1..], l, t);
      assert fs == [fs[0]] + fs[1..];
      if InGroup(fs[0], l, t) { assert fs[0] in fs; }
    }
  }

  /** How often a piece of evidence survives deduplication. */
  lemma {:induction false} DedupCount(fs: seq<Finding>, seen: set<(Layer, BehaviorTag)>, e: Evidence)
    requires e.weight > 0
    ensures multiset(Active(Dedup(fs, seen)))[e] == Survivors(fs, seen, e)
    decreases |fs|
  {
    hide Active, Dedup, First, Survivors, SeenAfter, HeadAfter;
    if fs == [] {
      NoSurvivors(seen, e);
    } else {
      var f, rest := fs[0], fs[1..];
      assert fs == [f] + rest;
      DedupCount(rest, SeenAfter(f, seen), e);
      DedupHead(f, rest, seen);
      ActiveCons(HeadAfter(f, seen), Dedup(rest, SeenAfter(f, seen)));
      SurvivorsCons(f, rest, seen, e);
    }
  }

  /** How many copies of a piece of evidence deduplication leaves. */
  function Survivors(fs: seq<Finding>, seen: set<(Layer, BehaviorTag)>, e: Evidence): (n: nat) {
    if Exempt(e.tag) then multiset(Active(fs))[e]
    else if (e.layer, e.tag.value) in seen then 0
    else if First(fs, e.layer, e.tag.value) == Some(e.weight) then 1 else 0
  }

  lemma NoSurvivors(seen: set<(Layer, BehaviorTag)>, e: Evidence)
    ensures Survivors([], seen, e) == 0 == multiset(Active(Dedup([], seen)))[e]
  {
  }

  lemma SurvivorsCons(f: Finding, fs: seq<Finding>, seen: set<(Layer, BehaviorTag)>, e: Evidence)
    requires e.weight > 0
    ensures Survivors([f] + fs, seen, e) == Weighing(HeadAfter(f, seen))[e] + Survivors(fs, SeenAfter(f, seen), e)
  {
    hide Active, First;
    ActiveCons(f, fs);
    if !Exempt(e.tag) { FirstCons(f, fs, e.layer, e.tag.value); }
  }

  lemma {:induction false} ActiveWeighs(fs: seq<Finding>)
    ensures forall e :: e in Active(fs) ==> e.weight > 0
    decreases |fs|
  {
    if fs != [] { ActiveWeighs(fs[1..]); }
  }

  /** Deduplicating any ordering of the same findings leaves the same evidence. */
  lemma DedupPermutation(a: seq<Finding>, b: seq<Finding>)
    requires multiset(a) == multiset(b)
    ensures multiset(Active(Dedup(SortDesc(a), {}))) == multiset(Active(Dedup(SortDesc(b), {})))
  {
    hide SortDesc, Dedup, Active, Descending;
    var s, t := SortDesc(a), SortDesc(b);
    SortDescSorts(a);
    SortDescSorts(b);
    SameMembers(s, t);
    ActivePermutation(s, t);
    var x, y := Active(Dedup(s, {})), Active(Dedup(t, {}));
    ActiveWeighs(Dedup(s, {}));
    ActiveWeighs(Dedup(t, {}));
    forall e: Evidence ensures multiset(x)[e] == multiset(y)[e] {
      if e.weight == 0 {
        assert e !in x && e !in y;
      } else {
        SurvivesEqually(s, t, e);
      }
    }
  }

  lemma SurvivesEqually(s: seq<Finding>, t: seq<Finding>, e: Evidence)
    requires Descending(s) && Descending(t) && (forall f :: f in s <==> f in t)
    requires multiset(Active(s)) == multiset(Active(t)) && e.weight > 0
    ensures multiset(Active(Dedup(s, {})))[e] == multiset(Active(Dedup(t, {})))[e]
  {
    hide Active, Dedup, Descending, First, IsMax;
    DedupCount(s, {}, e);
    DedupCount(t, {}, e);
    if !Exempt(e.tag) {
      MaxMembers(s, t, e.layer, e.tag.value, e.weight);
      FirstIsMax(s, e.layer, e.tag.value, e.weight);
      FirstIsMax(t, e.layer, e.tag.value, e.weight);
    }
  }

  // ---- layer caps ----

  /** Scaling a weight by cap/total, rounded down; the source computes it in floating point. */
  type Scale = (nat, nat, nat) -> nat

  /** All that is assumed of it: within one below the exact value, and monotone in the weight. */
  ghost predicate ScaleOk(scale: Scale) {
    && (forall w: nat, cap: nat, total: nat :: cap < total ==>
          scale(w, cap, total) * total <= w * cap <= (scale(w, cap, total) + 1) * total)
    && (forall v: nat, w: nat, cap: nat, total: nat :: cap < total && v <= w ==>
          scale(v, cap, total) <= scale(w, cap, total))
  }

  /** The exact floor is one such scaling. */
  lemma FloorIsScale()
    ensures ScaleOk((w: nat, cap: nat, total: nat) => if total == 0 then 0 else w * cap / total)
  {
    var scale: Scale := (w: nat, cap: nat, total: nat) => if total == 0 then 0 else w * cap / total;
    forall w: nat, cap: nat, total: nat | cap < total
      ensures scale(w, cap, total) * total <= w * cap <= (scale(w, cap, total) + 1) * total
    {
      FloorBounds(w * cap, total);
    }
    forall v: nat, w: nat, cap: nat, total: nat | cap < total && v <= w
      ensures scale(v, cap, total) <= scale(w, cap, total)
    {
      MulMonotone(v, w, cap);
      DivMonotone(v * cap, w * cap, total);
    }
  }

  lemma FloorBounds(x: nat, d: nat)
    requires d > 0
    ensures x / d * d <= x <= (x / d + 1) * d
  {
    assert x == x / d * d + x % d;
  }

  lemma MulMonotone(v: nat, w: nat, c: nat)
    requires v <= w
    ensures v * c <= w * c
  {
    assert w * c == v * c + (w - v) * c;
  }

  lemma DivMonotone(x: nat, y: nat, d: nat)
    requires x <= y && d > 0
    ensures x / d <= y / d
  {
    FloorBounds(x, d);
    assert y == y / d * d + y % d;
    Quotients(x / d, y / d, y % d, d);
  }

  lemma Quotients(p: nat, q: nat, r: nat, d: nat)
    requires p * d <= q * d + r && r < d
    ensures p <= q
  {
    if p > q { MulMonotone(q + 1, p, d); }
  }

  function LayerTotal(fs: seq<Finding>, l: Layer): (n: nat) {
    if fs == [] then 0 else (if fs[0].layer == l then fs[0].weight else 0) + LayerTotal(fs[1..], l)
  }

  function LayerCount(fs: seq<Finding>, l: Layer): (n: nat) {
    if fs == [] then 0 else (if fs[0].layer == l then 1 else 0) + LayerCount(fs[1..], l)
  }

  /** Every finding of a layer counts once in it, with its weight, wherever it stands. */
  lemma {:induction false} LayerSplits(a: seq<Finding>, f: Finding, b: seq<Finding>, l: Layer)
    ensures LayerTotal([], l) == 0 == LayerCount([], l)
    ensures LayerTotal(a + [f] + b, l) == (if f.layer == l then f.weight else 0) + LayerTotal(a + b, l)
    ensures LayerCount(a + [f] + b, l) == (if f.layer == l then 1 else 0) + LayerCount(a + b, l)
    decreases |a|
  {
    if a == [] {
      assert [] + [f] + b == [f] + b && ([f] + b)[1..] == b && [] + b == b;
    } else {
      LayerSplits(a[1..], f, b, l);
      assert (a + [f] + b)[1..] == a[1..] + [f] + b && (a + b)[1..] == a[1..] + b;
    }
  }

  function ScaleOne(f: Finding, l: Layer, cap: nat, total: nat, scale: Scale): Finding {
    if f.layer == l then f.(weight := scale(f.weight, cap, total)) else f
  }

  function ScaleAll(fs: seq<Finding>, l: Layer, cap: nat, total: nat, scale: Scale): (r: seq<Finding>)
    ensures |r| == |fs| && forall i :: 0 <= i < |fs| ==> r[i] == ScaleOne(fs[i], l, cap, total, scale)
  {
    if fs == [] then [] else [ScaleOne(fs[0], l, cap, total, scale)] + ScaleAll(fs[1..], l, cap, total, scale)
  }

  function CapLayer(fs: seq<Finding>, l: Layer, cap: nat, scale: Scale): (r: seq<Finding>)
    ensures |r| == |fs|
  {
    var total := LayerTotal(fs, l);
    if total > cap then ScaleAll(fs, l, cap, total, scale) else fs
  }

  lemma Distribute(a: nat, b: nat, c: nat)
    ensures (a + b) * c == a * c + b * c
  {
  }

  /** The scaled weights of a layer, against its total: at most cap/total of it, at least that less one per finding. */
  lemma {:induction false} ScaledTotal(fs: seq<Finding>, l: Layer, cap: nat, total: nat, scale: Scale)
    requires ScaleOk(scale) && cap < total
    ensures LayerTotal(ScaleAll(fs, l, cap, total, scale), l) * total <= LayerTotal(fs, l) * cap
    ensures LayerTotal(fs, l) * cap <= (LayerTotal(ScaleAll(fs, l, cap, total, scale), l) + LayerCount(fs, l)) * total
    decreases |fs|
  {
    if fs != [] {
      ScaledTotal(fs[1..], l, cap, total, scale);
      var rest := LayerTotal(ScaleAll(fs[1..], l, cap, total, scale), l);
      var w := fs[0].weight;
      if fs[0].layer == l {
        var s := scale(w, cap, total);
        assert s * total <= w * cap <= (s + 1) * total;
        hide ScaleOk;
        Distribute(s, rest, total);
        Distribute(w, LayerTotal(fs[1..], l), cap);
        Distribute(s + 1, rest + LayerCount(fs[1..], l), total);
      }
    }
  }

  lemma {:induction false} ScaleOtherLayer(fs: seq<Finding>, l: Layer, cap: nat, total: nat, scale: Scale, other: Layer)
    requires other != l
    ensures LayerTotal(ScaleAll(fs, l, cap, total, scale), other) == LayerTotal(fs, other)
    decreases |fs|
  {
    if fs != [] { ScaleOtherLayer(fs[1..], l, cap, total, scale, other); }
  }

  lemma MulCancel(a: nat, b: nat, t: nat)
    requires t > 0 && a * t <= b * t
    ensures a <= b
  {
    Distribute(b, 1, t);
    if a > b { MulMonotone(b + 1, a, t); }
  }

  /** A capped layer ends between cap less its number of findings and cap; other layers keep their total. */
  lemma CapLayerTotal(fs: seq<Finding>, l: Layer, cap: nat, scale: Scale)
    requires ScaleOk(scale)
    ensures var c := CapLayer(fs, l, cap, scale);
      && LayerTotal(c, l) <= cap
      && (LayerTotal(fs, l) > cap ==> cap <= LayerTotal(c, l) + LayerCount(fs, l))
      && (forall other :: other != l ==> LayerTotal(c, other) == LayerTotal(fs, other))
  {
    var total := LayerTotal(fs, l);
    hide ScaleOk, ScaleAll, LayerTotal, LayerCount;
    if total > cap {
      ScaledTotal(fs, l, cap, total, scale);
      var after := LayerTotal(ScaleAll(fs, l, cap, total, scale), l);
      MulCancel(after, cap, total);
      MulCancel(cap, after + LayerCount(fs, l), total);
      forall other | other != l ensures LayerTotal(ScaleAll(fs, l, cap, total, scale), other) == LayerTotal(fs, other) {
        ScaleOtherLayer(fs, l, cap, total, scale, other);
      }
    }
  }

  const CAPS: seq<(Layer, nat)> := [
    (StructuralAnalysis, 30), (YaraRules, 40), (Context, 15), (PackerDetection, 20),
    (PatternDetection, 25), (ScriptAnalysis, 40), (FileDeception, 50)]

  function CapAll(fs: seq<Finding>, caps: seq<(Layer, nat)>, scale: Scale): (r: seq<Finding>)
    ensures |r| == |fs|
    decreases |caps|
  {
    if caps == [] then fs else CapAll(CapLayer(fs, caps[0].0, caps[0].1, scale), caps[1..], scale)
  }

  predicate DistinctLayers(caps: seq<(Layer, nat)>) {
    forall i, j :: 0 <= i < j < |caps| ==> caps[i].0 != caps[j].0
  }

  predicate Uncapped(l: Layer, caps: seq<(Layer, nat)>) {
    forall i :: 0 <= i < |caps| ==> caps[i].0 != l
  }

  lemma {:induction false} ScaleKeepsCount(fs: seq<Finding>, l: Layer, cap: nat, total: nat, scale: Scale, other: Layer)
    ensures LayerCount(ScaleAll(fs, l, cap, total, scale), other) == LayerCount(fs, other)
    decreases |fs|
  {
    if fs != [] { ScaleKeepsCount(fs[1..], l, cap, total, scale, other); }
  }

  lemma CapKeepsCount(fs: seq<Finding>, l: Layer, cap: nat, scale: Scale, other: Layer)
    ensures LayerCount(CapLayer(fs, l, cap, scale), other) == LayerCount(fs, other)
  {
    ScaleKeepsCount(fs, l, cap, LayerTotal(fs, l), scale, other);
  }

  ghost predicate Untouched(fs: seq<Finding>, c: seq<Finding>, l: Layer) {
    && |fs| == |c|
    && forall k :: 0 <= k < |fs| && fs[k].layer == l ==> c[k] == fs[k]
  }

  lemma CapElsewhere(fs: seq<Finding>, l: Layer, cap: nat, scale: Scale, other: Layer)
    requires ScaleOk(scale) && other != l
    ensures Untouched(fs, CapLayer(fs, l, cap, scale), other)
    ensures forall k :: 0 <= k < |fs| ==> CapLayer(fs, l, cap, scale)[k].layer == fs[k].layer
    ensures LayerTotal(CapLayer(fs, l, cap, scale), other) == LayerTotal(fs, other)
  {
    CapLayerTotal(fs, l, cap, scale);
  }

  /** A layer no cap names is untouched by all of them. */
  lemma {:induction false} CapAllElsewhere(fs: seq<Finding>, caps: seq<(Layer, nat)>, scale: Scale, l: Layer)
    requires ScaleOk(scale) && Uncapped(l, caps)
    ensures Untouched(fs, CapAll(fs, caps, scale), l) && LayerTotal(CapAll(fs, caps, scale), l) == LayerTotal(fs, l)
    decreases |caps|
  {
    if caps != [] {
      hide ScaleOk, CapLayer, LayerTotal;
      CapElsewhere(fs, caps[0].0, caps[0].1, scale, l);
      assert forall i :: 0 <= i < |caps| - 1 ==> caps[1..][i] == caps[i + 1];
      CapAllElsewhere(CapLayer(fs, caps[0].0, caps[0].1, scale), caps[1..], scale, l);
    }
  }

  /**
   What all the caps do to one capped layer: over its cap it ends between the cap less its number of findings
   and the cap; within its cap every one of its findings is left as it was.
   */
  lemma {:induction false} CapAllOneLayer(fs: seq<Finding>, caps: seq<(Layer, nat)>, scale: Scale, i: nat)
    requires ScaleOk(scale) && DistinctLayers(caps) && i < |caps|
    ensures var l, cap, out := caps[i].0, caps[i].1, CapAll(fs, caps, scale);
      && LayerTotal(out, l) <= cap
      && (LayerTotal(fs, l) > cap ==> cap <= LayerTotal(out, l) + LayerCount(fs, l))
      && (LayerTotal(fs, l) <= cap ==> Untouched(fs, out, l))
    decreases |caps|
  {
    hide ScaleOk, CapLayer, LayerTotal, LayerCount;
    var l := caps[i].0;
    var next := CapLayer(fs, caps[0].0, caps[0].1, scale);
    CapLayerTotal(fs, caps[0].0, caps[0].1, scale);
    assert forall j :: 0 <= j < |caps| - 1 ==> caps[1..][j] == caps[j + 1];
    if i == 0 {
      CapAllElsewhere(next, caps[1..], scale, l);
      WithinCap(fs, l, caps[0].1, scale);
    } else {
      CapElsewhere(fs, caps[0].0, caps[0].1, scale, l);
      CapKeepsCount(fs, caps[0].0, caps[0].1, scale, l);
      CapAllOneLayer(next, caps[1..], scale, i - 1);
    }
  }

  lemma WithinCap(fs: seq<Finding>, l: Layer, cap: nat, scale: Scale)
    ensures LayerTotal(fs, l) <= cap ==> CapLayer(fs, l, cap, scale) == fs
  {
  }

  /** Findings within every cap are left exactly as they are. */
  lemma {:induction false} CapAllIdle(fs: seq<Finding>, caps: seq<(Layer, nat)>, scale: Scale)
    requires forall i :: 0 <= i < |caps| ==> LayerTotal(fs, caps[i].0) <= caps[i].1
    ensures CapAll(fs, caps, scale) == fs
    decreases |caps|
  {
    if caps != [] {
      hide LayerTotal;
      assert forall i :: 0 <= i < |caps| - 1 ==> caps[1..][i] == caps[i + 1];
      CapAllIdle(fs, caps[1..], scale);
    }
  }

  /** What capping never touches, and the order of weights inside a layer. */
  ghost predicate CappedFrom(fs: seq<Finding>, c: seq<Finding>) {
    && |c| == |fs|
    && (forall i :: 0 <= i < |fs| ==> c[i] == fs[i].(weight := c[i].weight) && c[i].weight <= fs[i].weight)
    && (forall i, j :: 0 <= i < |fs| && 0 <= j < |fs| && fs[i].layer == fs[j].layer && fs[i].weight <= fs[j].weight
          ==> c[i].weight <= c[j].weight)
  }

  lemma CapLayerShape(fs: seq<Finding>, l: Layer, cap: nat, scale: Scale)
    requires ScaleOk(scale)
    ensures CappedFrom(fs, CapLayer(fs, l, cap, scale))
  {
    var total := LayerTotal(fs, l);
    if total > cap {
      forall w: nat ensures scale(w, cap, total) <= w {
        MulMonotone(cap, total, w);
        MulCancel(scale(w, cap, total), w, total);
      }
    }
  }

  lemma {:induction false} CapAllShape(fs: seq<Finding>, caps: seq<(Layer, nat)>, scale: Scale)
    requires ScaleOk(scale)
    ensures CappedFrom(fs, CapAll(fs, caps, scale))
    decreases |caps|
  {
    if caps != [] {
      hide ScaleOk, CapLayer;
      var next := CapLayer(fs, caps[0].0, caps[0].1, scale);
      CapLayerShape(fs, caps[0].0, caps[0].1, scale);
      CapAllShape(next, caps[1..], scale);
    }
  }

  // ---- capping depends on the evidence only ----

  function ScaledEvidence(e: Evidence, l: Layer, cap: nat, total: nat, scale: Scale): Evidence {
    if e.layer == l then e.(weight := scale(e.weight, cap, total)) else e
  }

  /** One if `x` scales to exactly `e`. */
  function Becomes(e: Evidence, l: Layer, cap: nat, total: nat, scale: Scale): Evidence -> nat {
    (x: Evidence) => if ScaledEvidence(x, l, cap, total, scale) == e then 1 else 0
  }

  lemma {:induction false} ScaledCount(fs: seq<Finding>, l: Layer, cap: nat, total: nat, scale: Scale, e: Evidence)
    requires scale(0, cap, total) == 0 && e.weight > 0
    ensures multiset(Active(ScaleAll(fs, l, cap, total, scale)))[e]
         == SumBy(Becomes(e, l, cap, total, scale), Active(fs))
    decreases |fs|
  {
    hide Active, ScaleAll, SumBy, Becomes;
    if fs == [] {
      NothingScaled(l, cap, total, scale, e);
    } else {
      var f, rest := fs[0], fs[1..];
      assert fs == [f] + rest;
      ScaledCount(rest, l, cap, total, scale, e);
      ScaleCons(f, rest, l, cap, total, scale);
      ActiveCons(ScaleOne(f, l, cap, total, scale), ScaleAll(rest, l, cap, total, scale));
      BecomesCons(f, rest, l, cap, total, scale, e);
    }
  }

  lemma NothingScaled(l: Layer, cap: nat, total: nat, scale: Scale, e: Evidence)
    ensures multiset(Active(ScaleAll([], l, cap, total, scale)))[e] == 0
         == SumBy(Becomes(e, l, cap, total, scale), Active([]))
  {
  }

  lemma ScaleCons(f: Finding, fs: seq<Finding>, l: Layer, cap: nat, total: nat, scale: Scale)
    ensures ScaleAll([f] + fs, l, cap, total, scale)
         == [ScaleOne(f, l, cap, total, scale)] + ScaleAll(fs, l, cap, total, scale)
  {
    assert ([f] + fs)[1..] == fs;
  }

  lemma BecomesCons(f: Finding, fs: seq<Finding>, l: Layer, cap: nat, total: nat, scale: Scale, e: Evidence)
    requires scale(0, cap, total) == 0 && e.weight > 0
    ensures SumBy(Becomes(e, l, cap, total, scale), Active([f] + fs))
      == Weighing(ScaleOne(f, l, cap, total, scale))[e] + SumBy(Becomes(e, l, cap, total, scale), Active(fs))
  {
    assert ([f] + fs)[1..] == fs;
    if f.weight > 0 {
      assert ([EvidenceOf(f)] + Active(fs))[1..] == Active(fs);
    }
  }

  lemma {:induction false} LayerTotalIsSum(fs: seq<Finding>, l: Layer)
    ensures LayerTotal(fs, l) == SumBy((x: Evidence) => if x.layer == l then x.weight else 0, Active(fs))
    decreases |fs|
  {
    if fs != [] { LayerTotalIsSum(fs[1..], l); }
  }

  lemma ScaleZero(scale: Scale, cap: nat, total: nat)
    requires ScaleOk(scale) && cap < total
    ensures scale(0, cap, total) == 0
  {
    if scale(0, cap, total) > 0 {
      MulMonotone(1, scale(0, cap, total), total);
    }
  }

  lemma ScaledPermutation(a: seq<Finding>, b: seq<Finding>, l: Layer, cap: nat, total: nat, scale: Scale)
    requires scale(0, cap, total) == 0 && multiset(Active(a)) == multiset(Active(b))
    ensures multiset(Active(ScaleAll(a, l, cap, total, scale))) == multiset(Active(ScaleAll(b, l, cap, total, scale)))
  {
    hide Active, SumBy, ScaleAll, Becomes;
    var x, y := ScaleAll(a, l, cap, total, scale), ScaleAll(b, l, cap, total, scale);
    ActiveWeighs(x);
    ActiveWeighs(y);
    forall e: Evidence ensures multiset(Active(x))[e] == multiset(Active(y))[e] {
      if e.weight == 0 {
        assert e !in Active(x) && e !in Active(y);
      } else {
        ScaledCount(a, l, cap, total, scale, e);
        ScaledCount(b, l, cap, total, scale, e);
        SumByPermutation(Becomes(e, l, cap, total, scale), Active(a), Active(b));
      }
    }
  }

  lemma LayerTotalPermutation(a: seq<Finding>, b: seq<Finding>, l: Layer)
    requires multiset(Active(a)) == multiset(Active(b))
    ensures LayerTotal(a, l) == LayerTotal(b, l)
  {
    hide Active, SumBy, LayerTotal;
    LayerTotalIsSum(a, l);
    LayerTotalIsSum(b, l);
    SumByPermutation((x: Evidence) => if x.layer == l then x.weight else 0, Active(a), Active(b));
  }

  lemma CapPermutation(a: seq<Finding>, b: seq<Finding>, l: Layer, cap: nat, scale: Scale)
    requires ScaleOk(scale) && multiset(Active(a)) == multiset(Active(b))
    ensures multiset(Active(CapLayer(a, l, cap, scale))) == multiset(Active(CapLayer(b, l, cap, scale)))
  {
    hide ScaleOk, Active, LayerTotal, ScaleAll;
    LayerTotalPermutation(a, b, l);
    var total := LayerTotal(a, l);
    if total > cap {
      ScaleZero(scale, cap, total);
      ScaledPermutation(a, b, l, cap, total, scale);
    }
  }

  lemma {:induction false} CapAllPermutation(a: seq<Finding>, b: seq<Finding>, caps: seq<(Layer, nat)>, scale: Scale)
    requires ScaleOk(scale) && multiset(Active(a)) == multiset(Active(b))
    ensures multiset(Active(CapAll(a, caps, scale))) == multiset(Active(CapAll(b, caps, scale)))
    decreases |caps|
  {
    if caps != [] {
      hide ScaleOk, Active, CapLayer;
      CapPermutation(a, b, caps[0].0, caps[0].1, scale);
      var x, y := CapLayer(a, caps[0].0, caps[0].1, scale), CapLayer(b, caps[0].0, caps[0].1, scale);
      CapAllPermutation(x, y, caps[1..], scale);
    }
  }
}
