/** Findings, their stable sort, and sums over lists that only depend on the multiset. */
module Findings {
  import opened Bytes
  import opened Progression

  datatype Layer =
    | Signatures | YaraRules | MimeValidation | StructuralAnalysis | PackerDetection | ScriptAnalysis
    | IocCorrelation | PatternDetection | FileDeception | Reputation | Context | BehavioralRuntime
    | AlternateDataStream | PersistenceLocation

  datatype Severity = Info | Low | Medium | High | Critical

  /** `tag` is the behaviour tag, a function of the fields that scoring never changes. */
  datatype Finding = Finding(
    layer: Layer, severity: Severity, weight: nat, tag: Option<BehaviorTag>, detail: Option<string>,
    description: string)

  // ---- the stable sort, heaviest first ----

  /** Insert before the first finding that is not heavier, so equal weights keep their order. */
  function Insert(x: Finding, fs: seq<Finding>): (r: seq<Finding>)
    ensures |r| == |fs| + 1
  {
    if fs == [] || fs[0].weight <= x.weight then [x] + fs else [fs[0]] + Insert(x, fs[1..])
  }

  function SortDesc(fs: seq<Finding>): (r: seq<Finding>)
    ensures |r| == |fs|
  {
    if fs == [] then [] else Insert(fs[0], SortDesc(fs[1..]))
  }

  predicate Descending(fs: seq<Finding>) {
    forall i, j :: 0 <= i < j < |fs| ==> fs[i].weight >= fs[j].weight
  }

  lemma {:induction false} InsertMultiset(x: Finding, fs: seq<Finding>)
    ensures multiset(Insert(x, fs)) == multiset{x} + multiset(fs)
    decreases |fs|
  {
    if fs != [] && fs[0].weight > x.weight {
      InsertMultiset(x, fs[1..]);
      assert fs == [fs[0]] + fs[1..];
    }
  }

  lemma DescendingCons(x: Finding, fs: seq<Finding>)
    requires Descending(fs) && forall f :: f in fs ==> x.weight >= f.weight
    ensures Descending([x] + fs)
  {
    assert forall j :: 0 <= j < |fs| ==> fs[j] in fs;
  }

  lemma DescendingTail(fs: seq<Finding>)
    requires Descending(fs) && fs != []
    ensures Descending(fs[1..]) && forall f :: f in fs ==> fs[0].weight >= f.weight
  {
  }

  lemma {:induction false} InsertDescends(x: Finding, fs: seq<Finding>)
    requires Descending(fs)
    ensures Descending(Insert(x, fs))
    decreases |fs|
  {
    hide Descending;
    if fs == [] {
      SingleDescends(x);
    } else {
      DescendingTail(fs);
      if fs[0].weight <= x.weight {
        DescendingCons(x, fs);
      } else {
        InsertDescends(x, fs[1..]);
        InsertMultiset(x, fs[1..]);
        InsertedMembers(x, fs[1..]);
        DescendingCons(fs[0], Insert(x, fs[1..]));
      }
    }
  }

  lemma SingleDescends(x: Finding)
    ensures Descending([x] + [])
  {
  }

  lemma InsertedMembers(x: Finding, fs: seq<Finding>)
    ensures forall f :: f in Insert(x, fs) ==> f == x || f in fs
  {
    InsertMultiset(x, fs);
    forall f | f in Insert(x, fs) ensures f == x || f in fs {
      assert f in multiset(Insert(x, fs));
    }
  }

  /** Sorting yields the same findings, heaviest first. */
  lemma {:induction false} SortDescSorts(fs: seq<Finding>)
    ensures multiset(SortDesc(fs)) == multiset(fs) && Descending(SortDesc(fs))
    decreases |fs|
  {
    if fs != [] {
      SortDescSorts(fs[1..]);
      hide Descending;
      InsertMultiset(fs[0], SortDesc(fs[1..]));
      InsertDescends(fs[0], SortDesc(fs[1..]));
      assert fs == [fs[0]] + fs[1..];
    }
  }

  lemma SameMembers(a: seq<Finding>, b: seq<Finding>)
    requires multiset(a) == multiset(b)
    ensures |a| == |b| && forall f :: f in a <==> f in b
  {
    assert forall f :: f in a <==> f in multiset(a);
    assert forall f :: f in b <==> f in multiset(b);
    assert |multiset(a)| == |a| && |multiset(b)| == |b|;
  }

  /** A sorted list is left exactly as it is: stability. */
  lemma {:induction false} SortDescIdle(fs: seq<Finding>)
    requires Descending(fs)
    ensures SortDesc(fs) == fs
    decreases |fs|
  {
    if fs != [] {
      SortDescIdle(fs[1..]);
      assert fs == [fs[0]] + fs[1..];
    }
  }

  // ---- what scoring looks at: layer, tag and weight of the findings that weigh something ----

  datatype Evidence = Evidence(layer: Layer, tag: Option<BehaviorTag>, weight: nat)

  function EvidenceOf(f: Finding): Evidence { Evidence(f.layer, f.tag, f.weight) }

  function Active(fs: seq<Finding>): (es: seq<Evidence>) {
    if fs == [] then []
    else if fs[0].weight == 0 then Active(fs[1..])
    else [EvidenceOf(fs[0])] + Active(fs[1..])
  }

  function SumBy(f: Evidence -> nat, es: seq<Evidence>): (n: nat) {
    if es == [] then 0 else f(es[0]) + SumBy(f, es[1..])
  }

  lemma {:induction false} SumByRemove(f: Evidence -> nat, es: seq<Evidence>, j: nat)
    requires j < |es|
    ensures SumBy(f, es) == f(es[j]) + SumBy(f, es[..j] + es[j + 1..])
    decreases j
  {
    if j == 0 {
      assert es[..0] + es[1..] == es[1..];
    } else {
      SumByRemove(f, es[1..], j - 1);
      var rest := es[..j] + es[j + 1..];
      assert rest[0] == es[0] && rest[1..] == es[1..][..j - 1] + es[1..][j..];
    }
  }

  /** Two lists with the same multiset: the head of one can be removed from the other. */
  lemma MatchHead<T>(a: seq<T>, b: seq<T>) returns (j: nat)
    requires multiset(a) == multiset(b) && a != []
    ensures j < |b| && b[j] == a[0] && multiset(b[..j] + b[j + 1..]) == multiset(a[1..])
  {
    assert a == [a[0]] + a[1..];
    assert a[0] in multiset(b);
    j :| 0 <= j < |b| && b[j] == a[0];
    assert b == b[..j] + [b[j]] + b[j + 1..];
    assert multiset(b) == multiset(b[..j]) + multiset{b[j]} + multiset(b[j + 1..]);
    assert multiset(a) == multiset{a[0]} + multiset(a[1..]);
    assert multiset(b[..j] + b[j + 1..]) == multiset(b) - multiset{a[0]};
    assert multiset(a[1..]) == multiset(a) - multiset{a[0]};
  }

  /** Sums do not depend on the order. */
  lemma {:induction false} SumByPermutation(f: Evidence -> nat, a: seq<Evidence>, b: seq<Evidence>)
    requires multiset(a) == multiset(b)
    ensures SumBy(f, a) == SumBy(f, b)
    decreases |a|
  {
    if a == [] {
      assert |multiset(b)| == 0;
    } else {
      var j := MatchHead(a, b);
      SumByPermutation(f, a[1..], b[..j] + b[j + 1..]);
      SumByRemove(f, b, j);
    }
  }

  lemma {:induction false} ActivePermutation(a: seq<Finding>, b: seq<Finding>)
    requires multiset(a) == multiset(b)
    ensures multiset(Active(a)) == multiset(Active(b))
    decreases |a|
  {
    if a == [] {
      assert |multiset(b)| == 0;
    } else {
      var j := MatchHead(a, b);
      ActivePermutation(a[1..], b[..j] + b[j + 1..]);
      ActiveRemove(b, j);
    }
  }

  lemma ActiveCons(f: Finding, fs: seq<Finding>)
    ensures multiset(Active([f] + fs)) == Weighing(f) + multiset(Active(fs))
  {
    assert ([f] + fs)[1..] == fs;
  }

  function Weighing(f: Finding): multiset<Evidence> {
    if f.weight == 0 then multiset{} else multiset{EvidenceOf(f)}
  }

  lemma {:induction false} ActiveRemove(b: seq<Finding>, j: nat)
    requires j < |b|
    ensures multiset(Active(b)) == multiset(Active(b[..j] + b[j + 1..])) + Weighing(b[j])
    decreases j
  {
    hide Active, Weighing;
    ActiveCons(b[0], b[1..]);
    assert b == [b[0]] + b[1..];
    if j == 0 {
      assert b[..0] + b[1..] == b[1..];
    } else {
      var tail := b[1..];
      ActiveRemove(tail, j - 1);
      assert b[..j] + b[j + 1..] == [b[0]] + (tail[..j - 1] + tail[j..]);
      ActiveCons(b[0], tail[..j - 1] + tail[j..]);
    }
  }
}
