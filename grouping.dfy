/**
 * Grouping and counting helpers of lib/fil/fil.go that feed the FDR sweep: PSMs grouped by
 * spectrum, by peptide sequence and by peptide ion, and the per-charge target/decoy profile.
 */
module Grouping {
  import opened Seqs
  import opened Strs
  import opened Ident

  function Prob(p: PepId): real { p.probability }
  function SpectrumOf(p: PepId): string { p.spectrum }
  function PeptideOf(p: PepId): string { p.peptide }

  /** The `uniqMap[key] = append(uniqMap[key], i)` loop. */
  method GroupInto<K>(p: seq<PepId>, key: PepId -> K) returns (m: map<K, seq<PepId>>)
    ensures m == GroupBy(p, key)
  {
    m := map[];
    for i := 0 to |p|
      invariant m == GroupBy(p[..i], key)
    {
      assert p[..i + 1][..i] == p[..i];
      m := m[key(p[i]) := Get(m, key(p[i])) + [p[i]]];
    }
    assert p[..|p|] == p;
  }

  /** The `for _, v := range uniqMap { sort.Sort(v) }` loop: every group sorted by probability, highest first. */
  method SortGroups<K>(g: map<K, seq<PepId>>) returns (m: map<K, seq<PepId>>)
    ensures m.Keys == g.Keys
    ensures forall k :: k in m ==> m[k] == SortByScore(g[k], Prob)
  {
    m := g;
    var rest := g.Keys;
    while rest != {}
      invariant rest <= g.Keys
      invariant forall k :: k in m <==> k in g
      invariant forall k :: k in rest ==> m[k] == g[k]
      invariant forall k :: k in g && k !in rest ==> m[k] == SortByScore(g[k], Prob)
      decreases |rest|
    {
      if forall k :: k !in rest {
        assert false;
      }
      var k :| k in rest;
      var sorted := SortByScore(g[k], Prob);
      m := m[k := sorted];
      rest := rest - {k};
    }
    assert m.Keys == g.Keys by {
      assert forall k :: k in m.Keys <==> k in g.Keys;
    }
  }

  /** The meaning of a group map: one group per key that occurs, holding the entries with that key. */
  ghost predicate GroupsOf<K(!new)>(m: map<K, seq<PepId>>, p: seq<PepId>, key: PepId -> K)
  {
    (forall k :: k in m <==> exists i :: 0 <= i < |p| && key(p[i]) == k)
    && (forall k :: k in m ==> |m[k]| > 0 && multiset(m[k]) == multiset(Filter(p, KeyIs(key, k))))
  }

  lemma GroupByGroups<K(!new)>(p: seq<PepId>, key: PepId -> K)
    ensures GroupsOf(GroupBy(p, key), p, key)
  {
    forall k ensures (k in GroupBy(p, key) <==> exists i :: 0 <= i < |p| && key(p[i]) == k)
      && (k in GroupBy(p, key) ==>
            |GroupBy(p, key)[k]| > 0 && GroupBy(p, key)[k] == Filter(p, KeyIs(key, k)))
    {
      GroupByIsFilter(p, key, k);
    }
  }

  /** `getUniquePSMs` (fil.go:382-391): the PSMs of each spectrum, in input order. */
  method GetUniquePSMs(p: seq<PepId>) returns (m: map<string, seq<PepId>>)
    ensures m == GroupBy(p, SpectrumOf)
    ensures GroupsOf(m, p, SpectrumOf)
    ensures forall k :: k in m ==> m[k] == Filter(p, KeyIs(SpectrumOf, k))
  {
    m := GroupInto(p, SpectrumOf);
    GroupByGroups(p, SpectrumOf);
    forall k | k in m ensures m[k] == Filter(p, KeyIs(SpectrumOf, k)) {
      GroupByIsFilter(p, SpectrumOf, k);
    }
  }

  /** Grouping followed by sorting each group keeps the groups' meaning and orders each group best first. */
  lemma SortedGroups<K(!new)>(p: seq<PepId>, key: PepId -> K, g: map<K, seq<PepId>>, m: map<K, seq<PepId>>)
    requires GroupsOf(g, p, key)
    requires m.Keys == g.Keys && forall k :: k in m ==> m[k] == SortByScore(g[k], Prob)
    ensures GroupsOf(m, p, key)
    ensures forall k :: k in m ==> SortedDesc(m[k], Prob)
  {
    forall k | k in m ensures |m[k]| > 0 && multiset(m[k]) == multiset(Filter(p, KeyIs(key, k))) {
      assert |m[k]| == |g[k]|;
    }
  }

  /** `getUniquePeptides` (fil.go:420-434): the PSMs of each peptide sequence, best first. */
  method GetUniquePeptides(p: seq<PepId>) returns (m: map<string, seq<PepId>>)
    ensures GroupsOf(m, p, PeptideOf)
    ensures forall k :: k in m ==> SortedDesc(m[k], Prob)
  {
    var g := GroupInto(p, PeptideOf);
    GroupByGroups(p, PeptideOf);
    m := SortGroups(g);
    SortedGroups(p, PeptideOf, g, m);
  }

  /** `ExtractIonsFromPSMs` (fil.go:402-417), also `getUniquePeptideIons`: the PSMs of each peptide ion, best first. */
  method ExtractIonsFromPSMs(p: seq<PepId>, massText: real -> string) returns (m: map<PsmIonKey, seq<PepId>>)
    ensures GroupsOf(m, p, IonOf(massText))
    ensures forall k :: k in m ==> SortedDesc(m[k], Prob)
  {
    var key := IonOf(massText);
    var g := GroupInto(p, key);
    GroupByGroups(p, key);
    m := SortGroups(g);
    SortedGroups(p, key, g, m);
  }

  /** The best-scoring entry of a sorted group scores at least as high as every PSM with that key. */
  lemma GroupHeadIsBest<K(!new)>(m: map<K, seq<PepId>>, p: seq<PepId>, key: PepId -> K, k: K, x: PepId)
    requires GroupsOf(m, p, key)
    requires forall j :: j in m ==> SortedDesc(m[j], Prob)
    requires x in p && key(x) == k
    ensures k in m && m[k][0].probability >= x.probability
  {
    var i :| 0 <= i < |p| && p[i] == x;
    assert key(p[i]) == k;
    FilterMultiset(p, KeyIs(key, k));
    assert x in multiset(Filter(p, KeyIs(key, k)));
    assert x in m[k];
  }

  function HasCharge(charge: nat): PepId -> bool
  {
    (x: PepId) => x.charge == charge
  }

  function ChargeDecoy(charge: nat, tag: string): PepId -> bool
  {
    (x: PepId) => x.charge == charge && Contains(x.protein, tag)
  }

  function ChargeTarget(charge: nat, tag: string): PepId -> bool
  {
    (x: PepId) => x.charge == charge && !Contains(x.protein, tag)
  }

  /**
   * `chargeProfile` (fil.go:362-379): targets and decoys among the PSMs of one charge, the decoys
   * being those whose protein name contains the tag; an error unless both counts are positive.
   */
  method ChargeProfile(p: seq<PepId>, charge: nat, tag: string) returns (t: nat, d: nat, err: bool)
    ensures t == |Filter(p, ChargeTarget(charge, tag))|
    ensures d == |Filter(p, ChargeDecoy(charge, tag))|
    ensures t + d == |Filter(p, HasCharge(charge))|
    ensures err <==> t < 1 || d < 1
  {
    t, d := 0, 0;
    for i := 0 to |p|
      invariant t == |Filter(p[..i], ChargeTarget(charge, tag))|
      invariant d == |Filter(p[..i], ChargeDecoy(charge, tag))|
      invariant t + d == |Filter(p[..i], HasCharge(charge))|
    {
      assert p[..i + 1][..i] == p[..i];
      if p[i].charge == charge {
        if Contains(p[i].protein, tag) {
          d := d + 1;
        } else {
          t := t + 1;
        }
      }
    }
    assert p[..|p|] == p;
    err := t < 1 || d < 1;
  }
}
