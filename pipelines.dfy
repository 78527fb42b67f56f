/**
 * The compositions of lib/fil/fil.go that chain the filters: the three-level peptide filter
 * (`processPeptideIdentifications`), its second-pass variants on PSMs restricted to a protein list
 * (`sequentialFDRControl`, `twoDFDRFilter`), and the protein pipeline
 * (`processProteinIdentifications`). Logging and serialisation are not modelled; the lists that
 * would be serialised are returned.
 */
module Pipelines {
  import opened Seqs
  import opened Strs
  import opened Ident
  import opened Fdr
  import opened Grouping
  import opened PepFilter
  import opened Sequential
  import Picked
  import Razor
  import ProtFilter

  /** The filtered PSM, peptide and ion lists (what `Serialize("psm"/"pep"/"ion")` would store). */
  datatype LevelResults = LevelResults(psms: seq<PepId>, peptides: seq<PepId>, ions: seq<PepId>)

  /**
   * `pool` holds one best-scoring PSM of `p` per key: each comes from `p` and scores at least as
   * high as every PSM sharing its key, every key of `p` is represented, no PSM is listed twice and
   * no two PSMs share a key.
   */
  ghost predicate BestOfEach<K>(pool: seq<PepId>, p: seq<PepId>, key: PepId -> K)
  {
    && (forall x :: x in pool ==> x in p && forall y :: y in p && key(y) == key(x) ==> y.probability <= x.probability)
    && (forall y :: y in p ==> Represented(pool, key, key(y)))
    && (forall x :: multiset(pool)[x] <= 1)
    && (forall x, y :: x in pool && y in pool && key(x) == key(y) ==> x == y)
  }

  ghost predicate Represented<K>(pool: seq<PepId>, key: PepId -> K, k: K)
  {
    exists x :: x in pool && key(x) == k
  }

  /** The heads of sorted groups are the best entry of each key, one per key. */
  lemma HeadPool<K(!new)>(m: map<K, seq<PepId>>, p: seq<PepId>, key: PepId -> K, lvl: Level, pool: seq<PepId>)
    requires GroupsOf(m, p, key) && forall k :: k in m ==> SortedDesc(m[k], Prob)
    requires lvl != PsmLevel && multiset(pool) == Pool(m, Selector(lvl))
    ensures BestOfEach(pool, p, key)
  {
    forall x | x in pool ensures x in p && forall y :: y in p && key(y) == key(x) ==> y.probability <= x.probability {
      assert x in multiset(pool);
      LevelPool(m, lvl, x);
      var k :| k in m && |m[k]| > 0 && m[k][0] == x;
      GroupMember(m, p, key, k, x);
      forall y | y in p && key(y) == key(x) ensures y.probability <= x.probability {
        GroupHeadIsBest(m, p, key, k, y);
      }
    }
    forall y | y in p ensures Represented(pool, key, key(y)) {
      GroupHeadIsBest(m, p, key, key(y), y);
      var k := key(y);
      LevelPool(m, lvl, m[k][0]);
      assert m[k][0] in multiset(pool);
      GroupMember(m, p, key, k, m[k][0]);
    }
    forall k | k in m ensures |Selector(lvl)(m[k])| <= 1 && forall y :: y in Selector(lvl)(m[k]) ==> key(y) == k {
      assert Selector(lvl)(m[k]) == [m[k][0]];
      GroupMember(m, p, key, k, m[k][0]);
    }
    forall x ensures multiset(pool)[x] <= 1 {
      PoolOnePerKey(m, Selector(lvl), key, x);
    }
    forall x, y | x in pool && y in pool && key(x) == key(y) ensures x == y {
      assert x in multiset(pool) && y in multiset(pool);
      LevelPool(m, lvl, x);
      LevelPool(m, lvl, y);
      var kx :| kx in m && |m[kx]| > 0 && m[kx][0] == x;
      var ky :| ky in m && |m[ky]| > 0 && m[ky][0] == y;
      GroupMember(m, p, key, kx, x);
      GroupMember(m, p, key, ky, y);
    }
  }

  lemma GroupMember<K(!new)>(m: map<K, seq<PepId>>, p: seq<PepId>, key: PepId -> K, k: K, x: PepId)
    requires GroupsOf(m, p, key) && k in m && x in m[k]
    ensures x in p && key(x) == k
  {
    assert x in multiset(Filter(p, KeyIs(key, k)));
    assert x in Filter(p, KeyIs(key, k));
  }

  /** Whether the pool is the best of each key depends only on which PSMs `p` holds, not on their order. */
  lemma BestOfEachPermutation<K>(pool: seq<PepId>, p: seq<PepId>, q: seq<PepId>, key: PepId -> K)
    requires multiset(p) == multiset(q) && BestOfEach(pool, p, key)
    ensures BestOfEach(pool, q, key)
  {
    SameMembers(p, q);
    SameMembers(q, p);
  }

  lemma SameMembers(p: seq<PepId>, q: seq<PepId>)
    requires multiset(p) == multiset(q)
    ensures forall x :: x in p ==> x in q
  {
    forall x | x in p ensures x in q {
      assert x in multiset(p);
    }
  }

  /**
   * The three filtered lists of `p`: the PSM level keeps what the sweep keeps on the whole sorted
   * input; the peptide and ion levels keep what it keeps on the best PSM of each key.
   */
  ghost predicate LevelsOf(r: LevelResults, p: seq<PepId>, pepPool: seq<PepId>, ionPool: seq<PepId>,
                           psm: real, peptide: real, ion: real, isDecoy: PepId -> bool, round: real -> real,
                           massText: real -> string)
  {
    && multiset(r.psms) == multiset(Kept(SortByScore(p, Prob), PsmScoring(isDecoy), round, psm))
    && BestOfEach(pepPool, p, PeptideOf)
    && r.peptides == Kept(SortByScore(pepPool, Prob), PsmScoring(isDecoy), round, peptide)
    && BestOfEach(ionPool, p, IonOf(massText))
    && r.ions == Kept(SortByScore(ionPool, Prob), PsmScoring(isDecoy), round, ion)
  }

  /**
   * `processPeptideIdentifications` without the charge-profile logging: PSMs grouped by spectrum,
   * peptides by sequence and ions by (sequence, charge, mass), each filtered at its own FDR. Its
   * three filter calls name known levels, so the `logrus.Fatal` branches are never taken.
   */
  method ProcessPeptideIdentifications(p: seq<PepId>, psm: real, peptide: real, ion: real,
                                       isDecoy: PepId -> bool, round: real -> real, massText: real -> string)
    returns (r: LevelResults, ghost pepPool: seq<PepId>, ghost ionPool: seq<PepId>)
    ensures LevelsOf(r, p, pepPool, ionPool, psm, peptide, ion, isDecoy, round, massText)
  {
    var uniqPsms := GetUniquePSMs(p);
    var uniqPeps := GetUniquePeptides(p);
    var uniqIons := ExtractIonsFromPSMs(p, massText);
    assert ParseLevel("PSM") == Some(PsmLevel);
    assert ParseLevel("Peptide") == Some(PeptideLevel);
    assert LowerAscii("Ion")[0] != LowerAscii("PSM")[0];
    assert ParseLevel("Ion") == Some(IonLevel);
    var psms, err1, psmPool := PepXMLFDRFilter(uniqPsms, psm, "PSM", isDecoy, round);
    var peps, err2, pp := PepXMLFDRFilter(uniqPeps, peptide, "Peptide", isDecoy, round);
    var ions, err3, ip := PepXMLFDRFilter(uniqIons, ion, "Ion", isDecoy, round);
    PoolGroupBy(p, SpectrumOf, Selector(PsmLevel));
    FilterOrderIndependent(psmPool, p, isDecoy, round, psm);
    HeadPool(uniqPeps, p, PeptideOf, PeptideLevel, pp);
    HeadPool(uniqIons, p, IonOf(massText), IonLevel, ip);
    r, pepPool, ionPool := LevelResults(psms, peps, ions), pp, ip;
  }

  /** Every PSM the three levels keep comes from the input. */
  lemma LevelsFromInput(r: LevelResults, p: seq<PepId>, pepPool: seq<PepId>, ionPool: seq<PepId>,
                        psm: real, peptide: real, ion: real, isDecoy: PepId -> bool, round: real -> real,
                        massText: real -> string, x: PepId)
    requires LevelsOf(r, p, pepPool, ionPool, psm, peptide, ion, isDecoy, round, massText)
    requires x in r.psms || x in r.peptides || x in r.ions
    ensures x in p
  {
    var sc := PsmScoring(isDecoy);
    if x in r.psms {
      var kept := Kept(SortByScore(p, Prob), sc, round, psm);
      assert x in multiset(r.psms);
      assert x in multiset(kept);
      KeptFrom(p, sc, round, psm, x);
    } else if x in r.peptides {
      KeptFrom(pepPool, sc, round, peptide, x);
    } else {
      KeptFrom(ionPool, sc, round, ion, x);
    }
  }

  lemma KeptFrom(l: seq<PepId>, sc: Scoring<PepId>, round: real -> real, targetFDR: real, x: PepId)
    requires x in Kept(SortByScore(l, Prob), sc, round, targetFDR)
    ensures x in l
  {
    assert x in SortByScore(l, Prob);
    assert x in multiset(SortByScore(l, Prob));
  }

  /**
   * `sequentialFDRControl` without logging: the PSMs that map into the protein list (the last one
   * per spectrum), sorted, then filtered at the three levels as `processPeptideIdentifications` does.
   */
  method SequentialFDRControl(pep: seq<PepId>, pro: seq<ProtId>, psm: real, peptide: real, ion: real,
                              isDecoy: PepId -> bool, round: real -> real, massText: real -> string)
    returns (r: LevelResults, ghost extPep: seq<PepId>, ghost pepPool: seq<PepId>, ghost ionPool: seq<PepId>)
    ensures multiset(extPep) == Pool(Singletons(SpectrumMap(pep, Names(pro))), EveryEntry)
    ensures LevelsOf(r, extPep, pepPool, ionPool, psm, peptide, ion, isDecoy, round, massText)
  {
    var ext := ExtractPSMfromPepXML(pep, pro);
    var sorted := SortByScore(ext, Prob);
    r, pepPool, ionPool := ProcessPeptideIdentifications(sorted, psm, peptide, ion, isDecoy, round, massText);
    extPep := ext;
    LevelsPermutation(r, sorted, ext, pepPool, ionPool, psm, peptide, ion, isDecoy, round, massText);
  }

  /** The three filtered lists depend only on which PSMs the input holds, not on their order. */
  lemma LevelsPermutation(r: LevelResults, p: seq<PepId>, q: seq<PepId>, pepPool: seq<PepId>, ionPool: seq<PepId>,
                          psm: real, peptide: real, ion: real, isDecoy: PepId -> bool, round: real -> real,
                          massText: real -> string)
    requires multiset(p) == multiset(q)
    requires LevelsOf(r, p, pepPool, ionPool, psm, peptide, ion, isDecoy, round, massText)
    ensures LevelsOf(r, q, pepPool, ionPool, psm, peptide, ion, isDecoy, round, massText)
  {
    FilterOrderIndependent(p, q, isDecoy, round, psm);
    BestOfEachPermutation(pepPool, p, q, PeptideOf);
    BestOfEachPermutation(ionPool, p, q, IonOf(massText));
  }

  /** After the second pass every kept PSM is the last PSM of its spectrum that maps into the protein list. */
  lemma SecondPassMapped(pep: seq<PepId>, pro: seq<ProtId>, r: LevelResults, extPep: seq<PepId>,
                         pepPool: seq<PepId>, ionPool: seq<PepId>, psm: real, peptide: real, ion: real,
                         isDecoy: PepId -> bool, round: real -> real, massText: real -> string, x: PepId)
    requires multiset(extPep) == Pool(Singletons(SpectrumMap(pep, Names(pro))), EveryEntry)
    requires LevelsOf(r, extPep, pepPool, ionPool, psm, peptide, ion, isDecoy, round, massText)
    requires x in r.psms || x in r.peptides || x in r.ions
    ensures exists i :: LastMatch(pep, Names(pro), x.spectrum, i) && pep[i] == x
    ensures MapsTo(x, Names(pro))
  {
    LevelsFromInput(r, extPep, pepPool, ionPool, psm, peptide, ion, isDecoy, round, massText, x);
    ExtractedPSMs(pep, pro, extPep);
  }
  /**
   * `twoDFDRFilter` without logging: the protein list is replaced by its target/decoy mirror, then the
   * second pass runs against the mirror's names (the mirror's profile only feeds the log).
   */
  method TwoDFDRFilter(pep: seq<PepId>, pro: seq<ProtId>, psm: real, peptide: real, ion: real, tag: string,
                       isDecoyProtein: string -> bool, isDecoy: PepId -> bool, round: real -> real, massText: real -> string)
    returns (r: LevelResults, ghost mirror: seq<ProtId>, ghost extPep: seq<PepId>, ghost pepPool: seq<PepId>,
             ghost ionPool: seq<PepId>)
    ensures mirror == MirrorList(pro, tag, isDecoyProtein)
    ensures multiset(extPep) == Pool(Singletons(SpectrumMap(pep, Names(mirror))), EveryEntry)
    ensures LevelsOf(r, extPep, pepPool, ionPool, psm, peptide, ion, isDecoy, round, massText)
  {
    var m := MirrorProteinList(pro, tag, isDecoyProtein);
    r, extPep, pepPool, ionPool := SequentialFDRControl(pep, m, psm, peptide, ion, isDecoy, round, massText);
    mirror := m;
  }

  /** The names of the target proteins and of their tag+name partners. */
  ghost function PairNames(pro: seq<ProtId>, tag: string, isDecoyProtein: string -> bool): set<string>
  {
    var targets := Filter(pro, TargetOf(isDecoyProtein));
    (set t | t in targets :: t.name) + (set t | t in targets :: tag + t.name)
  }

  /** The mirror names exactly the targets and their partners, so the 2D pass maps PSMs onto target/decoy pairs. */
  lemma MirrorNames(pro: seq<ProtId>, tag: string, isDecoyProtein: string -> bool)
    ensures Names(MirrorList(pro, tag, isDecoyProtein)) == PairNames(pro, tag, isDecoyProtein)
  {
    var r, pairs := MirrorList(pro, tag, isDecoyProtein), PairNames(pro, tag, isDecoyProtein);
    forall name | name in Names(r) ensures name in pairs {
      MirrorNameIsPair(pro, tag, isDecoyProtein, name);
    }
    forall name | name in pairs ensures name in Names(r) {
      PairIsMirrorName(pro, tag, isDecoyProtein, name);
    }
    assert forall name :: name in Names(r) <==> name in pairs;
  }

  lemma MirrorNameIsPair(pro: seq<ProtId>, tag: string, isDecoyProtein: string -> bool, name: string)
    requires name in Names(MirrorList(pro, tag, isDecoyProtein))
    ensures name in PairNames(pro, tag, isDecoyProtein)
  {
    var r, targets := MirrorList(pro, tag, isDecoyProtein), Filter(pro, TargetOf(isDecoyProtein));
    var n := |targets|;
    var k :| 0 <= k < |r| && r[k].name == name;
    if k < n {
      assert r[k] == targets[k];
      assert targets[k] in targets;
    } else {
      MirrorEntry(pro, tag, targets[k - n]);
      assert targets[k - n] in targets;
    }
  }

  lemma PairIsMirrorName(pro: seq<ProtId>, tag: string, isDecoyProtein: string -> bool, name: string)
    requires name in PairNames(pro, tag, isDecoyProtein)
    ensures name in Names(MirrorList(pro, tag, isDecoyProtein))
  {
    var r, targets := MirrorList(pro, tag, isDecoyProtein), Filter(pro, TargetOf(isDecoyProtein));
    var n := |targets|;
    var t :| t in targets && (name == t.name || name == tag + t.name);
    var i :| 0 <= i < n && targets[i] == t;
    if name == t.name {
      assert r[i] == t;
    } else {
      MirrorEntry(pro, tag, t);
      assert r[n + i].name == name;
    }
  }
  // ---------------------------------------------------------------- processProteinIdentifications

  /** The groups after `pickedFDR`: each protein's `Picked` set from the record of its name. */
  function PickedGroups(gs: seq<ProteinGroup>, tag: string, isDecoy: string -> bool): seq<ProteinGroup>
  {
    var tm, dm := Picked.TargetScores(AllProteins(gs), isDecoy), Picked.DecoyScores(AllProteins(gs), isDecoy);
    seq(|gs|, i requires 0 <= i < |gs| =>
      ProteinGroup(gs[i].number, seq(|gs[i].proteins|, j requires 0 <= j < |gs[i].proteins| =>
        Picked.SetPicked(gs[i].proteins[j], tm, dm, tag))))
  }

  /** The groups after `RazorFilter`: razor marks and `TopPepProb` from the winners of every peptide. */
  ghost function RazorGroups(gs: seq<ProteinGroup>): seq<ProteinGroup>
  {
    var razorMap := Razor.RazorMap(GroupBy(Razor.AllRefs(gs), Razor.SequenceOf));
    seq(|gs|, i requires 0 <= i < |gs| => Razor.RazorGroup(gs[i], razorMap))
  }

  /** The groups the protein filter sees: picked first when asked, then razor when asked. */
  ghost function Processed(gs: seq<ProteinGroup>, isPicked: bool, isRazor: bool, tag: string,
                           isDecoy: string -> bool): seq<ProteinGroup>
  {
    var picked := if isPicked then PickedGroups(gs, tag, isDecoy) else gs;
    if isRazor then RazorGroups(picked) else picked
  }

  /**
   * `processProteinIdentifications` without logging and serialisation: `pickedFDR` and
   * `RazorFilter` update the groups in place as the mode asks, then `ProtXMLFilter` runs on them.
   * Its error is the filter's (the razor step's parse errors are not modelled). When that error is
   * set the source stores nothing, so the list `Filtered` still carries is not one it would store.
   */
  method ProcessProteinIdentifications(groups: array<ProteinGroup>, ptFDR: real, pepProb: real, protProb: real,
                                       isPicked: bool, isRazor: bool, tag: string, isDecoy: string -> bool,
                                       round: real -> real)
    returns (r: ProtFilter.ProtResult)
    requires isPicked ==>
      forall i, j :: 0 <= i < groups.Length && 0 <= j < |groups[i].proteins| ==> |groups[i].proteins[j].ions| > 0
    modifies groups
    ensures groups[..] == Processed(old(groups[..]), isPicked, isRazor, tag, isDecoy)
    ensures r == ProtFilter.ProtXMLFilterSpec(groups[..], ptFDR, pepProb, protProb, isPicked, isRazor, isDecoy, round)
  {
    ghost var gs := groups[..];
    if isPicked {
      Picked.PickedFDR(groups, tag, isDecoy);
      PickedGroupsAre(gs, groups[..], tag, isDecoy);
    }
    ghost var picked := groups[..];
    if isRazor {
      Razor.RazorFilter(groups);
      assert groups[..] == RazorGroups(picked);
    }
    r := ProtFilter.ProtXMLFilter(groups[..], ptFDR, pepProb, protProb, isPicked, isRazor, isDecoy, round);
  }
  lemma PickedGroupsAre(gs: seq<ProteinGroup>, after: seq<ProteinGroup>, tag: string, isDecoy: string -> bool)
    requires |after| == |gs|
    requires forall i :: 0 <= i < |gs| ==>
      after[i].number == gs[i].number && |after[i].proteins| == |gs[i].proteins|
      && forall j :: 0 <= j < |after[i].proteins| ==>
           after[i].proteins[j]
           == Picked.SetPicked(gs[i].proteins[j], Picked.TargetScores(AllProteins(gs), isDecoy),
                               Picked.DecoyScores(AllProteins(gs), isDecoy), tag)
    ensures after == PickedGroups(gs, tag, isDecoy)
  {
    var spec := PickedGroups(gs, tag, isDecoy);
    forall i | 0 <= i < |gs| ensures after[i] == spec[i] {
      assert after[i].proteins == spec[i].proteins;
    }
  }
}
