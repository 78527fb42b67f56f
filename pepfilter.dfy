/**
 * `pepXMLFDRFilter` (lib/fil/fil.go:437-560): the PSM-, peptide- and ion-level FDR filter. The
 * groups built by the grouping helpers are pooled (every entry for PSMs, the best entry of each
 * group for peptides and ions), sorted by probability and passed through the sweep.
 */
module PepFilter {
  import opened Seqs
  import opened Strs
  import opened Ident
  import opened Fdr
  import opened Grouping

  datatype Level = PsmLevel | PeptideLevel | IonLevel

  /** The level name, matched case-insensitively in the order PSM, Peptide, Ion. */
  function ParseLevel(level: string): (r: Option<Level>)
    ensures r == Some(PsmLevel) <==> EqualFold(level, "PSM")
    ensures r.None? <==> !EqualFold(level, "PSM") && !EqualFold(level, "Peptide") && !EqualFold(level, "Ion")
  {
    if EqualFold(level, "PSM") then Some(PsmLevel)
    else if EqualFold(level, "Peptide") then Some(PeptideLevel)
    else if EqualFold(level, "Ion") then Some(IonLevel)
    else None
  }

  const UnknownLevel: string := "Error applying FDR score; unknown level"

  /** What a level takes from each group: all of it, or its first (best) entry. */
  function Selector(lvl: Level): seq<PepId> -> seq<PepId>
  {
    if lvl == PsmLevel then (s: seq<PepId>) => s
    else (s: seq<PepId>) => if |s| > 0 then [s[0]] else []
  }

  function PsmScoring(isDecoy: PepId -> bool): Scoring<PepId>
  {
    Scoring(Prob, isDecoy)
  }

  /** Appends `items` one at a time, counting targets and decoys as they go (fil.go:451-459, 470-477). */
  method AppendCounting(list: seq<PepId>, targets: nat, decoys: nat, items: seq<PepId>, sc: Scoring<PepId>)
    returns (list': seq<PepId>, targets': nat, decoys': nat)
    requires targets == Targets(list, sc) && decoys == Decoys(list, sc)
    ensures list' == list + items
    ensures targets' == Targets(list', sc) && decoys' == Decoys(list', sc)
  {
    list', targets', decoys' := list, targets, decoys;
    for i := 0 to |items|
      invariant list' == list + items[..i]
      invariant targets' == Targets(list', sc) && decoys' == Decoys(list', sc)
    {
      DecoysConcat(list', [items[i]], sc);
      assert Filter([items[i]], sc.isDecoy) == if sc.isDecoy(items[i]) then [items[i]] else [];
      if sc.isDecoy(items[i]) {
        decoys' := decoys' + 1;
      } else {
        targets' := targets' + 1;
      }
      assert items[..i + 1] == items[..i] + [items[i]];
      list' := list' + [items[i]];
    }
    assert items[..|items|] == items;
  }

  /** The "PSM" branch (fil.go:446-460): every entry of every group, in map order. */
  method PoolAll<K>(input: map<K, seq<PepId>>, sc: Scoring<PepId>) returns (list: seq<PepId>, targets: nat, decoys: nat)
    ensures multiset(list) == Pool(input, Selector(PsmLevel))
    ensures targets == Targets(list, sc) && decoys == Decoys(list, sc)
  {
    var sel := Selector(PsmLevel);
    list, targets, decoys := [], 0, 0;
    var remaining := input;
    while remaining.Keys != {}
      invariant multiset(list) + Pool(remaining, sel) == Pool(input, sel)
      invariant targets == Targets(list, sc) && decoys == Decoys(list, sc)
      decreases |remaining|
    {
      if forall k :: k !in remaining {
        assert false;
      }
      var k :| k in remaining;
      PoolAnyKey(remaining, sel, k);
      list, targets, decoys := AppendCounting(list, targets, decoys, remaining[k], sc);
      remaining := remaining - {k};
    }
    PoolEmpty(remaining, sel);
  }

  /** The "Peptide" and "Ion" branches (fil.go:462-491): the first entry of every group, then counted. */
  method PoolHeads<K>(input: map<K, seq<PepId>>, lvl: Level, sc: Scoring<PepId>) returns (list: seq<PepId>, targets: nat, decoys: nat)
    requires lvl != PsmLevel
    requires forall k :: k in input ==> |input[k]| > 0
    ensures multiset(list) == Pool(input, Selector(lvl))
    ensures targets == Targets(list, sc) && decoys == Decoys(list, sc)
  {
    var peplist := Heads(input, lvl);
    list, targets, decoys := AppendCounting([], 0, 0, peplist, sc);
  }

  /** The first entry of every group, in map order (fil.go:462-468, 481-487). */
  method Heads<K>(input: map<K, seq<PepId>>, lvl: Level) returns (peplist: seq<PepId>)
    requires lvl != PsmLevel
    requires forall k :: k in input ==> |input[k]| > 0
    ensures multiset(peplist) == Pool(input, Selector(lvl))
  {
    var sel := Selector(lvl);
    peplist := [];
    var remaining := input;
    while remaining.Keys != {}
      invariant forall k :: k in remaining ==> |remaining[k]| > 0
      invariant multiset(peplist) + Pool(remaining, sel) == Pool(input, sel)
      decreases |remaining|
    {
      if forall k :: k !in remaining {
        assert false;
      }
      var k :| k in remaining;
      HeadStep(remaining, lvl, k);
      peplist := peplist + [remaining[k][0]];
      remaining := remaining - {k};
    }
    PoolEmpty(remaining, sel);
  }

  /** Taking the head of one group moves it from the pool of the remaining groups to the list. */
  lemma HeadStep<K>(remaining: map<K, seq<PepId>>, lvl: Level, k: K)
    requires lvl != PsmLevel && k in remaining && |remaining[k]| > 0
    ensures Pool(remaining, Selector(lvl)) == multiset{remaining[k][0]} + Pool(remaining - {k}, Selector(lvl))
  {
    PoolAnyKey(remaining, Selector(lvl), k);
    assert Selector(lvl)(remaining[k]) == [remaining[k][0]];
  }

  /**
   * `pepXMLFDRFilter`: pools the groups as the level says, sorts the pool by probability and keeps
   * the PSMs whose score level passes the sweep. `pooled` is the pool in the order the map loop
   * happened to visit it; an unknown level gives the error and an empty list.
   */
  method PepXMLFDRFilter<K>(input: map<K, seq<PepId>>, targetFDR: real, level: string,
                            isDecoy: PepId -> bool, round: real -> real)
    returns (clean: seq<PepId>, err: Option<string>, ghost pooled: seq<PepId>)
    requires ParseLevel(level) == Some(PeptideLevel) || ParseLevel(level) == Some(IonLevel) ==>
               forall k :: k in input ==> |input[k]| > 0
    ensures ParseLevel(level).None? ==> clean == [] && err == Some(UnknownLevel)
    ensures ParseLevel(level).Some? ==>
              err.None? && multiset(pooled) == Pool(input, Selector(ParseLevel(level).value))
    ensures clean == Kept(SortByScore(pooled, Prob), PsmScoring(isDecoy), round, targetFDR)
    ensures SortedDesc(clean, Prob)
  {
    var sc := PsmScoring(isDecoy);
    var lvl := ParseLevel(level);
    var list: seq<PepId>, targets: nat, decoys: nat := [], 0, 0;
    err := None;
    if lvl == Some(PsmLevel) {
      list, targets, decoys := PoolAll(input, sc);
    } else if lvl.Some? {
      list, targets, decoys := PoolHeads(input, lvl.value, sc);
    } else {
      err := Some(UnknownLevel);
    }
    pooled := list;
    var sorted := SortByScore(list, Prob);
    DecoysPermutation(list, sorted, sc);
    clean := SweepFilter(sorted, sc, targets, decoys, round, targetFDR);
    KeptSorted(sorted, sc, round, targetFDR);
  }

  /** At the PSM level the pool holds every entry of every group; at the other levels only each group's first entry. */
  lemma LevelPool<K>(input: map<K, seq<PepId>>, lvl: Level, x: PepId)
    ensures lvl == PsmLevel ==> (x in Pool(input, Selector(lvl)) <==> exists k :: k in input && x in input[k])
    ensures lvl != PsmLevel ==>
              (x in Pool(input, Selector(lvl)) <==> exists k :: k in input && |input[k]| > 0 && input[k][0] == x)
  {
    PoolHas(input, Selector(lvl), x);
    if lvl != PsmLevel {
      if exists k :: k in input && x in Selector(lvl)(input[k]) {
        var k :| k in input && x in Selector(lvl)(input[k]);
        assert |input[k]| > 0 && input[k][0] == x;
      }
      if exists k :: k in input && |input[k]| > 0 && input[k][0] == x {
        var k :| k in input && |input[k]| > 0 && input[k][0] == x;
        assert x in Selector(lvl)(input[k]);
      }
    }
  }

  /** The output does not depend on the order the map loop visited the groups in, up to the order of equal scores. */
  lemma FilterOrderIndependent(pooled1: seq<PepId>, pooled2: seq<PepId>, isDecoy: PepId -> bool, round: real -> real, targetFDR: real)
    requires multiset(pooled1) == multiset(pooled2)
    ensures multiset(Kept(SortByScore(pooled1, Prob), PsmScoring(isDecoy), round, targetFDR))
            == multiset(Kept(SortByScore(pooled2, Prob), PsmScoring(isDecoy), round, targetFDR))
  {
    PermutationInvariant(SortByScore(pooled1, Prob), SortByScore(pooled2, Prob), PsmScoring(isDecoy), round, targetFDR);
  }
}
