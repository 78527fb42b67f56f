/**
 * The empirical target/decoy FDR sweep shared by the peptide-level and protein-level filters
 * (lib/fil/fil.go, pepXMLFDRFilter lines 498-550 and ProtXMLFilter lines 922-946).
 *
 * A record list sorted by descending score is walked from the bottom; the first time a score is met,
 * the ratio decoys/targets over the records not yet passed (those scoring at least as high) is
 * recorded for that score. A score level is admitted when its rounded ratio is at most the target
 * FDR, and the output keeps the records whose score level is admitted.
 */
module Fdr {
  import opened Seqs

  /** How a record is scored and classified: its score field and the decoy test. */
  datatype Scoring<!T> = Scoring(score: T -> real, isDecoy: T -> bool)

  /** Number of decoys in `l`. */
  function Decoys<T>(l: seq<T>, sc: Scoring<T>): nat
  {
    |Filter(l, sc.isDecoy)|
  }

  /** Number of targets in `l`: every record that is not a decoy. */
  function Targets<T>(l: seq<T>, sc: Scoring<T>): nat
  {
    |l| - Decoys(l, sc)
  }

  function AtOrAbove<T>(sc: Scoring<T>, s: real): T -> bool
  {
    x => sc.score(x) >= s
  }

  function InLevels<T>(sc: Scoring<T>, levels: set<real>): T -> bool
  {
    x => sc.score(x) in levels
  }

  /** The distinct score levels of `l`. */
  ghost function Scores<T>(l: seq<T>, sc: Scoring<T>): set<real>
  {
    set x | x in l :: sc.score(x)
  }

  /**
   * decoys/targets over the records scoring at least `s`; `None` when there is no such target
   * (the source divides by zero there, and that level never qualifies).
   */
  function FdrAt<T>(l: seq<T>, sc: Scoring<T>, s: real): Option<real>
  {
    Ratio(Filter(l, AtOrAbove(sc, s)), sc)
  }

  /** decoys/targets over `l`, `None` without targets. */
  function Ratio<T>(l: seq<T>, sc: Scoring<T>): Option<real>
  {
    if Targets(l, sc) == 0 then None
    else Some(Decoys(l, sc) as real / Targets(l, sc) as real)
  }

  /** `utils.ToFixed(fdr, 4) <= targetFDR`, with the rounding left abstract. */
  predicate Qualifies(v: Option<real>, round: real -> real, targetFDR: real)
  {
    v.Some? && round(v.value) <= targetFDR
  }

  /** The score levels the sweep admits. */
  ghost function Admitted<T>(l: seq<T>, sc: Scoring<T>, round: real -> real, targetFDR: real): set<real>
  {
    set s | s in Scores(l, sc) && Qualifies(FdrAt(l, sc, s), round, targetFDR)
  }

  /** The filter's output: the records whose score level is admitted, in list order. */
  ghost function Kept<T>(l: seq<T>, sc: Scoring<T>, round: real -> real, targetFDR: real): seq<T>
  {
    Filter(l, InLevels(sc, Admitted(l, sc, round, targetFDR)))
  }

  ghost predicate StrictlyDesc(s: seq<real>)
  {
    forall i, j :: 0 <= i < j < |s| ==> s[i] > s[j]
  }

  // ---------------------------------------------------------------- counting lemmas

  lemma DecoysConcat<T>(a: seq<T>, b: seq<T>, sc: Scoring<T>)
    ensures Decoys(a + b, sc) == Decoys(a, sc) + Decoys(b, sc)
  {
    FilterConcat(a, b, sc.isDecoy);
  }

  lemma DecoysBound<T>(l: seq<T>, sc: Scoring<T>)
    ensures Decoys(l, sc) <= |l|
  {
  }

  /** Counts depend only on the multiset of records. */
  lemma DecoysPermutation<T>(a: seq<T>, b: seq<T>, sc: Scoring<T>)
    requires multiset(a) == multiset(b)
    ensures Decoys(a, sc) == Decoys(b, sc) && Targets(a, sc) == Targets(b, sc)
  {
    FilterPermutation(a, b, sc.isDecoy);
    assert |multiset(Filter(a, sc.isDecoy))| == |Filter(a, sc.isDecoy)|;
    assert |multiset(Filter(b, sc.isDecoy))| == |Filter(b, sc.isDecoy)|;
    assert |multiset(a)| == |a| && |multiset(b)| == |b|;
  }

  lemma FilterPermutation<T>(a: seq<T>, b: seq<T>, p: T -> bool)
    requires multiset(a) == multiset(b)
    ensures multiset(Filter(a, p)) == multiset(Filter(b, p))
  {
    var fa, fb := multiset(Filter(a, p)), multiset(Filter(b, p));
    forall x ensures fa[x] == fb[x] {
      FilterCount(a, p, x);
      FilterCount(b, p, x);
    }
    MultisetExt(fa, fb);
  }

  /**
   * In a list sorted by descending score, when everything after index `j` scores strictly below
   * `list[j]`, the records scoring at least `list[j]` are exactly the prefix up to `j`.
   */
  lemma {:induction false} SweepPrefix<T>(list: seq<T>, sc: Scoring<T>, j: nat)
    requires SortedDesc(list, sc.score)
    requires j < |list|
    requires forall i :: j < i < |list| ==> sc.score(list[i]) < sc.score(list[j])
    ensures Filter(list, AtOrAbove(sc, sc.score(list[j]))) == list[..j + 1]
  {
    var p := AtOrAbove(sc, sc.score(list[j]));
    var a, b := list[..j + 1], list[j + 1..];
    forall i | 0 <= i < |a| ensures p(a[i]) {
      assert a[i] == list[i];
    }
    FilterAll(a, p);
    forall i | 0 <= i < |b| ensures !p(b[i]) {
      assert b[i] == list[j + 1 + i];
    }
    FilterNone(b, p);
    calc {
      Filter(list, p);
      { assert list == a + b; }
      Filter(a + b, p);
      { FilterConcat(a, b, p); }
      Filter(a, p) + Filter(b, p);
      a;
    }
  }

  /** Passing one more record from the bottom moves it out of the counts. */
  lemma CountStep<T>(list: seq<T>, sc: Scoring<T>, n: nat)
    requires 0 < n <= |list|
    ensures Decoys(list[..n], sc) == Decoys(list[..n - 1], sc) + (if sc.isDecoy(list[n - 1]) then 1 else 0)
    ensures Targets(list[..n], sc) == Targets(list[..n - 1], sc) + (if sc.isDecoy(list[n - 1]) then 0 else 1)
  {
    assert list[..n] == list[..n - 1] + [list[n - 1]];
    DecoysConcat(list[..n - 1], [list[n - 1]], sc);
    assert Filter([list[n - 1]], sc.isDecoy) == if sc.isDecoy(list[n - 1]) then [list[n - 1]] else [];
  }

  lemma ScoresStep<T>(list: seq<T>, sc: Scoring<T>, n: nat)
    requires 0 < n <= |list|
    ensures Scores(list[n - 1..], sc) == Scores(list[n..], sc) + {sc.score(list[n - 1])}
  {
    assert list[n - 1..] == [list[n - 1]] + list[n..];
  }

  /** The first time the walk meets a score, the records not yet passed are exactly those at or above it. */
  lemma NewLevel<T>(list: seq<T>, sc: Scoring<T>, n: nat)
    requires SortedDesc(list, sc.score)
    requires 0 < n <= |list|
    requires sc.score(list[n - 1]) !in Scores(list[n..], sc)
    ensures FdrAt(list, sc, sc.score(list[n - 1])) == Ratio(list[..n], sc)
  {
    forall i | n - 1 < i < |list| ensures sc.score(list[i]) < sc.score(list[n - 1]) {
      assert list[i] in list[n..];
    }
    SweepPrefix(list, sc, n - 1);
  }

  /** One step of the walk keeps the map equal to the ratios of the levels passed so far. */
  lemma ScoreMapStep<T>(list: seq<T>, sc: Scoring<T>, n: nat, m: map<real, Option<real>>, m': map<real, Option<real>>)
    requires SortedDesc(list, sc.score)
    requires 0 < n <= |list|
    requires m.Keys == Scores(list[n..], sc)
    requires forall s :: s in m ==> m[s] == FdrAt(list, sc, s)
    requires m' == if sc.score(list[n - 1]) in m then m else m[sc.score(list[n - 1]) := Ratio(list[..n], sc)]
    ensures m'.Keys == Scores(list[n - 1..], sc)
    ensures forall s :: s in m' ==> m'[s] == FdrAt(list, sc, s)
  {
    var p := sc.score(list[n - 1]);
    ScoresStep(list, sc, n);
    KeysStep(m, m', p, Ratio(list[..n], sc));
    forall s | s in m' ensures m'[s] == FdrAt(list, sc, s) {
      if s == p && p !in m {
        NewLevel(list, sc, n);
      } else {
        assert m'[s] == m[s];
      }
    }
  }

  lemma KeysStep(m: map<real, Option<real>>, m': map<real, Option<real>>, p: real, v: Option<real>)
    requires m' == if p in m then m else m[p := v]
    ensures m'.Keys == m.Keys + {p}
  {
    assert forall s :: s in m'.Keys <==> s in m.Keys + {p};
  }

  // ---------------------------------------------------------------- the sweep, step by step

  /**
   * The bottom-up walk (fil.go:500-512): `targets` and `decoys` start at the totals and are
   * decremented as records are passed; each score gets the ratio at its first encounter.
   */
  method ScoreMap<T>(list: seq<T>, sc: Scoring<T>, targets0: nat, decoys0: nat)
    returns (scoreMap: map<real, Option<real>>)
    requires SortedDesc(list, sc.score)
    requires targets0 == Targets(list, sc) && decoys0 == Decoys(list, sc)
    ensures scoreMap.Keys == Scores(list, sc)
    ensures forall s :: s in scoreMap ==> scoreMap[s] == FdrAt(list, sc, s)
  {
    scoreMap := map[];
    var targets, decoys := targets0, decoys0;
    var n := |list|;
    assert list[..n] == list;
    while n > 0
      invariant 0 <= n <= |list|
      invariant decoys == Decoys(list[..n], sc) && targets == Targets(list[..n], sc)
      invariant scoreMap.Keys == Scores(list[n..], sc)
      invariant forall s :: s in scoreMap ==> scoreMap[s] == FdrAt(list, sc, s)
    {
      var p := sc.score(list[n - 1]);
      ghost var before := scoreMap;
      if p !in scoreMap {
        scoreMap := scoreMap[p := if targets == 0 then None else Some(decoys as real / targets as real)];
      }
      ScoreMapStep(list, sc, n, before, scoreMap);
      CountStep(list, sc, n);
      ghost var init := list[..n - 1];
      if sc.isDecoy(list[n - 1]) {
        decoys := decoys - 1;
      } else {
        targets := targets - 1;
      }
      assert decoys == Decoys(init, sc) && targets == Targets(init, sc);
      n := n - 1;
      assert list[..n] == init;
    }
    assert list[0..] == list;
  }

  lemma {:induction false} MaxExists(s: set<real>)
    requires s != {}
    ensures exists m :: m in s && forall y :: y in s ==> y <= m
    decreases |s|
  {
    if forall y :: y !in s {
      assert false;
    }
    var x :| x in s;
    if exists y :: y in s && y != x {
      var y :| y in s && y != x;
      var rest := s - {x};
      assert y in rest;
      MaxExists(rest);
      var m :| m in rest && forall z :: z in rest ==> z <= m;
      var top := if x > m then x else m;
      forall z | z in s ensures z <= top {
        if z != x { assert z in rest; }
      }
      assert top in s;
    } else {
      assert forall z :: z in s ==> z <= x;
    }
  }

  /** The elements of a set of levels, highest first. */
  ghost function SortedLevels(s: set<real>): seq<real>
    decreases |s|
  {
    if s == {} then []
    else
      MaxExists(s);
      var m :| m in s && forall y :: y in s ==> y <= m;
      [m] + SortedLevels(s - {m})
  }

  lemma {:induction false} SortedLevelsFacts(s: set<real>)
    ensures |SortedLevels(s)| == |s|
    ensures StrictlyDesc(SortedLevels(s))
    ensures forall k :: k in SortedLevels(s) <==> k in s
    decreases |s|
  {
    if s != {} {
      MaxExists(s);
      var m :| m in s && forall y :: y in s ==> y <= m;
      assert SortedLevels(s) == [m] + SortedLevels(s - {m});
      SortedLevelsFacts(s - {m});
      var rest := SortedLevels(s - {m});
      forall j | 0 <= j < |rest| ensures m > rest[j] {
        assert rest[j] in s - {m};
      }
    }
  }

  /** `sort.Sort(sort.Reverse(sort.Float64Slice(keys)))` (fil.go:514-519, 941-946): the score levels, highest first. */
  method SortedKeys(keys: set<real>) returns (desc: seq<real>)
    ensures desc == SortedLevels(keys)
    ensures StrictlyDesc(desc)
    ensures forall k :: k in desc <==> k in keys
    ensures |desc| == |keys|
  {
    desc := [];
    var rest := keys;
    while rest != {}
      invariant rest <= keys
      invariant desc + SortedLevels(rest) == SortedLevels(keys)
      decreases |rest|
    {
      MaxExists(rest);
      var m :| m in rest && forall y :: y in rest ==> y <= m;
      assert SortedLevels(rest) == [m] + SortedLevels(rest - {m});
      desc := desc + [m];
      rest := rest - {m};
    }
    SortedLevelsFacts(keys);
  }

  /** The qualifying test over the sorted levels (fil.go:521-534): `probList` is the admitted set. */
  method SelectLevels(keys: seq<real>, scoreMap: map<real, Option<real>>, round: real -> real, targetFDR: real)
    returns (probList: set<real>)
    requires forall i :: 0 <= i < |keys| ==> keys[i] in scoreMap
    ensures probList == set k | k in keys && Qualifies(scoreMap[k], round, targetFDR)
  {
    probList := {};
    for i := 0 to |keys|
      invariant probList == set k | k in keys[..i] && Qualifies(scoreMap[k], round, targetFDR)
    {
      assert keys[..i + 1] == keys[..i] + [keys[i]];
      if Qualifies(scoreMap[keys[i]], round, targetFDR) {
        probList := probList + {keys[i]};
      }
    }
    assert keys[..|keys|] == keys;
  }

  /** The final pass (fil.go:536-550, 1010-1021): keep, in list order, the records of admitted levels. */
  method CleanList<T>(list: seq<T>, sc: Scoring<T>, probList: set<real>) returns (clean: seq<T>)
    ensures clean == Filter(list, InLevels(sc, probList))
  {
    clean := [];
    for i := 0 to |list|
      invariant clean == Filter(list[..i], InLevels(sc, probList))
    {
      assert list[..i + 1][..i] == list[..i];
      if sc.score(list[i]) in probList {
        clean := clean + [list[i]];
      }
    }
    assert list[..|list|] == list;
  }

  /** Sweep, level selection and final pass together, for a sorted list with known totals. */
  method SweepFilter<T>(list: seq<T>, sc: Scoring<T>, targets: nat, decoys: nat, round: real -> real, targetFDR: real)
    returns (clean: seq<T>)
    requires SortedDesc(list, sc.score)
    requires targets == Targets(list, sc) && decoys == Decoys(list, sc)
    ensures clean == Kept(list, sc, round, targetFDR)
  {
    var scoreMap := ScoreMap(list, sc, targets, decoys);
    var keys := SortedKeys(scoreMap.Keys);
    var probList := SelectLevels(keys, scoreMap, round, targetFDR);
    SelectedAdmitted(list, sc, scoreMap, keys, round, targetFDR);
    clean := CleanList(list, sc, probList);
  }

  /** Selecting over the sorted keys of the score map admits exactly the levels of `Admitted`. */
  lemma SelectedAdmitted<T>(list: seq<T>, sc: Scoring<T>, scoreMap: map<real, Option<real>>, keys: seq<real>,
                            round: real -> real, targetFDR: real)
    requires scoreMap.Keys == Scores(list, sc)
    requires forall s :: s in scoreMap ==> scoreMap[s] == FdrAt(list, sc, s)
    requires forall k :: k in keys <==> k in scoreMap.Keys
    ensures (set k | k in keys && Qualifies(scoreMap[k], round, targetFDR)) == Admitted(list, sc, round, targetFDR)
  {
    var sel := set k | k in keys && Qualifies(scoreMap[k], round, targetFDR);
    assert forall s :: s in sel <==> s in Admitted(list, sc, round, targetFDR);
  }

  // ---------------------------------------------------------------- properties of the result

  /** A record is kept iff the rounded FDR of its score level is within the target; copies are all kept or all dropped. */
  lemma KeepRule<T>(l: seq<T>, sc: Scoring<T>, round: real -> real, targetFDR: real)
    ensures forall x :: x in l ==>
      (x in Kept(l, sc, round, targetFDR) <==> Qualifies(FdrAt(l, sc, sc.score(x)), round, targetFDR))
    ensures forall x :: multiset(Kept(l, sc, round, targetFDR))[x]
                        == if Qualifies(FdrAt(l, sc, sc.score(x)), round, targetFDR) then multiset(l)[x] else 0
  {
    var levels := Admitted(l, sc, round, targetFDR);
    FilterMultiset(l, InLevels(sc, levels));
    forall x ensures multiset(Kept(l, sc, round, targetFDR))[x]
      == if Qualifies(FdrAt(l, sc, sc.score(x)), round, targetFDR) then multiset(l)[x] else 0
    {
      if x !in l {
        assert multiset(l)[x] == 0;
      }
    }
  }

  /** Records sharing a score are kept or dropped together. */
  lemma SameScoreSameFate<T>(l: seq<T>, sc: Scoring<T>, round: real -> real, targetFDR: real, x: T, y: T)
    requires x in l && y in l && sc.score(x) == sc.score(y)
    ensures x in Kept(l, sc, round, targetFDR) <==> y in Kept(l, sc, round, targetFDR)
  {
    KeepRule(l, sc, round, targetFDR);
  }

  /** Raising the target FDR never removes a record, whatever the rounding function. */
  lemma MonotoneInTarget<T>(l: seq<T>, sc: Scoring<T>, round: real -> real, t1: real, t2: real)
    requires t1 <= t2
    ensures Admitted(l, sc, round, t1) <= Admitted(l, sc, round, t2)
    ensures multiset(Kept(l, sc, round, t1)) <= multiset(Kept(l, sc, round, t2))
    ensures |Kept(l, sc, round, t1)| <= |Kept(l, sc, round, t2)|
  {
    var a1, a2 := Admitted(l, sc, round, t1), Admitted(l, sc, round, t2);
    forall s | s in a1 ensures s in a2 {
      assert Qualifies(FdrAt(l, sc, s), round, t2);
    }
    var k1, k2 := multiset(Kept(l, sc, round, t1)), multiset(Kept(l, sc, round, t2));
    forall x ensures k1[x] <= k2[x] {
      FilterCount(l, InLevels(sc, a1), x);
      FilterCount(l, InLevels(sc, a2), x);
    }
    SubMultiset(k1, k2);
    SubMultisetSize(k1, k2);
  }

  /** The admitted levels and the kept multiset depend only on the multiset of input records (not on map or tie order). */
  lemma PermutationInvariant<T>(l1: seq<T>, l2: seq<T>, sc: Scoring<T>, round: real -> real, targetFDR: real)
    requires multiset(l1) == multiset(l2)
    ensures Admitted(l1, sc, round, targetFDR) == Admitted(l2, sc, round, targetFDR)
    ensures multiset(Kept(l1, sc, round, targetFDR)) == multiset(Kept(l2, sc, round, targetFDR))
  {
    ScoresPermutation(l1, l2, sc);
    forall s ensures FdrAt(l1, sc, s) == FdrAt(l2, sc, s) {
      FilterPermutation(l1, l2, AtOrAbove(sc, s));
      DecoysPermutation(Filter(l1, AtOrAbove(sc, s)), Filter(l2, AtOrAbove(sc, s)), sc);
    }
    var a1, a2 := Admitted(l1, sc, round, targetFDR), Admitted(l2, sc, round, targetFDR);
    assert a1 == a2 by {
      assert forall s :: s in a1 <==> s in a2;
    }
    FilterPermutation(l1, l2, InLevels(sc, a1));
  }

  lemma ScoresPermutation<T>(l1: seq<T>, l2: seq<T>, sc: Scoring<T>)
    requires multiset(l1) == multiset(l2)
    ensures Scores(l1, sc) == Scores(l2, sc)
  {
    assert forall x :: x in l1 <==> x in multiset(l1);
    assert forall x :: x in l2 <==> x in multiset(l2);
    assert forall s :: s in Scores(l1, sc) <==> s in Scores(l2, sc);
  }

  /** The output of a sorted list is sorted. */
  lemma KeptSorted<T>(l: seq<T>, sc: Scoring<T>, round: real -> real, targetFDR: real)
    requires SortedDesc(l, sc.score)
    ensures SortedDesc(Kept(l, sc, round, targetFDR), sc.score)
  {
    FilterSorted(l, InLevels(sc, Admitted(l, sc, round, targetFDR)), sc.score);
  }

  /** When no level qualifies the output is empty (and no error is raised). */
  lemma NothingQualifies<T>(l: seq<T>, sc: Scoring<T>, round: real -> real, targetFDR: real)
    requires forall x :: x in l ==> !Qualifies(FdrAt(l, sc, sc.score(x)), round, targetFDR)
    ensures Kept(l, sc, round, targetFDR) == []
  {
    var levels := Admitted(l, sc, round, targetFDR);
    forall i | 0 <= i < |l| ensures !InLevels(sc, levels)(l[i]) {
      assert l[i] in l;
    }
    FilterNone(l, InLevels(sc, levels));
  }
}
