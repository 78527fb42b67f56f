/**
 * The protein-level filter `ProtXMLFilter` (lib/fil/fil.go:870-1032) and the protein counts
 * `proteinProfile` / `proteinProfileWithList` (fil.go:621-634, 1231-1242).
 *
 * The proteins eligible under the razor / picked mode are sorted by `TopPepProb` and swept like the
 * peptide levels. Two things differ from the peptide filter: the lowest admitted level is followed
 * by one extra level when the best admitted FDR is still below the target, and the extension
 * indexes out of range in two cases the source does not guard: the guard itself reads the last
 * level of an empty level list, and the search loop runs past the end when `curProb` is not a
 * level (no level was admitted). Both are the `IndexPanic` outcome here.
 */
module ProtFilter {
  import opened Seqs
  import opened Ident
  import opened Fdr

  /** The protein decoy test looks at the protein name only. */
  function ProtScoring(isDecoy: string -> bool): Scoring<ProtId>
  {
    Scoring((p: ProtId) => p.topPepProb, (p: ProtId) => isDecoy(p.name))
  }

  /** Targets and decoys among all proteins of all groups (fil.go:621-634). */
  method ProteinProfile(groups: seq<ProteinGroup>, isDecoy: string -> bool) returns (t: nat, d: nat)
    ensures d == |Filter(AllProteins(groups), ProtScoring(isDecoy).isDecoy)|
    ensures t + d == |AllProteins(groups)|
  {
    t, d := 0, 0;
    for i := 0 to |groups|
      invariant t == Targets(AllProteins(groups[..i]), ProtScoring(isDecoy))
      invariant d == Decoys(AllProteins(groups[..i]), ProtScoring(isDecoy))
    {
      assert groups[..i + 1][..i] == groups[..i];
      var gt, gd := ProteinProfileWithList(groups[i].proteins, isDecoy);
      DecoysConcat(AllProteins(groups[..i]), groups[i].proteins, ProtScoring(isDecoy));
      t, d := t + gt, d + gd;
    }
    assert groups[..|groups|] == groups;
  }

  /** Targets and decoys of a protein list (fil.go:1231-1242). */
  method ProteinProfileWithList(list: seq<ProtId>, isDecoy: string -> bool) returns (t: nat, d: nat)
    ensures d == |Filter(list, ProtScoring(isDecoy).isDecoy)|
    ensures t + d == |list|
  {
    var sc := ProtScoring(isDecoy);
    t, d := 0, 0;
    for i := 0 to |list|
      invariant t == Targets(list[..i], sc) && d == Decoys(list[..i], sc)
    {
      assert list[..i + 1][..i] == list[..i];
      DecoysBound(list[..i + 1], sc);
      if isDecoy(list[i].name) {
        d := d + 1;
      } else {
        t := t + 1;
      }
    }
    assert list[..|list|] == list;
    DecoysBound(list, sc);
  }

  // ---------------------------------------------------------------- eligibility

  /** Which proteins enter the filter (fil.go:880-911), by razor / picked mode. */
  predicate Eligible(p: ProtId, isRazor: bool, isPicked: bool, pepProb: real, protProb: real)
  {
    if isRazor then
      if isPicked then p.picked == 1 && p.hasRazor else p.hasRazor
    else
      if isPicked then p.probability >= protProb && p.picked == 1
      else p.topPepProb >= pepProb && p.probability >= protProb
  }

  function EligibleIn(isRazor: bool, isPicked: bool, pepProb: real, protProb: real): ProtId -> bool
  {
    p => Eligible(p, isRazor, isPicked, pepProb, protProb)
  }

  /** The eligible proteins of one group, in order (the inner loop of fil.go:878-911). */
  method EligibleOfGroup(ps: seq<ProtId>, isRazor: bool, isPicked: bool, pepProb: real, protProb: real)
    returns (sel: seq<ProtId>)
    ensures sel == Filter(ps, EligibleIn(isRazor, isPicked, pepProb, protProb))
  {
    sel := [];
    for j := 0 to |ps|
      invariant sel == Filter(ps[..j], EligibleIn(isRazor, isPicked, pepProb, protProb))
    {
      assert ps[..j + 1][..j] == ps[..j];
      if Eligible(ps[j], isRazor, isPicked, pepProb, protProb) {
        sel := sel + [ps[j]];
      }
    }
    assert ps[..|ps|] == ps;
  }

  /** The eligible proteins of all groups, in group order (fil.go:878-911). */
  method CollectEligible(groups: seq<ProteinGroup>, isRazor: bool, isPicked: bool, pepProb: real, protProb: real)
    returns (list: seq<ProtId>)
    ensures list == Filter(AllProteins(groups), EligibleIn(isRazor, isPicked, pepProb, protProb))
  {
    var e := EligibleIn(isRazor, isPicked, pepProb, protProb);
    list := [];
    for i := 0 to |groups|
      invariant list == Filter(AllProteins(groups[..i]), e)
    {
      assert groups[..i + 1][..i] == groups[..i];
      FilterConcat(AllProteins(groups[..i]), groups[i].proteins, e);
      var sel := EligibleOfGroup(groups[i].proteins, isRazor, isPicked, pepProb, protProb);
      list := list + sel;
    }
    assert groups[..|groups|] == groups;
  }

  // ---------------------------------------------------------------- level selection

  /** The ratio recorded for a level, `None` for a level that is not in the map. */
  function LevelFdr(scoreMap: map<real, Option<real>>, k: real): Option<real>
  {
    if k in scoreMap then scoreMap[k] else None
  }

  /** `curProb` after the selection loop (fil.go:953-976): the lowest admitted level, starting from 10. */
  function CurProb(keys: seq<real>, scoreMap: map<real, Option<real>>, round: real -> real, targetFDR: real): real
  {
    if keys == [] then 10.0
    else
      var c := CurProb(keys[..|keys| - 1], scoreMap, round, targetFDR);
      var k := keys[|keys| - 1];
      if Qualifies(LevelFdr(scoreMap, k), round, targetFDR) && k < c then k else c
  }

  /** `curScore` after the selection loop: the highest admitted ratio, starting from 0. */
  function CurScore(keys: seq<real>, scoreMap: map<real, Option<real>>, round: real -> real, targetFDR: real): real
  {
    if keys == [] then 0.0
    else
      var c := CurScore(keys[..|keys| - 1], scoreMap, round, targetFDR);
      var v := LevelFdr(scoreMap, keys[|keys| - 1]);
      if Qualifies(v, round, targetFDR) && v.value > c then v.value else c
  }

  /** `curProb` is 10 or an admitted level, and no admitted level is lower. */
  lemma {:induction false} CurProbIsLowest(keys: seq<real>, scoreMap: map<real, Option<real>>, round: real -> real, targetFDR: real)
    ensures var c := CurProb(keys, scoreMap, round, targetFDR);
      && c <= 10.0
      && (c == 10.0 || (c in keys && Qualifies(LevelFdr(scoreMap, c), round, targetFDR)))
      && forall i :: 0 <= i < |keys| && Qualifies(LevelFdr(scoreMap, keys[i]), round, targetFDR) ==> c <= keys[i]
  {
    if keys != [] {
      var init := keys[..|keys| - 1];
      CurProbIsLowest(init, scoreMap, round, targetFDR);
      assert forall i :: 0 <= i < |init| ==> init[i] == keys[i];
    }
  }

  /** `curScore` is 0 or an admitted ratio, and no admitted ratio is higher. */
  lemma {:induction false} CurScoreIsHighest(keys: seq<real>, scoreMap: map<real, Option<real>>, round: real -> real, targetFDR: real)
    ensures var c := CurScore(keys, scoreMap, round, targetFDR);
      && c >= 0.0
      && (c == 0.0 || exists i :: 0 <= i < |keys| && LevelFdr(scoreMap, keys[i]) == Some(c)
                                 && Qualifies(Some(c), round, targetFDR))
      && forall i :: 0 <= i < |keys| && Qualifies(LevelFdr(scoreMap, keys[i]), round, targetFDR) ==>
           LevelFdr(scoreMap, keys[i]).value <= c
  {
    if keys != [] {
      var init := keys[..|keys| - 1];
      CurScoreIsHighest(init, scoreMap, round, targetFDR);
      assert forall i :: 0 <= i < |init| ==> init[i] == keys[i];
      var c := CurScore(keys, scoreMap, round, targetFDR);
      if c != 0.0 && c == CurScore(init, scoreMap, round, targetFDR) {
        var i :| 0 <= i < |init| && LevelFdr(scoreMap, init[i]) == Some(c) && Qualifies(Some(c), round, targetFDR);
        assert keys[i] == init[i];
      }
    }
  }

  /** The selection loop (fil.go:953-976): the admitted levels, with `curProb` and `curScore`. */
  method SelectProteinLevels(keys: seq<real>, scoreMap: map<real, Option<real>>, round: real -> real, targetFDR: real)
    returns (probList: set<real>, curProb: real, curScore: real)
    ensures probList == set k | k in keys && Qualifies(LevelFdr(scoreMap, k), round, targetFDR)
    ensures curProb == CurProb(keys, scoreMap, round, targetFDR)
    ensures curScore == CurScore(keys, scoreMap, round, targetFDR)
  {
    probList, curProb, curScore := {}, 10.0, 0.0;
    for i := 0 to |keys|
      invariant probList == set k | k in keys[..i] && Qualifies(LevelFdr(scoreMap, k), round, targetFDR)
      invariant curProb == CurProb(keys[..i], scoreMap, round, targetFDR)
      invariant curScore == CurScore(keys[..i], scoreMap, round, targetFDR)
    {
      assert keys[..i + 1] == keys[..i] + [keys[i]];
      assert keys[..i + 1][..i] == keys[..i];
      var v := LevelFdr(scoreMap, keys[i]);
      if Qualifies(v, round, targetFDR) {
        probList := probList + {keys[i]};
        if keys[i] < curProb {
          curProb := keys[i];
        }
        if v.value > curScore {
          curScore := v.value;
        }
      }
    }
    assert keys[..|keys|] == keys;
  }

  // ---------------------------------------------------------------- the one-level extension

  /** The first position of `x` in `s`. */
  function IndexOf(s: seq<real>, x: real): (r: Option<nat>)
    ensures r.Some? ==> r.value < |s| && s[r.value] == x && x !in s[..r.value]
    ensures r.None? <==> x !in s
  {
    if s == [] then None
    else if s[0] == x then Some(0)
    else match IndexOf(s[1..], x)
      case None => None
      case Some(j) => assert s[..j + 1] == [s[0]] + s[1..][..j]; Some(j + 1)
  }

  /** The search `for i := 0; i <= len(probArray); i++` (fil.go:988-1004); `None` is the index past the end. */
  method FindLevel(probArray: seq<real>, curProb: real) returns (r: Option<nat>)
    ensures r == IndexOf(probArray, curProb)
  {
    var i := 0;
    while i < |probArray|
      invariant 0 <= i <= |probArray|
      invariant curProb !in probArray[..i]
    {
      if probArray[i] == curProb {
        IndexOfIsFirst(probArray, curProb, i);
        return Some(i);
      }
      assert probArray[..i + 1] == probArray[..i] + [probArray[i]];
      i := i + 1;
    }
    assert probArray[..i] == probArray;
    r := None;
  }

  lemma {:induction false} IndexOfIsFirst(s: seq<real>, x: real, i: nat)
    requires i < |s| && s[i] == x && x !in s[..i]
    ensures IndexOf(s, x) == Some(i)
  {
    if i > 0 {
      assert s[0] in s[..i];
      assert s[1..][..i - 1] == s[..i][1..];
      IndexOfIsFirst(s[1..], x, i - 1);
    }
  }

  /**
   * The admitted levels after fil.go:986-1006, or `None` where the source indexes out of range:
   * when the highest admitted ratio is still below the target and not equal to it once rounded,
   * the level right after `curProb` is admitted too, unless `curProb` is already the last level.
   */
  function Extend(keys: seq<real>, probList: set<real>, curProb: real, curScore: real,
                  round: real -> real, targetFDR: real): Option<set<real>>
  {
    if !(curScore < targetFDR && round(curScore) != targetFDR) then Some(probList)
    else if |keys| == 0 then None
    else if keys[|keys| - 1] == curProb then Some(probList)
    else match IndexOf(keys, curProb)
      case None => None
      case Some(i) => Some(probList + {keys[i + 1]})
  }

  const NotReached: string := "The protein FDR filter didn't reached the desired threshold"

  /** The filtered protein list with the threshold error, or the out-of-range index of the extension search. */
  datatype ProtResult = Filtered(clean: seq<ProtId>, err: Option<string>) | IndexPanic

  /** The eligible proteins, sorted by `TopPepProb`. */
  function Sorted(groups: seq<ProteinGroup>, isRazor: bool, isPicked: bool, pepProb: real, protProb: real,
                  isDecoy: string -> bool): seq<ProtId>
  {
    SortByScore(Filter(AllProteins(groups), EligibleIn(isRazor, isPicked, pepProb, protProb)), ProtScoring(isDecoy).score)
  }

  ghost function LevelMap(list: seq<ProtId>, sc: Scoring<ProtId>): map<real, Option<real>>
  {
    map s | s in Scores(list, sc) :: FdrAt(list, sc, s)
  }

  /** The sweep, level selection and extension over the sorted eligible proteins. */
  ghost function SweepOutcome(list: seq<ProtId>, sc: Scoring<ProtId>, round: real -> real, targetFDR: real): ProtResult
  {
    var keys := SortedLevels(Scores(list, sc));
    var curProb := CurProb(keys, LevelMap(list, sc), round, targetFDR);
    var curScore := CurScore(keys, LevelMap(list, sc), round, targetFDR);
    Outcome(list, sc, Extend(keys, Admitted(list, sc, round, targetFDR), curProb, curScore, round, targetFDR), curProb)
  }

  /** The final pass over the levels the extension settled on, with the error of `curProb == 10`. */
  function Outcome(list: seq<ProtId>, sc: Scoring<ProtId>, levels: Option<set<real>>, curProb: real): ProtResult
  {
    match levels
    case None => IndexPanic
    case Some(levels) => Filtered(Filter(list, InLevels(sc, levels)), if curProb == 10.0 then Some(NotReached) else None)
  }

  /** What `ProtXMLFilter` returns, as a function of the protein groups and the settings. */
  ghost function ProtXMLFilterSpec(groups: seq<ProteinGroup>, targetFDR: real, pepProb: real, protProb: real,
                                   isPicked: bool, isRazor: bool, isDecoy: string -> bool, round: real -> real): ProtResult
  {
    SweepOutcome(Sorted(groups, isRazor, isPicked, pepProb, protProb, isDecoy), ProtScoring(isDecoy), round, targetFDR)
  }

  /** The extension step (fil.go:984-1006) on the selected levels. */
  method ExtendLevels(keys: seq<real>, probList: set<real>, curProb: real, curScore: real,
                      round: real -> real, targetFDR: real) returns (levels: Option<set<real>>)
    ensures levels == Extend(keys, probList, curProb, curScore, round, targetFDR)
  {
    levels := Some(probList);
    if curScore < targetFDR && round(curScore) != targetFDR {
      if |keys| == 0 {
        return None;
      }
      if keys[|keys| - 1] != curProb {
        var found := FindLevel(keys, curProb);
        if found.None? {
          return None;
        }
        levels := Some(probList + {keys[found.value + 1]});
      }
    }
  }

  /** From the sorted list with its counts to the result (fil.go:924-1021). */
  method ProtSweep(sorted: seq<ProtId>, sc: Scoring<ProtId>, targets: nat, decoys: nat, round: real -> real, targetFDR: real)
    returns (r: ProtResult)
    requires SortedDesc(sorted, sc.score)
    requires targets == Targets(sorted, sc) && decoys == Decoys(sorted, sc)
    ensures r == SweepOutcome(sorted, sc, round, targetFDR)
  {
    var scoreMap := ScoreMap(sorted, sc, targets, decoys);
    assert scoreMap == LevelMap(sorted, sc) by {
      assert forall s :: s in scoreMap <==> s in LevelMap(sorted, sc);
    }
    var keys := SortedKeys(scoreMap.Keys);
    var probList, curProb, curScore := SelectProteinLevels(keys, scoreMap, round, targetFDR);
    ProtSelection(sorted, sc, round, targetFDR);
    var err: Option<string> := if curProb == 10.0 then Some(NotReached) else None;
    var levels := ExtendLevels(keys, probList, curProb, curScore, round, targetFDR);
    if levels.None? {
      return IndexPanic;
    }
    var clean := CleanList(sorted, sc, levels.value);
    r := Filtered(clean, err);
  }

  /** `ProtXMLFilter` (fil.go:870-1032). */
  method ProtXMLFilter(groups: seq<ProteinGroup>, targetFDR: real, pepProb: real, protProb: real,
                       isPicked: bool, isRazor: bool, isDecoy: string -> bool, round: real -> real)
    returns (r: ProtResult)
    ensures r == ProtXMLFilterSpec(groups, targetFDR, pepProb, protProb, isPicked, isRazor, isDecoy, round)
  {
    var sc := ProtScoring(isDecoy);
    var list := CollectEligible(groups, isRazor, isPicked, pepProb, protProb);
    var targets, decoys := ProteinProfileWithList(list, isDecoy);
    var sorted := SortByScore(list, sc.score);
    DecoysPermutation(list, sorted, sc);
    r := ProtSweep(sorted, sc, targets, decoys, round, targetFDR);
  }

  // ---------------------------------------------------------------- what the protein filter guarantees

  /** The selection over the sorted levels admits exactly the levels the peptide-style sweep admits. */
  lemma ProtSelection(list: seq<ProtId>, sc: Scoring<ProtId>, round: real -> real, targetFDR: real)
    ensures var keys := SortedLevels(Scores(list, sc));
      && StrictlyDesc(keys)
      && (forall k :: k in keys <==> k in Scores(list, sc))
      && (set k | k in keys && Qualifies(LevelFdr(LevelMap(list, sc), k), round, targetFDR)) == Admitted(list, sc, round, targetFDR)
  {
    var keys := SortedLevels(Scores(list, sc));
    SortedLevelsFacts(Scores(list, sc));
    var a := set k | k in keys && Qualifies(LevelFdr(LevelMap(list, sc), k), round, targetFDR);
    assert a == Admitted(list, sc, round, targetFDR) by {
      assert forall k :: k in a <==> k in Admitted(list, sc, round, targetFDR);
    }
  }

  /** The threshold error is returned exactly when no level below 10 is admitted. */
  lemma ProtErrorIff(list: seq<ProtId>, sc: Scoring<ProtId>, round: real -> real, targetFDR: real)
    requires SweepOutcome(list, sc, round, targetFDR).Filtered?
    ensures SweepOutcome(list, sc, round, targetFDR).err == Some(NotReached)
        <==> forall s :: s in Admitted(list, sc, round, targetFDR) ==> s >= 10.0
  {
    var keys := SortedLevels(Scores(list, sc));
    ProtSelection(list, sc, round, targetFDR);
    CurProbIsLowest(keys, LevelMap(list, sc), round, targetFDR);
    var c := CurProb(keys, LevelMap(list, sc), round, targetFDR);
    if c != 10.0 {
      assert c in Admitted(list, sc, round, targetFDR);
    }
    forall s | s in Admitted(list, sc, round, targetFDR) ensures c <= s {
      var i :| 0 <= i < |keys| && keys[i] == s;
    }
  }

  /** On strictly descending levels that hold `curProb`, the extension adds nothing or the next lower level. */
  lemma ExtendShape(keys: seq<real>, probList: set<real>, curProb: real, curScore: real, round: real -> real, targetFDR: real)
    requires StrictlyDesc(keys) && curProb in keys
    ensures Extend(keys, probList, curProb, curScore, round, targetFDR).Some?
    ensures var levels := Extend(keys, probList, curProb, curScore, round, targetFDR).value;
      levels == probList
      || exists i :: 0 <= i < |keys| - 1 && keys[i] == curProb && levels == probList + {keys[i + 1]}
  {
  }

  /** The level after `keys[i]` is the highest level below it. */
  lemma NextBelow(keys: seq<real>, i: nat, s: real)
    requires StrictlyDesc(keys) && i + 1 < |keys|
    requires s in keys && s < keys[i]
    ensures keys[i + 1] < keys[i] && s <= keys[i + 1]
  {
    var j :| 0 <= j < |keys| && keys[j] == s;
    if j <= i {
      assert false;
    }
    if j > i + 1 {
      assert keys[j] < keys[i + 1];
    }
  }

  /** `n` is a level below every admitted level, and no level lies between it and them. */
  ghost predicate NextLevel(levels: set<real>, adm: set<real>, n: real)
  {
    && n in levels
    && (forall b :: b in adm ==> n < b)
    && (forall s :: s in levels && (forall b :: b in adm ==> s < b) ==> s <= n)
  }

  /** With `curProb` the lowest admitted level, the extension adds nothing or the highest level below every admitted one. */
  lemma ExtendNextLevel(keys: seq<real>, levels: set<real>, adm: set<real>, c: real, cs: real, round: real -> real, targetFDR: real)
    returns (n: real)
    requires StrictlyDesc(keys) && (forall k :: k in keys <==> k in levels)
    requires c in keys && c in adm
    requires forall b :: b in adm ==> c <= b
    ensures var ext := Extend(keys, adm, c, cs, round, targetFDR);
      && ext.Some?
      && (ext.value == adm || (NextLevel(levels, adm, n) && ext.value == adm + {n}))
  {
    ExtendShape(keys, adm, c, cs, round, targetFDR);
    var ext := Extend(keys, adm, c, cs, round, targetFDR).value;
    n := c;
    if ext != adm {
      var i :| 0 <= i < |keys| - 1 && keys[i] == c && ext == adm + {keys[i + 1]};
      forall s | s in levels && (forall b :: b in adm ==> s < b) ensures s <= keys[i + 1] {
        NextBelow(keys, i, s);
      }
      n := keys[i + 1];
      assert NextLevel(levels, adm, n);
    }
  }

  /** `curProb` is the lowest admitted level once some level below 10 is admitted. */
  lemma LowestAdmitted(list: seq<ProtId>, sc: Scoring<ProtId>, round: real -> real, targetFDR: real, a: real)
    requires a in Admitted(list, sc, round, targetFDR) && a < 10.0
    ensures var keys := SortedLevels(Scores(list, sc));
      var c := CurProb(keys, LevelMap(list, sc), round, targetFDR);
      && c in keys && c in Admitted(list, sc, round, targetFDR)
      && forall b :: b in Admitted(list, sc, round, targetFDR) ==> c <= b
  {
    var keys := SortedLevels(Scores(list, sc));
    var adm := Admitted(list, sc, round, targetFDR);
    ProtSelection(list, sc, round, targetFDR);
    CurProbIsLowest(keys, LevelMap(list, sc), round, targetFDR);
    var c := CurProb(keys, LevelMap(list, sc), round, targetFDR);
    var ia :| 0 <= ia < |keys| && keys[ia] == a;
    forall b | b in adm ensures c <= b {
      var i :| 0 <= i < |keys| && keys[i] == b;
    }
  }

  /**
   * Once a level below 10 is admitted the search cannot run off the end: the result is the sweep's
   * output, or that output plus the proteins of the one level just below every admitted level.
   */
  lemma ProtExtension(list: seq<ProtId>, sc: Scoring<ProtId>, round: real -> real, targetFDR: real, a: real)
    requires a in Admitted(list, sc, round, targetFDR) && a < 10.0
    ensures var r := SweepOutcome(list, sc, round, targetFDR);
      var adm := Admitted(list, sc, round, targetFDR);
      && r.Filtered?
      && (r.clean == Kept(list, sc, round, targetFDR)
          || exists n :: NextLevel(Scores(list, sc), adm, n) && r.clean == Filter(list, InLevels(sc, adm + {n})))
  {
    var keys := SortedLevels(Scores(list, sc));
    var adm := Admitted(list, sc, round, targetFDR);
    var c := CurProb(keys, LevelMap(list, sc), round, targetFDR);
    var cs := CurScore(keys, LevelMap(list, sc), round, targetFDR);
    SortedLevelsFacts(Scores(list, sc));
    LowestAdmitted(list, sc, round, targetFDR, a);
    var n := ExtendNextLevel(keys, Scores(list, sc), adm, c, cs, round, targetFDR);
    var ext := Extend(keys, adm, c, cs, round, targetFDR);
    assert SweepOutcome(list, sc, round, targetFDR) == Outcome(list, sc, ext, c);
    OutcomeCases(list, sc, ext, c, Scores(list, sc), adm, n);
  }

  /** The final pass over the admitted levels, possibly with one more level below them. */
  lemma OutcomeCases(list: seq<ProtId>, sc: Scoring<ProtId>, ext: Option<set<real>>, c: real,
                     levels: set<real>, adm: set<real>, n: real)
    requires ext.Some? && (ext.value == adm || (NextLevel(levels, adm, n) && ext.value == adm + {n}))
    ensures var r := Outcome(list, sc, ext, c);
      && r.Filtered?
      && (r.clean == Filter(list, InLevels(sc, adm))
          || exists n :: NextLevel(levels, adm, n) && r.clean == Filter(list, InLevels(sc, adm + {n})))
  {
  }

  /** Without the extension the protein filter keeps exactly what the peptide-style sweep keeps. */
  lemma ProtKeptWithoutExtension(list: seq<ProtId>, sc: Scoring<ProtId>, round: real -> real, targetFDR: real)
    requires var keys := SortedLevels(Scores(list, sc));
      var cs := CurScore(keys, LevelMap(list, sc), round, targetFDR);
      cs >= targetFDR || round(cs) == targetFDR
    ensures SweepOutcome(list, sc, round, targetFDR).Filtered?
    ensures SweepOutcome(list, sc, round, targetFDR).clean == Kept(list, sc, round, targetFDR)
  {
    ProtSelection(list, sc, round, targetFDR);
  }

  /** No eligible protein and a positive target that 0 does not round to: the guard of the extension indexes an empty list. */
  lemma EmptyListPanics(sc: Scoring<ProtId>, round: real -> real, targetFDR: real)
    requires 0.0 < targetFDR && round(0.0) != targetFDR
    ensures SweepOutcome([], sc, round, targetFDR) == IndexPanic
  {
    assert Scores([], sc) == {} by {
      assert forall s :: s !in Scores([], sc);
    }
  }
  /** Whatever the protein filter keeps is an eligible protein of the groups, in `TopPepProb` order. */
  lemma ProtKeptEligible(groups: seq<ProteinGroup>, targetFDR: real, pepProb: real, protProb: real,
                         isPicked: bool, isRazor: bool, isDecoy: string -> bool, round: real -> real)
    ensures var r := ProtXMLFilterSpec(groups, targetFDR, pepProb, protProb, isPicked, isRazor, isDecoy, round);
      r.Filtered? ==>
        && SortedDesc(r.clean, ProtScoring(isDecoy).score)
        && forall x :: x in r.clean ==> x in AllProteins(groups) && Eligible(x, isRazor, isPicked, pepProb, protProb)
  {
    var list := Sorted(groups, isRazor, isPicked, pepProb, protProb, isDecoy);
    var sc := ProtScoring(isDecoy);
    var keys := SortedLevels(Scores(list, sc));
    var curProb := CurProb(keys, LevelMap(list, sc), round, targetFDR);
    var curScore := CurScore(keys, LevelMap(list, sc), round, targetFDR);
    var ext := Extend(keys, Admitted(list, sc, round, targetFDR), curProb, curScore, round, targetFDR);
    var r := Outcome(list, sc, ext, curProb);
    assert ProtXMLFilterSpec(groups, targetFDR, pepProb, protProb, isPicked, isRazor, isDecoy, round) == r;
    if r.Filtered? {
      var eligible := Filter(AllProteins(groups), EligibleIn(isRazor, isPicked, pepProb, protProb));
      FilterSorted(list, InLevels(sc, ext.value), sc.score);
      forall x | x in r.clean ensures x in AllProteins(groups) && Eligible(x, isRazor, isPicked, pepProb, protProb) {
        assert x in list;
        assert x in multiset(list);
        assert x in eligible;
      }
    }
  }
}
