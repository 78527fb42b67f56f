/**
 * `pickedFDR` (lib/fil/fil.go:637-702): target-decoy competition by protein name. Each target
 * `k` is paired with the decoy named tag + `k`; only the higher-scoring member of a pair keeps
 * `Picked = 1` (both on a tie), unpaired entries get 1, and proteins the record map does not
 * mention keep their previous value.
 */
module Picked {
  import opened Seqs
  import opened Strs
  import opened Ident

  /** `PeptideIons[0].InitialProbability`; the source indexes out of range when there is no ion. */
  function FirstIonProb(p: ProtId): real
  {
    if |p.ions| > 0 then p.ions[0].initialProbability else 0.0
  }

  /** `targetMap` / `decoyMap` (fil.go:645-653): name to score, the last protein of a name winning. */
  function NameScores(ps: seq<ProtId>, isDecoy: string -> bool, decoys: bool): map<string, real>
  {
    if ps == [] then map[]
    else
      var m := NameScores(ps[..|ps| - 1], isDecoy, decoys);
      var x := ps[|ps| - 1];
      if isDecoy(x.name) == decoys then m[x.name := FirstIonProb(x)] else m
  }

  /** `ps[i]` is the last protein named `n`. */
  ghost predicate LastNamed(ps: seq<ProtId>, n: string, i: int)
  {
    0 <= i < |ps| && ps[i].name == n && forall j :: i < j < |ps| ==> ps[j].name != n
  }

  /** A name is in the map of its class exactly when some protein carries it. */
  lemma {:induction false} NameScoresHas(ps: seq<ProtId>, isDecoy: string -> bool, decoys: bool, n: string)
    ensures n in NameScores(ps, isDecoy, decoys) <==> isDecoy(n) == decoys && exists i :: 0 <= i < |ps| && ps[i].name == n
  {
    if ps != [] {
      var init := ps[..|ps| - 1];
      NameScoresHas(init, isDecoy, decoys, n);
      if exists i :: 0 <= i < |ps| && ps[i].name == n {
        var i :| 0 <= i < |ps| && ps[i].name == n;
        if i < |init| {
          assert init[i].name == n;
        }
      }
    }
  }

  /** The names of one class, each with the score of the last protein carrying it. */
  lemma {:induction false} NameScoresLast(ps: seq<ProtId>, isDecoy: string -> bool, decoys: bool, n: string)
    requires n in NameScores(ps, isDecoy, decoys)
    ensures exists i :: LastNamed(ps, n, i) && NameScores(ps, isDecoy, decoys)[n] == FirstIonProb(ps[i])
  {
    var last := |ps| - 1;
    NameScoresHas(ps, isDecoy, decoys, n);
    if ps[last].name == n {
      assert LastNamed(ps, n, last);
    } else {
      var init := ps[..last];
      NameScoresLast(init, isDecoy, decoys, n);
      var i :| LastNamed(init, n, i) && NameScores(init, isDecoy, decoys)[n] == FirstIonProb(init[i]);
      assert LastNamed(ps, n, i);
    }
  }

  /** The decoy name paired with target `k`. */
  function DecoyOf(tag: string, k: string): string { tag + k }

  /** `n` is tag + `k` for some `k` in `done`, and that `k`. */
  predicate PairedWith(n: string, tag: string, done: set<string>)
  {
    HasPrefix(n, tag) && n[|tag|..] in done
  }

  /** What the first two loops (fil.go:655-671) record: unpaired targets and decoys whose stripped name is no target. */
  function UnpairedValue(tm: map<string, real>, dm: map<string, real>, tag: string, n: string): Option<int>
  {
    if n in tm && DecoyOf(tag, n) !in dm then Some(1)
    else if n in dm && RemoveAll(n, tag) !in tm then Some(1)
    else None
  }

  /** The record once the pairing loop (fil.go:674-690) has handled the targets in `done`. */
  function RecordAfter(tm: map<string, real>, dm: map<string, real>, tag: string, done: set<string>, n: string): Option<int>
    requires done <= tm.Keys
  {
    if n in done && DecoyOf(tag, n) in dm then
      Some(if tm[n] >= dm[DecoyOf(tag, n)] then 1 else 0)
    else if n in dm && PairedWith(n, tag, done) then
      Some(if dm[n] >= tm[n[|tag|..]] then 1 else 0)
    else UnpairedValue(tm, dm, tag, n)
  }

  /** `recordMap[n]` after the three loops, `None` when `n` is not a key. */
  function PickedValue(tm: map<string, real>, dm: map<string, real>, tag: string, n: string): Option<int>
  {
    RecordAfter(tm, dm, tag, tm.Keys, n)
  }

  /** A record map agrees with a spec on every name. */
  ghost predicate RecordIs(rec: map<string, int>, spec: string -> Option<int>)
  {
    forall n :: (n in rec <==> spec(n).Some?) && (n in rec ==> rec[n] == spec(n).value)
  }

  function Unpaired(tm: map<string, real>, dm: map<string, real>, tag: string): string -> Option<int>
  {
    n => UnpairedValue(tm, dm, tag, n)
  }

  function After(tm: map<string, real>, dm: map<string, real>, tag: string, done: set<string>): string -> Option<int>
    requires done <= tm.Keys
  {
    n => RecordAfter(tm, dm, tag, done, n)
  }

  /** The unique-targets loop (fil.go:655-662): every target without a decoy partner gets 1. */
  method RecordUnpairedTargets(tm: map<string, real>, dm: map<string, real>, tag: string) returns (rec: map<string, int>)
    ensures forall n :: n in rec <==> n in tm && DecoyOf(tag, n) !in dm
    ensures forall n :: n in rec ==> rec[n] == 1
  {
    rec := map[];
    var rest := tm.Keys;
    while rest != {}
      invariant rest <= tm.Keys
      invariant forall n :: n in rec <==> n in tm && n !in rest && DecoyOf(tag, n) !in dm
      invariant forall n :: n in rec ==> rec[n] == 1
      decreases |rest|
    {
      if forall k :: k !in rest {
        assert false;
      }
      var k :| k in rest;
      if DecoyOf(tag, k) !in dm {
        rec := rec[k := 1];
      }
      rest := rest - {k};
    }
  }

  /** The unique-decoys loop (fil.go:664-671): every decoy whose tag-stripped name is no target gets 1. */
  method RecordUnpairedDecoys(tm: map<string, real>, dm: map<string, real>, tag: string, rec0: map<string, int>)
    returns (rec: map<string, int>)
    ensures forall n :: n in rec <==> n in rec0 || (n in dm && RemoveAll(n, tag) !in tm)
    ensures forall n :: n in rec ==> rec[n] == if n in dm && RemoveAll(n, tag) !in tm then 1 else rec0[n]
  {
    rec := rec0;
    var rest := dm.Keys;
    while rest != {}
      invariant rest <= dm.Keys
      invariant forall n :: n in rec <==> n in rec0 || (n in dm && n !in rest && RemoveAll(n, tag) !in tm)
      invariant forall n :: n in rec ==> rec[n] == if n in dm && n !in rest && RemoveAll(n, tag) !in tm then 1 else rec0[n]
      decreases |rest|
    {
      if forall k :: k !in rest {
        assert false;
      }
      var k :| k in rest;
      if RemoveAll(k, tag) !in tm {
        rec := rec[k := 1];
      }
      rest := rest - {k};
    }
  }

  /** The first two loops together record exactly the unpaired entries. */
  method RecordUnpaired(tm: map<string, real>, dm: map<string, real>, tag: string) returns (rec: map<string, int>)
    requires tm.Keys !! dm.Keys
    ensures RecordIs(rec, Unpaired(tm, dm, tag))
  {
    var rec1 := RecordUnpairedTargets(tm, dm, tag);
    rec := RecordUnpairedDecoys(tm, dm, tag, rec1);
  }

  /** Handling one more target in the pairing loop changes the record at that target and its decoy only. */
  lemma PairStep(tm: map<string, real>, dm: map<string, real>, tag: string, done: set<string>, k: string, n: string)
    requires tm.Keys !! dm.Keys
    requires done <= tm.Keys && k in tm && k !in done
    requires n != k && n != DecoyOf(tag, k)
    ensures RecordAfter(tm, dm, tag, done + {k}, n) == RecordAfter(tm, dm, tag, done, n)
  {
  }

  lemma PairedDecoyOf(tag: string, k: string, done: set<string>)
    requires k in done
    ensures PairedWith(DecoyOf(tag, k), tag, done)
    ensures DecoyOf(tag, k)[|tag|..] == k
  {
  }

  /** The pairing loop's update for target `k`. */
  function PairUpdate(rec: map<string, int>, tm: map<string, real>, dm: map<string, real>, tag: string, k: string): map<string, int>
    requires k in tm
  {
    var iKey := DecoyOf(tag, k);
    if iKey !in dm then rec
    else if dm[iKey] > tm[k] then rec[k := 0][iKey := 1]
    else if tm[k] > dm[iKey] then rec[k := 1][iKey := 0]
    else rec[k := 1][iKey := 1]
  }

  lemma PairLoopStep(tm: map<string, real>, dm: map<string, real>, tag: string, done: set<string>, k: string, rec: map<string, int>)
    requires tm.Keys !! dm.Keys
    requires done <= tm.Keys && k in tm && k !in done
    requires RecordIs(rec, After(tm, dm, tag, done))
    ensures RecordIs(PairUpdate(rec, tm, dm, tag, k), After(tm, dm, tag, done + {k}))
  {
    var rec' := PairUpdate(rec, tm, dm, tag, k);
    var iKey := DecoyOf(tag, k);
    forall n ensures (n in rec' <==> RecordAfter(tm, dm, tag, done + {k}, n).Some?)
                     && (n in rec' ==> rec'[n] == RecordAfter(tm, dm, tag, done + {k}, n).value)
    {
      if n == iKey {
        PairedDecoyOf(tag, k, done + {k});
      } else if n != k {
        PairStep(tm, dm, tag, done, k, n);
        assert RecordAfter(tm, dm, tag, done, n) == After(tm, dm, tag, done)(n);
      }
    }
  }

  /** One pass of the pairing loop body (fil.go:675-689), for target `k`. */
  method PairOne(tm: map<string, real>, dm: map<string, real>, tag: string, ghost done: set<string>, k: string,
                 rec0: map<string, int>) returns (rec: map<string, int>)
    requires tm.Keys !! dm.Keys
    requires done <= tm.Keys && k in tm && k !in done
    requires RecordIs(rec0, After(tm, dm, tag, done))
    ensures RecordIs(rec, After(tm, dm, tag, done + {k}))
  {
    rec := rec0;
    var iKey := DecoyOf(tag, k);
    var v := tm[k];
    if iKey in dm {
      var vok := dm[iKey];
      if vok > v {
        rec := rec[k := 0][iKey := 1];
      } else if v > vok {
        rec := rec[k := 1][iKey := 0];
      } else {
        rec := rec[k := 1][iKey := 1];
      }
    }
    assert rec == PairUpdate(rec0, tm, dm, tag, k);
    PairLoopStep(tm, dm, tag, done, k, rec0);
  }

  /** The pairing loop (fil.go:674-690): within a pair the higher score gets 1 and the other 0; a tie gives both 1. */
  method RecordPaired(tm: map<string, real>, dm: map<string, real>, tag: string, rec0: map<string, int>)
    returns (rec: map<string, int>)
    requires tm.Keys !! dm.Keys
    requires RecordIs(rec0, After(tm, dm, tag, {}))
    ensures RecordIs(rec, After(tm, dm, tag, tm.Keys))
  {
    rec := rec0;
    var rest := tm.Keys;
    ghost var done: set<string> := {};
    while rest != {}
      invariant forall n :: n in tm <==> n in done || n in rest
      invariant done !! rest
      invariant RecordIs(rec, After(tm, dm, tag, done))
      decreases |rest|
    {
      if forall k :: k !in rest {
        assert false;
      }
      var k :| k in rest;
      rec := PairOne(tm, dm, tag, done, k, rec);
      rest := rest - {k};
      done := done + {k};
    }
    SameDone(tm, dm, tag, done, rec);
  }

  lemma SameDone(tm: map<string, real>, dm: map<string, real>, tag: string, done: set<string>, rec: map<string, int>)
    requires forall n :: n in done <==> n in tm
    requires RecordIs(rec, After(tm, dm, tag, done))
    ensures RecordIs(rec, After(tm, dm, tag, tm.Keys))
  {
    assert done == tm.Keys by {
      assert forall n :: n in done <==> n in tm.Keys;
    }
  }

  lemma NothingPaired(tm: map<string, real>, dm: map<string, real>, tag: string, rec: map<string, int>)
    requires RecordIs(rec, Unpaired(tm, dm, tag))
    ensures RecordIs(rec, After(tm, dm, tag, {}))
  {
    forall n ensures After(tm, dm, tag, {})(n) == Unpaired(tm, dm, tag)(n) {
    }
  }

  /** The record map `pickedFDR` builds from the two score maps. */
  method BuildRecord(tm: map<string, real>, dm: map<string, real>, tag: string) returns (rec: map<string, int>)
    requires tm.Keys !! dm.Keys
    ensures forall n :: n in rec <==> PickedValue(tm, dm, tag, n).Some?
    ensures forall n :: n in rec ==> rec[n] == PickedValue(tm, dm, tag, n).value
  {
    rec := RecordUnpaired(tm, dm, tag);
    NothingPaired(tm, dm, tag, rec);
    rec := RecordPaired(tm, dm, tag, rec);
  }

  lemma NameScoresSnoc(s: seq<ProtId>, x: ProtId, isDecoy: string -> bool, decoys: bool)
    ensures NameScores(s + [x], isDecoy, decoys)
            == if isDecoy(x.name) == decoys then NameScores(s, isDecoy, decoys)[x.name := FirstIonProb(x)]
               else NameScores(s, isDecoy, decoys)
  {
    assert (s + [x])[..|s|] == s;
  }

  lemma AllProteinsSnoc(groups: seq<ProteinGroup>, i: nat)
    requires i < |groups|
    ensures AllProteins(groups[..i + 1]) == AllProteins(groups[..i]) + groups[i].proteins
  {
    assert groups[..i + 1][..i] == groups[..i];
  }

  /** The inner loop of fil.go:645-653 over one group's proteins. */
  method CollectGroup(ps: seq<ProtId>, ghost before: seq<ProtId>, isDecoy: string -> bool,
                      tm0: map<string, real>, dm0: map<string, real>) returns (tm: map<string, real>, dm: map<string, real>)
    requires forall j :: 0 <= j < |ps| ==> |ps[j].ions| > 0
    requires tm0 == NameScores(before, isDecoy, false) && dm0 == NameScores(before, isDecoy, true)
    ensures tm == NameScores(before + ps, isDecoy, false) && dm == NameScores(before + ps, isDecoy, true)
  {
    tm, dm := tm0, dm0;
    assert before + ps[..0] == before;
    for j := 0 to |ps|
      invariant tm == NameScores(before + ps[..j], isDecoy, false)
      invariant dm == NameScores(before + ps[..j], isDecoy, true)
    {
      assert before + ps[..j + 1] == (before + ps[..j]) + [ps[j]];
      NameScoresSnoc(before + ps[..j], ps[j], isDecoy, false);
      NameScoresSnoc(before + ps[..j], ps[j], isDecoy, true);
      if isDecoy(ps[j].name) {
        dm := dm[ps[j].name := ps[j].ions[0].initialProbability];
      } else {
        tm := tm[ps[j].name := ps[j].ions[0].initialProbability];
      }
    }
    assert ps[..|ps|] == ps;
  }

  /** The score maps are built from the proteins in group order; a name ends in the map of its class. */
  method CollectScores(groups: array<ProteinGroup>, isDecoy: string -> bool) returns (tm: map<string, real>, dm: map<string, real>)
    requires forall i, j :: 0 <= i < groups.Length && 0 <= j < |groups[i].proteins| ==> |groups[i].proteins[j].ions| > 0
    ensures tm == NameScores(AllProteins(groups[..]), isDecoy, false)
    ensures dm == NameScores(AllProteins(groups[..]), isDecoy, true)
  {
    tm, dm := map[], map[];
    for i := 0 to groups.Length
      invariant tm == NameScores(AllProteins(groups[..i]), isDecoy, false)
      invariant dm == NameScores(AllProteins(groups[..i]), isDecoy, true)
    {
      tm, dm := CollectGroup(groups[i].proteins, AllProteins(groups[..i]), isDecoy, tm, dm);
      AllProteinsSnoc(groups[..], i);
      assert groups[..][..i] == groups[..i] && groups[..][..i + 1] == groups[..i + 1];
    }
    assert groups[..groups.Length] == groups[..];
  }

  /** A protein after the record map is applied: its `Picked` replaced when the map has its name. */
  function SetPicked(p: ProtId, tm: map<string, real>, dm: map<string, real>, tag: string): ProtId
  {
    match PickedValue(tm, dm, tag, p.name)
    case Some(v) => p.(picked := v)
    case None => p
  }

  /** The final loop (fil.go:692-700): writes `Picked` in place into every protein the record map names. */
  method ApplyRecord(groups: array<ProteinGroup>, rec: map<string, int>, ghost tm: map<string, real>,
                     ghost dm: map<string, real>, tag: string)
    requires forall n :: n in rec <==> PickedValue(tm, dm, tag, n).Some?
    requires forall n :: n in rec ==> rec[n] == PickedValue(tm, dm, tag, n).value
    modifies groups
    ensures forall i :: 0 <= i < groups.Length ==>
              groups[i].number == old(groups[i]).number && |groups[i].proteins| == |old(groups[i]).proteins|
              && forall j :: 0 <= j < |groups[i].proteins| ==>
                   groups[i].proteins[j] == SetPicked(old(groups[i]).proteins[j], tm, dm, tag)
  {
    for i := 0 to groups.Length
      invariant forall g :: i <= g < groups.Length ==> groups[g] == old(groups[g])
      invariant forall g :: 0 <= g < i ==>
                  groups[g].number == old(groups[g]).number && |groups[g].proteins| == |old(groups[g]).proteins|
                  && forall j :: 0 <= j < |groups[g].proteins| ==>
                       groups[g].proteins[j] == SetPicked(old(groups[g]).proteins[j], tm, dm, tag)
    {
      for j := 0 to |groups[i].proteins|
        invariant forall g :: 0 <= g < groups.Length && g != i ==> groups[g] == old(groups[g]) || g < i
        invariant forall g :: i < g < groups.Length ==> groups[g] == old(groups[g])
        invariant forall g :: 0 <= g < i ==>
                    groups[g].number == old(groups[g]).number && |groups[g].proteins| == |old(groups[g]).proteins|
                    && forall l :: 0 <= l < |groups[g].proteins| ==>
                         groups[g].proteins[l] == SetPicked(old(groups[g]).proteins[l], tm, dm, tag)
        invariant groups[i].number == old(groups[i]).number && |groups[i].proteins| == |old(groups[i]).proteins|
        invariant forall l :: 0 <= l < j ==> groups[i].proteins[l] == SetPicked(old(groups[i]).proteins[l], tm, dm, tag)
        invariant forall l :: j <= l < |groups[i].proteins| ==> groups[i].proteins[l] == old(groups[i]).proteins[l]
      {
        var name := groups[i].proteins[j].name;
        if name in rec {
          groups[i] := groups[i].(proteins := groups[i].proteins[j := groups[i].proteins[j].(picked := rec[name])]);
        }
      }
    }
  }

  /** The proteins of a protein list, under the decoy test, split into the two score maps. */
  function TargetScores(ps: seq<ProtId>, isDecoy: string -> bool): map<string, real>
  {
    NameScores(ps, isDecoy, false)
  }

  function DecoyScores(ps: seq<ProtId>, isDecoy: string -> bool): map<string, real>
  {
    NameScores(ps, isDecoy, true)
  }

  lemma ScoresDisjoint(ps: seq<ProtId>, isDecoy: string -> bool)
    ensures TargetScores(ps, isDecoy).Keys !! DecoyScores(ps, isDecoy).Keys
  {
    forall n | n in TargetScores(ps, isDecoy) ensures n !in DecoyScores(ps, isDecoy) {
      NameScoresHas(ps, isDecoy, false, n);
      NameScoresHas(ps, isDecoy, true, n);
    }
  }

  /**
   * `pickedFDR`: every protein's `Picked` becomes its record value when the record map has its
   * name and stays as it was otherwise; nothing else changes. Every protein needs a peptide ion
   * (the source reads `PeptideIons[0]`).
   */
  method PickedFDR(groups: array<ProteinGroup>, tag: string, isDecoy: string -> bool)
    requires forall i, j :: 0 <= i < groups.Length && 0 <= j < |groups[i].proteins| ==> |groups[i].proteins[j].ions| > 0
    modifies groups
    ensures forall i :: 0 <= i < groups.Length ==>
              groups[i].number == old(groups[i]).number && |groups[i].proteins| == |old(groups[i]).proteins|
              && forall j :: 0 <= j < |groups[i].proteins| ==>
                   groups[i].proteins[j]
                   == SetPicked(old(groups[i]).proteins[j], TargetScores(AllProteins(old(groups[..])), isDecoy),
                                DecoyScores(AllProteins(old(groups[..])), isDecoy), tag)
  {
    var tm, dm := CollectScores(groups, isDecoy);
    ScoresDisjoint(AllProteins(groups[..]), isDecoy);
    var rec := BuildRecord(tm, dm, tag);
    ApplyRecord(groups, rec, tm, dm, tag);
  }

  // ---------------------------------------------------------------- properties of the record

  /** Within a pair only the higher score is picked; on an exact tie both are; one of the two always is. */
  lemma PairCompetition(tm: map<string, real>, dm: map<string, real>, tag: string, k: string)
    requires tm.Keys !! dm.Keys
    requires k in tm && DecoyOf(tag, k) in dm
    ensures PickedValue(tm, dm, tag, k) == Some(if tm[k] >= dm[DecoyOf(tag, k)] then 1 else 0)
    ensures PickedValue(tm, dm, tag, DecoyOf(tag, k)) == Some(if dm[DecoyOf(tag, k)] >= tm[k] then 1 else 0)
    ensures PickedValue(tm, dm, tag, k) == Some(1) || PickedValue(tm, dm, tag, DecoyOf(tag, k)) == Some(1)
    ensures PickedValue(tm, dm, tag, k) == PickedValue(tm, dm, tag, DecoyOf(tag, k)) == Some(1)
            <==> tm[k] == dm[DecoyOf(tag, k)]
  {
    PairedDecoyOf(tag, k, tm.Keys);
  }

  /** A target without a decoy partner is picked. */
  lemma UnpairedTargetPicked(tm: map<string, real>, dm: map<string, real>, tag: string, k: string)
    requires tm.Keys !! dm.Keys
    requires k in tm && DecoyOf(tag, k) !in dm
    ensures PickedValue(tm, dm, tag, k) == Some(1)
  {
  }

  /**
   * A decoy that is not tag + a target is picked when its tag-stripped name is no target; when the
   * stripped name is a target (the tag occurs elsewhere than at the front) it is left out of the
   * record map and keeps its previous `Picked`.
   */
  lemma UnpairedDecoyPicked(tm: map<string, real>, dm: map<string, real>, tag: string, d: string)
    requires tm.Keys !! dm.Keys
    requires d in dm && !PairedWith(d, tag, tm.Keys)
    ensures PickedValue(tm, dm, tag, d) == if RemoveAll(d, tag) !in tm then Some(1) else None
  {
  }

  /** A name in neither map is not in the record map: such a protein keeps its previous `Picked`. */
  lemma AbsentKeepsPicked(tm: map<string, real>, dm: map<string, real>, tag: string, p: ProtId)
    requires p.name !in tm && p.name !in dm
    ensures SetPicked(p, tm, dm, tag) == p
  {
  }

  /** Every recorded value is 0 or 1, and a name gets a value only if it is in one of the maps. */
  lemma RecordValues(tm: map<string, real>, dm: map<string, real>, tag: string, n: string)
    ensures PickedValue(tm, dm, tag, n).Some? ==> (n in tm || n in dm)
    ensures PickedValue(tm, dm, tag, n).Some? ==> PickedValue(tm, dm, tag, n).value in {0, 1}
  {
  }
}
