/**
 * `UpdateIonStatus` (lib/rep/updater.go:54-187): reads which ion forms and peptide sequences the
 * proteins list as unique or razor, then moves every PSM, ion and peptide with a razor entry onto
 * its razor protein and refreshes the uniqueness flags. The proteins are only read.
 */
module RazorStatus {
  import opened Seqs
  import opened Strs
  import opened RepTypes
  import opened InPlace

  /** The `PrevAA#NextAA` record a PSM leaves behind for the protein it moves away from. */
  function Flanks(x: PSMEvidence): string
  {
    x.prevAA + "#" + x.nextAA
  }

  /**
   * The move of a PSM onto `target` as updater.go:85-104 writes it: the recovered flanks are read
   * from the record of `target` (empty when absent), and `PrevAA` is assigned the first field and
   * then the second one; `NextAA` is left alone. With fewer than two fields the second read is out
   * of range: `None`.
   */
  function MovePSMAsWritten(x: PSMEvidence, target: string): Option<PSMEvidence>
  {
    var mp := x.mappedProteins[x.protein := Flanks(x)];
    var parts := SplitOn(if target in mp then mp[target] else "", '#');
    if |parts| < 2 then None
    else Some(x.(isURazor := true, mappedProteins := mp - {target}, protein := target, prevAA := parts[1]))
  }

  /**
   * The move as it is evidently meant, and as `ApplyRazorAssignment` (updater.go:862-879) writes
   * it: the old protein keeps the PSM's flanks, `target` becomes the primary protein, and the two
   * fields of its record, when there are two, become `PrevAA` and `NextAA`.
   */
  function MovePSM(x: PSMEvidence, target: string): (y: PSMEvidence)
    ensures y.isURazor && y.protein == target && target !in y.mappedProteins
    ensures x.protein != target ==> x.protein in y.mappedProteins && y.mappedProteins[x.protein] == Flanks(x)
    ensures forall k :: k in x.mappedProteins && k != target && k != x.protein ==> k in y.mappedProteins && y.mappedProteins[k] == x.mappedProteins[k]
    ensures y.mappedProteins.Keys <= x.mappedProteins.Keys + {x.protein}
    ensures target != x.protein && target !in x.mappedProteins ==> y.prevAA == x.prevAA && y.nextAA == x.nextAA
    ensures (y.spectrum, y.peptide, y.charge, y.mass, y.massdiff, y.isUnique, y.isDecoy, y.ntt) == (x.spectrum, x.peptide, x.charge, x.mass, x.massdiff, x.isUnique, x.isDecoy, x.ntt)
  {
    var mp := x.mappedProteins[x.protein := Flanks(x)];
    var parts := SplitOn(if target in mp then mp[target] else "", '#');
    var moved := x.(isURazor := true, mappedProteins := mp - {target}, protein := target);
    if |parts| > 1 then moved.(prevAA := parts[0], nextAA := parts[1]) else moved
  }

  ghost predicate NoHash(s: string)
  {
    Occurrences(s, '#') == 0
  }

  /** Moving onto a mapped protein recovers the flanks recorded for it. */
  lemma MoveRecoversFlanks(x: PSMEvidence, target: string, prev: string, next: string)
    requires target != x.protein && target in x.mappedProteins
    requires x.mappedProteins[target] == prev + "#" + next && NoHash(prev) && NoHash(next)
    ensures MovePSM(x, target).prevAA == prev && MovePSM(x, target).nextAA == next
  {
    SplitPair(prev, next, '#');
  }

  /**
   * Moving a PSM onto one of its mapped proteins and back gives the PSM back, marked razor: the
   * flanks travel with the protein records.
   */
  lemma MoveRoundTrip(x: PSMEvidence, target: string, prev: string, next: string)
    requires target != x.protein && target in x.mappedProteins && x.protein !in x.mappedProteins
    requires x.mappedProteins[target] == prev + "#" + next && NoHash(prev) && NoHash(next)
    requires NoHash(x.prevAA) && NoHash(x.nextAA)
    ensures MovePSM(MovePSM(x, target), x.protein) == x.(isURazor := true)
  {
    var y := MovePSM(x, target);
    MoveRecoversFlanks(x, target, prev, next);
    assert y.mappedProteins[x.protein] == x.prevAA + "#" + x.nextAA;
    MoveRecoversFlanks(y, x.protein, x.prevAA, x.nextAA);
    var z := MovePSM(y, x.protein);
    assert Flanks(y) == x.mappedProteins[target];
    assert z.mappedProteins == x.mappedProteins by {
      assert forall k :: k in z.mappedProteins <==> k in x.mappedProteins;
      assert forall k :: k in z.mappedProteins ==> z.mappedProteins[k] == x.mappedProteins[k];
    }
  }

  /**
   * As written, a PSM whose razor protein is already its primary protein loses its `PrevAA`, which
   * becomes its `NextAA`; and a razor protein missing from the PSM's records stops the update.
   */
  lemma MoveAsWrittenLosesFlank() returns (x: PSMEvidence)
    ensures MovePSMAsWritten(x, x.protein).Some?
    ensures MovePSMAsWritten(x, x.protein).value.prevAA == x.nextAA != x.prevAA
    ensures MovePSM(x, x.protein).prevAA == x.prevAA
    ensures MovePSMAsWritten(x, "B").None?
  {
    x := PSMEvidence("s", "PEPTIDE", 2, 800.0, 0.0, "A", map[], "K", "R", false, false, false, 2);
    assert Flanks(x) == "K" + "#" + "R";
    SplitPair("K", "R", '#');
    assert SplitOn("", '#') == [""];
  }

  function IonKeyOf(j: ProteinIon): IonForm { ProteinIonForm(j) }
  function SequenceOf(j: ProteinIon): string { j.sequence }

  /** The unique entries one protein lists. */
  function ProteinUnique<K>(ions: seq<ProteinIon>, key: ProteinIon -> K): set<K>
  {
    if ions == [] then {}
    else
      var j := ions[|ions| - 1];
      ProteinUnique(ions[..|ions| - 1], key) + (if j.isUnique then {key(j)} else {})
  }

  /** `uniqueIons` (with `IonKeyOf`) and the protein part of `uniquePeptides` (with `SequenceOf`). */
  function UniqueTable<K>(ps: seq<ProteinEvidence>, key: ProteinIon -> K): set<K>
  {
    if ps == [] then {}
    else UniqueTable(ps[..|ps| - 1], key) + ProteinUnique(ps[|ps| - 1].totalPeptideIons, key)
  }

  /** The razor entries one protein lists, each pointing at its header. */
  function ProteinRazor<K>(h: string, ions: seq<ProteinIon>, key: ProteinIon -> K): map<K, string>
  {
    if ions == [] then map[]
    else
      var j := ions[|ions| - 1];
      var m := ProteinRazor(h, ions[..|ions| - 1], key);
      if j.isURazor then m[key(j) := h] else m
  }

  /** `razorIons` and `razorPeptides`: a later protein overwrites an earlier one. */
  function RazorTable<K>(ps: seq<ProteinEvidence>, key: ProteinIon -> K): map<K, string>
  {
    if ps == [] then map[]
    else RazorTable(ps[..|ps| - 1], key) + ProteinRazor(ps[|ps| - 1].partHeader, ps[|ps| - 1].totalPeptideIons, key)
  }

  ghost predicate ListsUnique<K>(p: ProteinEvidence, k: K, key: ProteinIon -> K)
  {
    exists j :: 0 <= j < |p.totalPeptideIons| && p.totalPeptideIons[j].isUnique && key(p.totalPeptideIons[j]) == k
  }

  ghost predicate ListsRazor<K>(p: ProteinEvidence, k: K, key: ProteinIon -> K)
  {
    exists j :: 0 <= j < |p.totalPeptideIons| && p.totalPeptideIons[j].isURazor && key(p.totalPeptideIons[j]) == k
  }

  lemma {:induction false} ProteinUniqueMember<K>(ions: seq<ProteinIon>, key: ProteinIon -> K, k: K)
    ensures k in ProteinUnique(ions, key) <==> exists j :: 0 <= j < |ions| && ions[j].isUnique && key(ions[j]) == k
  {
    if ions != [] {
      var init := ions[..|ions| - 1];
      ProteinUniqueMember(init, key, k);
      if exists j :: 0 <= j < |ions| && ions[j].isUnique && key(ions[j]) == k {
        var j :| 0 <= j < |ions| && ions[j].isUnique && key(ions[j]) == k;
        if j < |init| {
          assert init[j] == ions[j];
        }
      }
    }
  }

  /** An entry is unique exactly when some protein lists it as unique. */
  lemma {:induction false} UniqueTableMember<K>(ps: seq<ProteinEvidence>, key: ProteinIon -> K, k: K)
    ensures k in UniqueTable(ps, key) <==> exists i :: 0 <= i < |ps| && ListsUnique(ps[i], k, key)
  {
    if ps != [] {
      var init := ps[..|ps| - 1];
      UniqueTableMember(init, key, k);
      ProteinUniqueMember(ps[|ps| - 1].totalPeptideIons, key, k);
      if exists i :: 0 <= i < |ps| && ListsUnique(ps[i], k, key) {
        var i :| 0 <= i < |ps| && ListsUnique(ps[i], k, key);
        if i < |init| {
          assert init[i] == ps[i];
        }
      }
    }
  }

  lemma {:induction false} ProteinRazorMember<K>(h: string, ions: seq<ProteinIon>, key: ProteinIon -> K, k: K)
    ensures k in ProteinRazor(h, ions, key) <==> exists j :: 0 <= j < |ions| && ions[j].isURazor && key(ions[j]) == k
    ensures k in ProteinRazor(h, ions, key) ==> ProteinRazor(h, ions, key)[k] == h
  {
    if ions != [] {
      var init := ions[..|ions| - 1];
      ProteinRazorMember(h, init, key, k);
      if exists j :: 0 <= j < |ions| && ions[j].isURazor && key(ions[j]) == k {
        var j :| 0 <= j < |ions| && ions[j].isURazor && key(ions[j]) == k;
        if j < |init| {
          assert init[j] == ions[j];
        }
      }
    }
  }

  /**
   * A razor entry exists exactly when some protein lists it as razor, and it points at the header
   * of the last protein that does.
   */
  lemma {:induction false} RazorTableMember<K>(ps: seq<ProteinEvidence>, key: ProteinIon -> K, k: K) returns (i: nat)
    ensures k in RazorTable(ps, key) <==> exists i' :: 0 <= i' < |ps| && ListsRazor(ps[i'], k, key)
    ensures k in RazorTable(ps, key) ==>
      && i < |ps| && ListsRazor(ps[i], k, key) && RazorTable(ps, key)[k] == ps[i].partHeader
      && forall i' :: i < i' < |ps| ==> !ListsRazor(ps[i'], k, key)
  {
    i := 0;
    if ps != [] {
      var init := ps[..|ps| - 1];
      var last := ps[|ps| - 1];
      i := RazorTableMember(init, key, k);
      ProteinRazorMember(last.partHeader, last.totalPeptideIons, key, k);
      if ListsRazor(last, k, key) {
        i := |ps| - 1;
      } else {
        forall i' | 0 <= i' < |init| ensures init[i'] == ps[i'] { }
      }
    }
  }

  /** The PSM step (updater.go:77-137), with the flank recovery as `MovePSM` does it. */
  function PSMStatus(x: PSMEvidence, razorIons: map<IonForm, string>, razorPeptides: map<string, string>, uniqueIons: set<IonForm>, tag: string): (y: PSMEvidence)
    ensures (x.isURazor ==> y.isURazor) && (x.isUnique ==> y.isUnique) && (x.isDecoy ==> y.isDecoy)
    ensures (y.spectrum, y.peptide, y.charge, y.mass, y.massdiff, y.ntt) == (x.spectrum, x.peptide, x.charge, x.mass, x.massdiff, x.ntt)
  {
    var form := PSMIonForm(x);
    var y := if form in razorIons then MovePSM(x, razorIons[form]) else x;
    if y.isURazor then y
    else
      var z :=
        if x.peptide in razorPeptides then
          var sp := razorPeptides[x.peptide];
          var m := MovePSM(y, sp);
          if Contains(sp, tag) then m.(isDecoy := true) else m
        else y;
      if form in uniqueIons then z.(isUnique := true) else z
  }

  /** The peptides the PSM loop adds to `uniquePeptides`: those of PSMs not razor after the ion step. */
  function NotRazorPeptides(psm: seq<PSMEvidence>, razorIons: map<IonForm, string>): set<string>
  {
    if psm == [] then {}
    else
      var x := psm[|psm| - 1];
      NotRazorPeptides(psm[..|psm| - 1], razorIons) + (if !x.isURazor && PSMIonForm(x) !in razorIons then {x.peptide} else {})
  }

  /** The ion step (updater.go:140-161). */
  function IonStatus(x: IonEvidence, razorIons: map<IonForm, string>, uniqueIons: set<IonForm>, tag: string): IonEvidence
  {
    var form := IonIonForm(x);
    var y :=
      if form in razorIons then
        var rp := razorIons[form];
        x.(isURazor := true, mappedProteins := x.mappedProteins[x.protein := 0] - {rp}, protein := rp,
           isDecoy := x.isDecoy || Contains(rp, tag))
      else x;
    y.(isUnique := form in uniqueIons)
  }

  /** The peptide step (updater.go:163-186). */
  function PeptideStatus(x: PeptideEvidence, razorPeptides: map<string, string>, uniquePeptides: set<string>, tag: string): PeptideEvidence
  {
    var y :=
      if x.sequence in razorPeptides then
        var rp := razorPeptides[x.sequence];
        x.(isURazor := true, mappedProteins := x.mappedProteins[x.protein := 0] - {rp}, protein := rp,
           isDecoy := x.isDecoy || Contains(rp, tag))
      else x;
    y.(isUnique := x.sequence in uniquePeptides)
  }

  /** The evidence after `UpdateIonStatus`. */
  function IonStatusSpec(e: EvidenceState, tag: string): EvidenceState
  {
    var uniqueIons := UniqueTable(e.proteins, IonKeyOf);
    var razorIons := RazorTable(e.proteins, IonKeyOf);
    var razorPeptides := RazorTable(e.proteins, SequenceOf);
    var uniquePeptides := UniqueTable(e.proteins, SequenceOf) + NotRazorPeptides(e.psm, razorIons);
    EvidenceState(
      seq(|e.psm|, i requires 0 <= i < |e.psm| => PSMStatus(e.psm[i], razorIons, razorPeptides, uniqueIons, tag)),
      seq(|e.ions|, i requires 0 <= i < |e.ions| => IonStatus(e.ions[i], razorIons, uniqueIons, tag)),
      seq(|e.peptides|, i requires 0 <= i < |e.peptides| => PeptideStatus(e.peptides[i], razorPeptides, uniquePeptides, tag)),
      e.proteins)
  }

  lemma {:induction false} NotRazorPeptidesMember(psm: seq<PSMEvidence>, razorIons: map<IonForm, string>, v: string)
    ensures v in NotRazorPeptides(psm, razorIons) <==>
      exists n :: 0 <= n < |psm| && psm[n].peptide == v && !psm[n].isURazor && PSMIonForm(psm[n]) !in razorIons
  {
    if psm != [] {
      var init := psm[..|psm| - 1];
      NotRazorPeptidesMember(init, razorIons, v);
      if exists n :: 0 <= n < |psm| && psm[n].peptide == v && !psm[n].isURazor && PSMIonForm(psm[n]) !in razorIons {
        var n :| 0 <= n < |psm| && psm[n].peptide == v && !psm[n].isURazor && PSMIonForm(psm[n]) !in razorIons;
        if n < |init| {
          assert init[n] == psm[n];
        }
      }
    }
  }

  /**
   * An ion ends up unique exactly when some protein lists its ion form as unique; when some protein
   * lists it as razor it moves to the last such protein, which leaves its mapped proteins; otherwise
   * only its uniqueness flag is refreshed. The proteins are not touched.
   */
  lemma IonStatusIon(e: EvidenceState, tag: string, k: nat) returns (i: nat)
    requires k < |e.ions|
    ensures var x, y, form := e.ions[k], IonStatusSpec(e, tag).ions[k], IonIonForm(e.ions[k]);
      && IonStatusSpec(e, tag).proteins == e.proteins
      && (y.isUnique <==> exists i' :: 0 <= i' < |e.proteins| && ListsUnique(e.proteins[i'], form, IonKeyOf))
      && ((exists i' :: 0 <= i' < |e.proteins| && ListsRazor(e.proteins[i'], form, IonKeyOf)) ==>
            && y.isURazor && i < |e.proteins| && ListsRazor(e.proteins[i], form, IonKeyOf)
            && y.protein == e.proteins[i].partHeader && y.protein !in y.mappedProteins
            && (x.protein != y.protein ==> x.protein in y.mappedProteins && y.mappedProteins[x.protein] == 0)
            && (forall i' :: i < i' < |e.proteins| ==> !ListsRazor(e.proteins[i'], form, IonKeyOf)))
      && (!(exists i' :: 0 <= i' < |e.proteins| && ListsRazor(e.proteins[i'], form, IonKeyOf)) ==> y == x.(isUnique := y.isUnique))
      && IonIonForm(y) == form && (x.isDecoy ==> y.isDecoy)
  {
    var form := IonIonForm(e.ions[k]);
    UniqueTableMember(e.proteins, IonKeyOf, form);
    i := RazorTableMember(e.proteins, IonKeyOf, form);
  }

  /**
   * A peptide ends up unique exactly when some protein lists its sequence as unique or some PSM of
   * that sequence was neither razor nor of a razor ion form; a razor sequence moves it to the last
   * protein listing the sequence as razor.
   */
  lemma IonStatusPeptide(e: EvidenceState, tag: string, k: nat) returns (i: nat)
    requires k < |e.peptides|
    ensures var x, y := e.peptides[k], IonStatusSpec(e, tag).peptides[k];
      && (y.isUnique <==>
            || (exists i' :: 0 <= i' < |e.proteins| && ListsUnique(e.proteins[i'], x.sequence, SequenceOf))
            || (exists n :: 0 <= n < |e.psm| && e.psm[n].peptide == x.sequence && !e.psm[n].isURazor
                  && PSMIonForm(e.psm[n]) !in RazorTable(e.proteins, IonKeyOf)))
      && ((exists i' :: 0 <= i' < |e.proteins| && ListsRazor(e.proteins[i'], x.sequence, SequenceOf)) ==>
            && y.isURazor && i < |e.proteins| && ListsRazor(e.proteins[i], x.sequence, SequenceOf)
            && y.protein == e.proteins[i].partHeader && y.protein !in y.mappedProteins
            && (x.protein != y.protein ==> x.protein in y.mappedProteins && y.mappedProteins[x.protein] == 0)
            && (forall i' :: i < i' < |e.proteins| ==> !ListsRazor(e.proteins[i'], x.sequence, SequenceOf)))
      && (!(exists i' :: 0 <= i' < |e.proteins| && ListsRazor(e.proteins[i'], x.sequence, SequenceOf)) ==> y == x.(isUnique := y.isUnique))
      && y.sequence == x.sequence && (x.isDecoy ==> y.isDecoy)
  {
    var v := e.peptides[k].sequence;
    UniqueTableMember(e.proteins, SequenceOf, v);
    NotRazorPeptidesMember(e.psm, RazorTable(e.proteins, IonKeyOf), v);
    i := RazorTableMember(e.proteins, SequenceOf, v);
  }

  /** A PSM of a razor ion form moves to the last protein listing that form as razor. */
  lemma IonStatusPSMIon(e: EvidenceState, tag: string, k: nat) returns (i: nat)
    requires k < |e.psm|
    requires exists i' :: 0 <= i' < |e.proteins| && ListsRazor(e.proteins[i'], PSMIonForm(e.psm[k]), IonKeyOf)
    ensures var y, form := IonStatusSpec(e, tag).psm[k], PSMIonForm(e.psm[k]);
      && y.isURazor && i < |e.proteins| && ListsRazor(e.proteins[i], form, IonKeyOf)
      && y.protein == e.proteins[i].partHeader && y.protein !in y.mappedProteins
      && (forall i' :: i < i' < |e.proteins| ==> !ListsRazor(e.proteins[i'], form, IonKeyOf))
  {
    i := RazorTableMember(e.proteins, IonKeyOf, PSMIonForm(e.psm[k]));
  }

  /**
   * A PSM that is not razor after the ion step but has a razor sequence moves to the last protein
   * listing the sequence as razor, and becomes a decoy when that protein's header holds the tag.
   */
  lemma IonStatusPSMPeptide(e: EvidenceState, tag: string, k: nat) returns (i: nat)
    requires k < |e.psm| && !e.psm[k].isURazor
    requires !exists i' :: 0 <= i' < |e.proteins| && ListsRazor(e.proteins[i'], PSMIonForm(e.psm[k]), IonKeyOf)
    requires exists i' :: 0 <= i' < |e.proteins| && ListsRazor(e.proteins[i'], e.psm[k].peptide, SequenceOf)
    ensures var y := IonStatusSpec(e, tag).psm[k];
      && y.isURazor && i < |e.proteins| && ListsRazor(e.proteins[i], e.psm[k].peptide, SequenceOf)
      && y.protein == e.proteins[i].partHeader && y.protein !in y.mappedProteins
      && (forall i' :: i < i' < |e.proteins| ==> !ListsRazor(e.proteins[i'], e.psm[k].peptide, SequenceOf))
      && (Contains(y.protein, tag) ==> y.isDecoy)
  {
    var _ := RazorTableMember(e.proteins, IonKeyOf, PSMIonForm(e.psm[k]));
    i := RazorTableMember(e.proteins, SequenceOf, e.psm[k].peptide);
  }

  /** The protein scan (updater.go:62-75): the four tables, built ion by ion. */
  method ScanProteins(ps: seq<ProteinEvidence>)
    returns (uniqueIons: set<IonForm>, razorIons: map<IonForm, string>, uniquePeptides: set<string>, razorPeptides: map<string, string>)
    ensures uniqueIons == UniqueTable(ps, IonKeyOf) && razorIons == RazorTable(ps, IonKeyOf)
    ensures uniquePeptides == UniqueTable(ps, SequenceOf) && razorPeptides == RazorTable(ps, SequenceOf)
  {
    uniqueIons, razorIons, uniquePeptides, razorPeptides := {}, map[], {}, map[];
    for i := 0 to |ps|
      invariant uniqueIons == UniqueTable(ps[..i], IonKeyOf) && razorIons == RazorTable(ps[..i], IonKeyOf)
      invariant uniquePeptides == UniqueTable(ps[..i], SequenceOf) && razorPeptides == RazorTable(ps[..i], SequenceOf)
    {
      uniqueIons, razorIons, uniquePeptides, razorPeptides :=
        ScanProtein(ps[i].partHeader, ps[i].totalPeptideIons, uniqueIons, razorIons, uniquePeptides, razorPeptides);
      assert ps[..i + 1][..i] == ps[..i];
    }
    assert ps[..|ps|] == ps;
  }

  /** The inner loop of the scan: one protein's ions. */
  method ScanProtein(h: string, ions: seq<ProteinIon>, ui: set<IonForm>, ri: map<IonForm, string>, up: set<string>, rp: map<string, string>)
    returns (uniqueIons: set<IonForm>, razorIons: map<IonForm, string>, uniquePeptides: set<string>, razorPeptides: map<string, string>)
    ensures uniqueIons == ui + ProteinUnique(ions, IonKeyOf) && razorIons == ri + ProteinRazor(h, ions, IonKeyOf)
    ensures uniquePeptides == up + ProteinUnique(ions, SequenceOf) && razorPeptides == rp + ProteinRazor(h, ions, SequenceOf)
  {
    uniqueIons, razorIons, uniquePeptides, razorPeptides := ui, ri, up, rp;
    for n := 0 to |ions|
      invariant uniqueIons == ui + ProteinUnique(ions[..n], IonKeyOf) && razorIons == ri + ProteinRazor(h, ions[..n], IonKeyOf)
      invariant uniquePeptides == up + ProteinUnique(ions[..n], SequenceOf) && razorPeptides == rp + ProteinRazor(h, ions[..n], SequenceOf)
    {
      var j := ions[n];
      assert ions[..n + 1][..n] == ions[..n];
      if j.isUnique {
        uniqueIons := uniqueIons + {ProteinIonForm(j)};
        uniquePeptides := uniquePeptides + {j.sequence};
      }
      if j.isURazor {
        UnionUpdate(ri, ProteinRazor(h, ions[..n], IonKeyOf), ProteinIonForm(j), h);
        UnionUpdate(rp, ProteinRazor(h, ions[..n], SequenceOf), j.sequence, h);
        razorIons := razorIons[ProteinIonForm(j) := h];
        razorPeptides := razorPeptides[j.sequence := h];
      }
    }
    assert ions[..|ions|] == ions;
  }

  /** The PSM loop (updater.go:77-137), also collecting the peptides it adds to `uniquePeptides`. */
  method StatusPSMs(psm: seq<PSMEvidence>, razorIons: map<IonForm, string>, razorPeptides: map<string, string>, uniqueIons: set<IonForm>, tag: string)
    returns (psm': seq<PSMEvidence>, added: set<string>)
    ensures psm' == seq(|psm|, i requires 0 <= i < |psm| => PSMStatus(psm[i], razorIons, razorPeptides, uniqueIons, tag))
    ensures added == NotRazorPeptides(psm, razorIons)
  {
    psm' := psm;
    added := {};
    for i := 0 to |psm|
      invariant |psm'| == |psm|
      invariant forall k :: 0 <= k < i ==> psm'[k] == PSMStatus(psm[k], razorIons, razorPeptides, uniqueIons, tag)
      invariant forall k :: i <= k < |psm| ==> psm'[k] == psm[k]
      invariant added == NotRazorPeptides(psm[..i], razorIons)
    {
      var x := psm[i];
      assert psm[..i + 1][..i] == psm[..i];
      if !x.isURazor && PSMIonForm(x) !in razorIons {
        added := added + {x.peptide};
      }
      psm' := psm'[i := PSMStatus(x, razorIons, razorPeptides, uniqueIons, tag)];
    }
    assert psm[..|psm|] == psm;
  }

  lemma UnionUpdate<K, V>(a: map<K, V>, b: map<K, V>, k: K, v: V)
    ensures (a + b)[k := v] == a + b[k := v]
  {
    var l, r := (a + b)[k := v], a + b[k := v];
    assert forall x :: x in l <==> x in r;
    assert forall x :: x in l ==> l[x] == r[x];
  }

  /** The body of `UpdateIonStatus` on the evidence lists: the scan, then the three loops. */
  method UpdateStatus(e: EvidenceState, tag: string) returns (r: EvidenceState)
    ensures r == IonStatusSpec(e, tag)
  {
    var uniqueIons, razorIons, uniquePeptides, razorPeptides := ScanProteins(e.proteins);
    var psm, added := StatusPSMs(e.psm, razorIons, razorPeptides, uniqueIons, tag);
    uniquePeptides := uniquePeptides + added;
    var ions := Rewrite(e.ions, (x: IonEvidence) => IonStatus(x, razorIons, uniqueIons, tag));
    var peptides := Rewrite(e.peptides, (x: PeptideEvidence) => PeptideStatus(x, razorPeptides, uniquePeptides, tag));
    r := EvidenceState(psm, ions, peptides, e.proteins);
  }
}
