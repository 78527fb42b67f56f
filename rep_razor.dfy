/**
 * `ApplyRazorAssignment` (lib/rep/updater.go:840-945): applies a stored razor assignment, a map
 * from peptide sequence to the protein chosen as its razor protein (empty when none was chosen),
 * to every PSM, ion and peptide, then marks as decoy whatever now belongs to a decoy protein. The
 * map is read from disk by the source; here it is a parameter.
 */
module RazorAssignment {
  import opened Strs
  import opened RepTypes
  import opened RazorStatus

  function Count(m: map<string, int>, k: string): int
  {
    if k in m then m[k] else 0
  }

  /** The PSM step (updater.go:846-885). */
  function AssignPSM(x: PSMEvidence, razor: map<string, string>, tag: string): (y: PSMEvidence)
    ensures x.peptide in razor ==> (y.isURazor <==> razor[x.peptide] != "")
    ensures x.peptide in razor && razor[x.peptide] != "" ==> y.protein == razor[x.peptide] && y.protein !in y.mappedProteins
    ensures x.peptide !in razor || razor[x.peptide] == "" ==> y.protein == x.protein && y.mappedProteins == x.mappedProteins
    ensures x.peptide !in razor ==> y == x.(isDecoy := y.isDecoy)
    ensures y.isDecoy <==> x.isDecoy || HasPrefix(y.protein, tag)
  {
    var y :=
      if x.peptide in razor then
        var mp := razor[x.peptide];
        var u := if x.isUnique then x.(isURazor := true) else x;
        if mp == "" then u.(isURazor := false) else MovePSM(u, mp)
      else x;
    if HasPrefix(y.protein, tag) then y.(isDecoy := true) else y
  }

  /** The ion step (updater.go:887-914). */
  function AssignIon(x: IonEvidence, razor: map<string, string>, tag: string): (y: IonEvidence)
    ensures x.sequence in razor ==> (y.isURazor <==> razor[x.sequence] != "")
    ensures x.sequence in razor && razor[x.sequence] != "" ==>
      && y.protein == razor[x.sequence] && y.protein !in y.mappedProteins
      && (x.protein != y.protein ==> Count(y.mappedProteins, x.protein) == Count(x.mappedProteins, x.protein) + 1)
    ensures x.sequence !in razor ==> y == x.(isDecoy := y.isDecoy)
    ensures y.isDecoy <==> x.isDecoy || HasPrefix(y.protein, tag)
  {
    var y :=
      if x.sequence in razor then
        var mp := razor[x.sequence];
        var u := if x.isUnique then x.(isURazor := true) else x;
        if mp == "" then u.(isURazor := false)
        else u.(isURazor := true, mappedProteins := u.mappedProteins[u.protein := Count(u.mappedProteins, u.protein) + 1] - {mp}, protein := mp)
      else x;
    if HasPrefix(y.protein, tag) then y.(isDecoy := true) else y
  }

  /** The peptide step (updater.go:916-943). */
  function AssignPeptide(x: PeptideEvidence, razor: map<string, string>, tag: string): (y: PeptideEvidence)
    ensures x.sequence in razor ==> (y.isURazor <==> razor[x.sequence] != "")
    ensures x.sequence in razor && razor[x.sequence] != "" ==>
      && y.protein == razor[x.sequence] && y.protein !in y.mappedProteins
      && (x.protein != y.protein ==> Count(y.mappedProteins, x.protein) == Count(x.mappedProteins, x.protein) + 1)
    ensures x.sequence !in razor ==> y == x.(isDecoy := y.isDecoy)
    ensures y.isDecoy <==> x.isDecoy || HasPrefix(y.protein, tag)
  {
    var y :=
      if x.sequence in razor then
        var mp := razor[x.sequence];
        var u := if x.isUnique then x.(isURazor := true) else x;
        if mp == "" then u.(isURazor := false)
        else u.(isURazor := true, mappedProteins := u.mappedProteins[u.protein := Count(u.mappedProteins, u.protein) + 1] - {mp}, protein := mp)
      else x;
    if HasPrefix(y.protein, tag) then y.(isDecoy := true) else y
  }

  /** The evidence after `ApplyRazorAssignment`. */
  function RazorSpec(e: EvidenceState, razor: map<string, string>, tag: string): EvidenceState
  {
    EvidenceState(
      seq(|e.psm|, i requires 0 <= i < |e.psm| => AssignPSM(e.psm[i], razor, tag)),
      seq(|e.ions|, i requires 0 <= i < |e.ions| => AssignIon(e.ions[i], razor, tag)),
      seq(|e.peptides|, i requires 0 <= i < |e.peptides| => AssignPeptide(e.peptides[i], razor, tag)),
      e.proteins)
  }

  /** A move keeps the flanks free of the separator: they come from split fields or stay as they were. */
  lemma MoveKeepsClean(x: PSMEvidence, target: string)
    requires NoHash(x.prevAA) && NoHash(x.nextAA)
    ensures NoHash(MovePSM(x, target).prevAA) && NoHash(MovePSM(x, target).nextAA)
  {
    var mp := x.mappedProteins[x.protein := Flanks(x)];
    SplitPartsClean(if target in mp then mp[target] else "", '#');
  }

  /** Moving a razor PSM onto the protein it already has changes nothing. */
  lemma MoveInPlace(y: PSMEvidence)
    requires y.isURazor && y.protein !in y.mappedProteins && NoHash(y.prevAA) && NoHash(y.nextAA)
    ensures MovePSM(y, y.protein) == y
  {
    SplitPair(y.prevAA, y.nextAA, '#');
    var m := y.mappedProteins[y.protein := Flanks(y)] - {y.protein};
    assert forall k :: k in m <==> k in y.mappedProteins;
    assert m == y.mappedProteins;
  }

  lemma AssignPSMTwice(x: PSMEvidence, razor: map<string, string>, tag: string)
    requires NoHash(x.prevAA) && NoHash(x.nextAA)
    ensures AssignPSM(AssignPSM(x, razor, tag), razor, tag) == AssignPSM(x, razor, tag)
  {
    if x.peptide in razor && razor[x.peptide] != "" {
      var u := if x.isUnique then x.(isURazor := true) else x;
      var m := MovePSM(u, razor[x.peptide]);
      MoveKeepsClean(u, razor[x.peptide]);
      var y := AssignPSM(x, razor, tag);
      assert y == m || y == m.(isDecoy := true);
      MoveInPlace(y);
    }
  }

  lemma AssignIonTwice(x: IonEvidence, razor: map<string, string>, tag: string)
    ensures AssignIon(AssignIon(x, razor, tag), razor, tag) == AssignIon(x, razor, tag)
  {
    var y := AssignIon(x, razor, tag);
    if x.sequence in razor && razor[x.sequence] != "" {
      var m := y.mappedProteins[y.protein := Count(y.mappedProteins, y.protein) + 1] - {y.protein};
      assert forall k :: k in m <==> k in y.mappedProteins;
      assert m == y.mappedProteins;
    }
  }

  lemma AssignPeptideTwice(x: PeptideEvidence, razor: map<string, string>, tag: string)
    ensures AssignPeptide(AssignPeptide(x, razor, tag), razor, tag) == AssignPeptide(x, razor, tag)
  {
    var y := AssignPeptide(x, razor, tag);
    if x.sequence in razor && razor[x.sequence] != "" {
      var m := y.mappedProteins[y.protein := Count(y.mappedProteins, y.protein) + 1] - {y.protein};
      assert forall k :: k in m <==> k in y.mappedProteins;
      assert m == y.mappedProteins;
    }
  }

  /**
   * Applying the same razor assignment twice is the same as applying it once, provided no PSM's
   * flanks hold the `#` separator the protein records are split on.
   */
  lemma RazorIdempotent(e: EvidenceState, razor: map<string, string>, tag: string)
    requires forall x :: x in e.psm ==> NoHash(x.prevAA) && NoHash(x.nextAA)
    ensures RazorSpec(RazorSpec(e, razor, tag), razor, tag) == RazorSpec(e, razor, tag)
  {
    var r := RazorSpec(e, razor, tag);
    forall i | 0 <= i < |e.psm| ensures AssignPSM(r.psm[i], razor, tag) == r.psm[i] {
      AssignPSMTwice(e.psm[i], razor, tag);
    }
    forall i | 0 <= i < |e.ions| ensures AssignIon(r.ions[i], razor, tag) == r.ions[i] {
      AssignIonTwice(e.ions[i], razor, tag);
    }
    forall i | 0 <= i < |e.peptides| ensures AssignPeptide(r.peptides[i], razor, tag) == r.peptides[i] {
      AssignPeptideTwice(e.peptides[i], razor, tag);
    }
  }
}
