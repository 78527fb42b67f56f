/**
 * The `Evidence` report object of lib/rep and the update methods of lib/rep/updater.go that
 * rewrite its lists in place. Each method is proved against the specification function of its
 * module, whose properties are proved there.
 */
module Updater {
  import opened Seqs
  import opened RepTypes
  import opened InPlace
  import opened ProteinSync
  import opened RazorStatus
  import opened RazorAssignment
  import opened EvidenceCounts

  class Evidence {
    var psm: seq<PSMEvidence>
    var ions: seq<IonEvidence>
    var peptides: seq<PeptideEvidence>
    var proteins: seq<ProteinEvidence>

    function State(): EvidenceState
      reads this
    {
      EvidenceState(psm, ions, peptides, proteins)
    }

    constructor (e: EvidenceState)
      ensures State() == e
    {
      psm, ions, peptides, proteins := e.psm, e.ions, e.peptides, e.proteins;
    }

    /** updater.go:26-51; the protein inference output `p` is read from disk by the source. */
    method UpdateNumberOfEnzymaticTermini(tag: string, p: seq<NttProtein>)
      modifies this
      ensures |psm| == |old(psm)| && forall i :: 0 <= i < |psm| ==> psm[i] == PSMNtt(old(psm)[i], NttTable(p, tag))
      ensures ions == old(ions) && peptides == old(peptides) && proteins == old(proteins)
    {
      var table := BuildNttTable(p, tag);
      psm := Rewrite(psm, (x: PSMEvidence) => PSMNtt(x, table));
    }

    /** updater.go:55-187, with the flank recovery of `MovePSM`. */
    method UpdateIonStatus(tag: string)
      modifies this
      ensures State() == IonStatusSpec(old(State()), tag)
    {
      var r := UpdateStatus(State(), tag);
      psm, ions, peptides := r.psm, r.ions, r.peptides;
    }

    /**
     * updater.go:190-221. The source fills these counts into local maps only and drops them, so
     * the evidence is unchanged; the counts are returned here so that they can be stated.
     */
    method UpdateIonModCount() returns (mod: map<IonForm, nat>, unmod: map<IonForm, nat>)
      ensures mod.Keys == unmod.Keys == (set x | x in ions :: IonIonForm(x))
      ensures forall k :: k in mod ==> mod[k] == ModCount(psm, PSMIonForm, k, true) && unmod[k] == ModCount(psm, PSMIonForm, k, false)
    {
      var list := ions;
      var keys := seq(|list|, i requires 0 <= i < |list| => IonIonForm(list[i]));
      mod, unmod := CountModifications(keys, psm, PSMIonForm);
      forall k | k in mod ensures exists x :: x in ions && IonIonForm(x) == k {
        var i :| 0 <= i < |keys| && keys[i] == k;
        assert list[i] in ions;
      }
      forall x | x in ions ensures IonIonForm(x) in mod {
        var i :| 0 <= i < |list| && list[i] == x;
        assert keys[i] == IonIonForm(x);
      }
    }

    /** updater.go:757-791. */
    method UpdatePeptideModCount()
      modifies this
      ensures |peptides| == |old(peptides)| && forall i :: 0 <= i < |peptides| ==> peptides[i] == PeptideMods(old(peptides)[i], psm)
      ensures psm == old(psm) && ions == old(ions) && proteins == old(proteins)
    {
      peptides := PeptideModCounts(peptides, psm);
    }

    /** updater.go:224-367. */
    method SyncPSMToProteins()
      modifies this
      ensures State() == SyncSpec(old(State()))
    {
      var support := BuildSupport(psm);
      var restated := RestatProteins(proteins, support, psm);
      var index;
      proteins, index := KeepSupported(restated);
      psm := Compact(psm, PSMIn(index));
      ions := Compact(ions, IonIn(index));
      peptides := Compact(peptides, PeptideIn(index));
    }

    /**
     * updater.go:371-398. The source takes the evidence by value and returns it, but the copy
     * shares the peptide list with the caller's, so the update lands in place.
     */
    method SyncPSMToPeptides()
      modifies this
      ensures |peptides| == |old(peptides)| && forall i :: 0 <= i < |peptides| ==> peptides[i] == PeptideSpectra(old(peptides)[i], psm)
      ensures psm == old(psm) && ions == old(ions) && proteins == old(proteins)
    {
      peptides := SyncPeptides(peptides, psm);
    }

    /** updater.go:401-427, in place for the same reason. */
    method SyncPSMToPeptideIons()
      modifies this
      ensures |ions| == |old(ions)| && forall i :: 0 <= i < |ions| ==> ions[i] == IonSpectra(old(ions)[i], psm)
      ensures psm == old(psm) && peptides == old(peptides) && proteins == old(proteins)
    {
      ions := SyncIons(ions, psm);
    }

    /** updater.go:841-945; the stored razor assignment `razor` is read from disk by the source. */
    method ApplyRazorAssignment(tag: string, razor: map<string, string>)
      modifies this
      ensures State() == RazorSpec(old(State()), razor, tag)
    {
      psm := Rewrite(psm, (x: PSMEvidence) => AssignPSM(x, razor, tag));
      ions := Rewrite(ions, (x: IonEvidence) => AssignIon(x, razor, tag));
      peptides := Rewrite(peptides, (x: PeptideEvidence) => AssignPeptide(x, razor, tag));
    }
  }
}
