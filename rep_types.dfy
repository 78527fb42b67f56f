/**
 * The evidence records lib/rep/updater.go works on, reduced to the fields it reads or writes. The
 * `Evidence` value holds four parallel lists: PSMs, peptide ions, peptides and proteins.
 */
module RepTypes {

  /** Ion form: peptide sequence, assumed charge and calculated neutral mass. */
  type IonForm = (string, nat, real)

  datatype PSMEvidence = PSMEvidence(
    spectrum: string,
    peptide: string,
    charge: nat,
    mass: real,
    massdiff: real,
    protein: string,
    mappedProteins: map<string, string>,
    prevAA: string,
    nextAA: string,
    isUnique: bool,
    isURazor: bool,
    isDecoy: bool,
    ntt: nat)

  datatype IonEvidence = IonEvidence(
    sequence: string,
    charge: nat,
    mass: real,
    protein: string,
    mappedProteins: map<string, int>,
    isUnique: bool,
    isURazor: bool,
    isDecoy: bool,
    spectra: multiset<string>)

  datatype PeptideEvidence = PeptideEvidence(
    sequence: string,
    protein: string,
    mappedProteins: map<string, int>,
    isUnique: bool,
    isURazor: bool,
    isDecoy: bool,
    spc: nat,
    spectra: multiset<string>,
    modifiedObservations: nat,
    unModifiedObservations: nat)

  /** A peptide ion as listed under a protein (`TotalPeptideIons`). */
  datatype ProteinIon = ProteinIon(sequence: string, charge: nat, mass: real, isUnique: bool, isURazor: bool)

  /**
   * A protein. The three peptide maps are sets: they are filled from de-duplicated lists, so every
   * count in them is 1. `SupportingSpectra` counts copies, so it is a multiset.
   */
  datatype ProteinEvidence = ProteinEvidence(
    partHeader: string,
    supportingSpectra: multiset<string>,
    totalSpC: nat,
    uniqueSpC: nat,
    uRazorSpC: nat,
    totalPeptides: set<string>,
    uniquePeptides: set<string>,
    uRazorPeptides: set<string>,
    totalPeptideIons: seq<ProteinIon>)

  /** The four lists of an `Evidence`, as one value. */
  datatype EvidenceState = EvidenceState(
    psm: seq<PSMEvidence>,
    ions: seq<IonEvidence>,
    peptides: seq<PeptideEvidence>,
    proteins: seq<ProteinEvidence>)

  function PSMIonForm(x: PSMEvidence): IonForm { (x.peptide, x.charge, x.mass) }
  function IonIonForm(x: IonEvidence): IonForm { (x.sequence, x.charge, x.mass) }
  function ProteinIonForm(x: ProteinIon): IonForm { (x.sequence, x.charge, x.mass) }
}
