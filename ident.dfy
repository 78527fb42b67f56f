/**
 * The identification records the filter works on, reduced to the fields lib/fil/fil.go reads or
 * writes: peptide-spectrum matches from pepXML and protein groups from protXML.
 */
module Ident {
  import opened Seqs

  /** A peptide-spectrum match (one pepXML search hit). */
  datatype PepId = PepId(
    spectrum: string,
    peptide: string,
    charge: nat,
    mass: real,
    probability: real,
    protein: string,
    altProteins: seq<string>)

  /** Peptide ion identity of a protXML ion: sequence, charge and calculated neutral mass. */
  type IonKey = (string, nat, real)

  /**
   * Peptide ion identity of a PSM, the `%s#%d#%.4f` key of fil.go:407: sequence, assumed charge and
   * the calculated neutral mass as `massText` prints it with four decimals, so masses that print
   * alike fall into one ion.
   */
  type PsmIonKey = (string, nat, string)

  function IonOf(massText: real -> string): PepId -> PsmIonKey
  {
    (p: PepId) => (p.peptide, p.charge, massText(p.mass))
  }

  /** A peptide ion as listed under a protein in protXML. */
  datatype PeptideIon = PeptideIon(
    sequence: string,
    initialProbability: real,
    weight: real,
    groupWeight: real,
    charge: nat,
    mass: real,
    razor: int,
    isUnique: bool)

  /** A protein of a protein group. */
  datatype ProtId = ProtId(
    name: string,
    siblingId: string,
    probability: real,
    topPepProb: real,
    picked: int,
    hasRazor: bool,
    ions: seq<PeptideIon>)

  datatype ProteinGroup = ProteinGroup(number: int, proteins: seq<ProtId>)

  /** Every protein of every group, in group order. */
  function AllProteins(groups: seq<ProteinGroup>): seq<ProtId>
  {
    if groups == [] then []
    else AllProteins(groups[..|groups| - 1]) + groups[|groups| - 1].proteins
  }

  lemma {:induction false} AllProteinsMember(groups: seq<ProteinGroup>, x: ProtId)
    ensures x in AllProteins(groups) <==> exists i :: 0 <= i < |groups| && x in groups[i].proteins
  {
    if groups != [] {
      var init := groups[..|groups| - 1];
      AllProteinsMember(init, x);
      if x in AllProteins(groups) && x !in groups[|groups| - 1].proteins {
        var i :| 0 <= i < |init| && x in init[i].proteins;
        assert groups[i] == init[i];
      }
      if exists i :: 0 <= i < |groups| && x in groups[i].proteins {
        var i :| 0 <= i < |groups| && x in groups[i].proteins;
        if i < |init| {
          assert init[i] == groups[i];
        }
      }
    }
  }

  /** Only the proteins change: a group-wise rewrite of the proteins rewrites the flattened list the same way. */
  lemma {:induction false} AllProteinsMap(groups: seq<ProteinGroup>, groups': seq<ProteinGroup>, f: ProtId -> ProtId)
    requires |groups'| == |groups|
    requires forall i :: 0 <= i < |groups| ==> |groups'[i].proteins| == |groups[i].proteins|
    requires forall i, j :: 0 <= i < |groups| && 0 <= j < |groups[i].proteins| ==> groups'[i].proteins[j] == f(groups[i].proteins[j])
    ensures |AllProteins(groups')| == |AllProteins(groups)|
    ensures forall n :: 0 <= n < |AllProteins(groups)| ==> AllProteins(groups')[n] == f(AllProteins(groups)[n])
  {
    if groups != [] {
      var k := |groups| - 1;
      AllProteinsMap(groups[..k], groups'[..k], f);
      var a, b := AllProteins(groups[..k]), AllProteins(groups'[..k]);
      forall n | 0 <= n < |AllProteins(groups)| ensures AllProteins(groups')[n] == f(AllProteins(groups)[n]) {
        if n >= |a| {
          assert AllProteins(groups)[n] == groups[k].proteins[n - |a|];
        }
      }
    }
  }
}
