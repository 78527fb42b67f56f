/**
 * The count updates of lib/rep/updater.go: the spectra behind each peptide and ion
 * (`SyncPSMToPeptides`, `SyncPSMToPeptideIons`), the modified and unmodified observation counts
 * (`UpdatePeptideModCount`, `UpdateIonModCount`), and the number of enzymatic termini copied from
 * the protein inference output (`UpdateNumberOfEnzymaticTermini`).
 */
module EvidenceCounts {
  import opened Seqs
  import opened Strs
  import opened RepTypes
  import opened ProteinSync
  import opened RazorStatus

  /** The spectra of the target (non-decoy) PSMs whose key is `k`, in PSM order. */
  function TargetSpectra<K(==)>(psm: seq<PSMEvidence>, key: PSMEvidence -> K, k: K): seq<string>
  {
    if psm == [] then []
    else
      var x := psm[|psm| - 1];
      TargetSpectra(psm[..|psm| - 1], key, k) + (if !x.isDecoy && key(x) == k then [x.spectrum] else [])
  }

  /** How many target PSMs with key `k` matched spectrum `s`. */
  function TargetHits<K(==)>(psm: seq<PSMEvidence>, key: PSMEvidence -> K, k: K, s: string): nat
  {
    if psm == [] then 0
    else
      var x := psm[|psm| - 1];
      TargetHits(psm[..|psm| - 1], key, k, s) + (if !x.isDecoy && key(x) == k && x.spectrum == s then 1 else 0)
  }

  /** The spectrum counts of a peptide or ion: one per target PSM of that key and spectrum. */
  lemma {:induction false} TargetSpectraCount<K>(psm: seq<PSMEvidence>, key: PSMEvidence -> K, k: K, s: string)
    ensures multiset(TargetSpectra(psm, key, k))[s] == TargetHits(psm, key, k, s)
  {
    if psm != [] {
      TargetSpectraCount(psm[..|psm| - 1], key, k, s);
    }
  }

  /** A decoy PSM never contributes a spectrum. */
  lemma {:induction false} TargetSpectraNoDecoy<K>(psm: seq<PSMEvidence>, key: PSMEvidence -> K, k: K)
    ensures |TargetSpectra(psm, key, k)| == |Filter(psm, TargetOf(key, k))|
  {
    if psm != [] {
      TargetSpectraNoDecoy(psm[..|psm| - 1], key, k);
    }
  }

  function TargetOf<K(==)>(key: PSMEvidence -> K, k: K): PSMEvidence -> bool
  {
    (x: PSMEvidence) => !x.isDecoy && key(x) == k
  }

  /** The peptide step of `SyncPSMToPeptides` (updater.go:380-394). */
  function PeptideSpectra(p: PeptideEvidence, psm: seq<PSMEvidence>): PeptideEvidence
  {
    var v := TargetSpectra(psm, PeptideOf, p.sequence);
    p.(spc := |v|, spectra := multiset(v))
  }

  /** The ion step of `SyncPSMToPeptideIons` (updater.go:410-424). */
  function IonSpectra(x: IonEvidence, psm: seq<PSMEvidence>): IonEvidence
  {
    x.(spectra := multiset(TargetSpectra(psm, PSMIonForm, IonIonForm(x))))
  }

  /**
   * After `SyncPSMToPeptides` a peptide's spectral count is the number of target PSMs of its
   * sequence, and its spectra are those PSMs' spectra, with their multiplicities.
   */
  lemma PeptideSpectraCounts(p: PeptideEvidence, psm: seq<PSMEvidence>, s: string)
    ensures PeptideSpectra(p, psm).spc == |Filter(psm, TargetOf(PeptideOf, p.sequence))|
    ensures PeptideSpectra(p, psm).spectra[s] == TargetHits(psm, PeptideOf, p.sequence, s)
    ensures |PeptideSpectra(p, psm).spectra| == PeptideSpectra(p, psm).spc
  {
    TargetSpectraNoDecoy(psm, PeptideOf, p.sequence);
    TargetSpectraCount(psm, PeptideOf, p.sequence, s);
  }

  /** After `SyncPSMToPeptideIons` an ion's spectra are those of the target PSMs of its ion form. */
  lemma IonSpectraCounts(x: IonEvidence, psm: seq<PSMEvidence>, s: string)
    ensures IonSpectra(x, psm).spectra[s] == TargetHits(psm, PSMIonForm, IonIonForm(x), s)
    ensures |IonSpectra(x, psm).spectra| == |Filter(psm, TargetOf(PSMIonForm, IonIonForm(x)))|
  {
    TargetSpectraNoDecoy(psm, PSMIonForm, IonIonForm(x));
    TargetSpectraCount(psm, PSMIonForm, IonIonForm(x), s);
  }

  /** The PSM loop of both syncs: spectra of target PSMs, grouped by key. */
  method CollectTargetSpectra<K(==)>(psm: seq<PSMEvidence>, key: PSMEvidence -> K) returns (m: map<K, seq<string>>)
    ensures forall k :: Get(m, k) == TargetSpectra(psm, key, k)
  {
    m := map[];
    for i := 0 to |psm|
      invariant forall k :: Get(m, k) == TargetSpectra(psm[..i], key, k)
    {
      assert psm[..i + 1][..i] == psm[..i];
      var x := psm[i];
      if !x.isDecoy {
        m := m[key(x) := Get(m, key(x)) + [x.spectrum]];
      }
    }
    assert psm[..|psm|] == psm;
  }

  /** The mass-difference window inside which a PSM counts as unmodified (updater.go:208, 776). */
  predicate Unmodified(x: PSMEvidence)
  {
    -0.99 <= x.massdiff <= 0.99
  }

  /** How many PSMs with key `k` fall on the `modified` side of the window. */
  function ModCount<K(==)>(psm: seq<PSMEvidence>, key: PSMEvidence -> K, k: K, modified: bool): nat
  {
    if psm == [] then 0
    else
      var x := psm[|psm| - 1];
      ModCount(psm[..|psm| - 1], key, k, modified) + (if key(x) == k && Unmodified(x) != modified then 1 else 0)
  }

  function KeyIsOf<K(==)>(key: PSMEvidence -> K, k: K): PSMEvidence -> bool
  {
    (x: PSMEvidence) => key(x) == k
  }

  /** Every PSM of a key is counted exactly once: modified plus unmodified is the PSM count of that key. */
  lemma {:induction false} ModCountsSplit<K>(psm: seq<PSMEvidence>, key: PSMEvidence -> K, k: K)
    ensures ModCount(psm, key, k, true) + ModCount(psm, key, k, false) == |Filter(psm, KeyIsOf(key, k))|
  {
    if psm != [] {
      ModCountsSplit(psm[..|psm| - 1], key, k);
    }
  }

  /** The peptide step of `UpdatePeptideModCount` (updater.go:783-791). */
  function PeptideMods(p: PeptideEvidence, psm: seq<PSMEvidence>): (q: PeptideEvidence)
    ensures q.modifiedObservations + q.unModifiedObservations == |Filter(psm, KeyIsOf(PeptideOf, p.sequence))|
  {
    ModCountsSplit(psm, PeptideOf, p.sequence);
    p.(unModifiedObservations := ModCount(psm, PeptideOf, p.sequence, false),
       modifiedObservations := ModCount(psm, PeptideOf, p.sequence, true))
  }

  /**
   * The counting loops of `UpdatePeptideModCount` and `UpdateIonModCount` (updater.go:193-220,
   * 761-781): a zero count for every listed key, then one more per PSM of a listed key, on the side
   * of the window its mass difference falls.
   */
  method CountModifications<K(==)>(keys: seq<K>, psm: seq<PSMEvidence>, key: PSMEvidence -> K)
    returns (mod: map<K, nat>, unmod: map<K, nat>)
    ensures mod.Keys == unmod.Keys == (set k | k in keys)
    ensures forall k :: k in mod ==> mod[k] == ModCount(psm, key, k, true) && unmod[k] == ModCount(psm, key, k, false)
  {
    var all;
    all, mod, unmod := ZeroCounts(keys);
    for i := 0 to |psm|
      invariant mod.Keys == unmod.Keys == all
      invariant forall k :: k in mod ==> mod[k] == ModCount(psm[..i], key, k, true) && unmod[k] == ModCount(psm[..i], key, k, false)
    {
      assert psm[..i + 1][..i] == psm[..i];
      var x := psm[i];
      if key(x) in all {
        if -0.99 <= x.massdiff <= 0.99 {
          unmod := unmod[key(x) := unmod[key(x)] + 1];
        } else {
          mod := mod[key(x) := mod[key(x)] + 1];
        }
      }
    }
    assert psm[..|psm|] == psm;
  }

  /** The key set and the two zero-filled count maps of the counting loops. */
  method ZeroCounts<K(==)>(keys: seq<K>) returns (all: set<K>, mod: map<K, nat>, unmod: map<K, nat>)
    ensures all == mod.Keys == unmod.Keys == (set k | k in keys)
    ensures forall k :: k in mod ==> mod[k] == 0 && unmod[k] == 0
  {
    all := {};
    mod, unmod := map[], map[];
    for i := 0 to |keys|
      invariant all == mod.Keys == unmod.Keys == (set k | k in keys[..i])
      invariant forall k :: k in mod ==> mod[k] == 0 && unmod[k] == 0
    {
      assert forall k :: k in keys[..i + 1] <==> k in keys[..i] || k == keys[i];
      all := all + {keys[i]};
      mod, unmod := mod[keys[i] := 0], unmod[keys[i] := 0];
    }
    assert keys[..|keys|] == keys;
  }

  /** A peptide ion of the protein inference output, with its number of enzymatic termini. */
  datatype NttIon = NttIon(peptideSequence: string, ntt: nat)

  /** A protein of the protein inference output. */
  datatype NttProtein = NttProtein(proteinName: string, ions: seq<NttIon>)

  /** One protein's (peptide, protein) pairs; a later ion overwrites an earlier one. */
  function ProteinNtt(name: string, ions: seq<NttIon>): map<(string, string), nat>
  {
    if ions == [] then map[]
    else
      var j := ions[|ions| - 1];
      ProteinNtt(name, ions[..|ions| - 1])[(j.peptideSequence, name) := j.ntt]
  }

  /** The pair table of `UpdateNumberOfEnzymaticTermini`: decoy-named proteins are skipped. */
  function NttTable(p: seq<NttProtein>, tag: string): map<(string, string), nat>
  {
    if p == [] then map[]
    else
      var last := p[|p| - 1];
      NttTable(p[..|p| - 1], tag) + (if Contains(last.proteinName, tag) then map[] else ProteinNtt(last.proteinName, last.ions))
  }

  /** Ion `j` of protein `i` is a non-decoy listing of the pair `key`. */
  ghost predicate ListsPair(p: seq<NttProtein>, tag: string, i: int, j: int, key: (string, string))
  {
    0 <= i < |p| && 0 <= j < |p[i].ions| && !Contains(p[i].proteinName, tag)
    && (p[i].ions[j].peptideSequence, p[i].proteinName) == key
  }

  lemma {:induction false} ProteinNttMember(name: string, ions: seq<NttIon>, key: (string, string)) returns (j: nat)
    ensures key in ProteinNtt(name, ions) <==> exists j' :: 0 <= j' < |ions| && (ions[j'].peptideSequence, name) == key
    ensures key in ProteinNtt(name, ions) ==>
      && j < |ions| && (ions[j].peptideSequence, name) == key && ProteinNtt(name, ions)[key] == ions[j].ntt
      && forall j' :: j < j' < |ions| ==> (ions[j'].peptideSequence, name) != key
  {
    j := 0;
    if ions != [] {
      var init := ions[..|ions| - 1];
      j := ProteinNttMember(name, init, key);
      var last := ions[|ions| - 1];
      if (last.peptideSequence, name) == key {
        j := |ions| - 1;
      } else {
        forall j' | 0 <= j' < |init| ensures init[j'] == ions[j'] { }
      }
    }
  }

  /**
   * A pair is in the table exactly when a protein whose name lacks the decoy tag lists it, and its
   * value is the NTT of the last such listing: no later protein lists the pair, nor a later ion of
   * the same protein.
   */
  lemma {:induction false} NttTableMember(p: seq<NttProtein>, tag: string, key: (string, string)) returns (i: nat, j: nat)
    ensures key in NttTable(p, tag) <==> exists i', j' :: ListsPair(p, tag, i', j', key)
    ensures key in NttTable(p, tag) ==>
      && ListsPair(p, tag, i, j, key) && NttTable(p, tag)[key] == p[i].ions[j].ntt
      && (forall j' :: j < j' < |p[i].ions| ==> !ListsPair(p, tag, i, j', key))
      && (forall i', j' :: i < i' < |p| ==> !ListsPair(p, tag, i', j', key))
  {
    i, j := 0, 0;
    if p != [] {
      var init := p[..|p| - 1];
      var n := |p| - 1;
      i, j := NttTableMember(init, tag, key);
      var jl := ProteinNttMember(p[n].proteinName, p[n].ions, key);
      assert forall i', j' :: ListsPair(init, tag, i', j', key) <==> 0 <= i' < n && ListsPair(p, tag, i', j', key);
      if !Contains(p[n].proteinName, tag) && key in ProteinNtt(p[n].proteinName, p[n].ions) {
        i, j := n, jl;
        assert ListsPair(p, tag, i, j, key);
      } else if key in NttTable(p, tag) {
        assert key in NttTable(init, tag);
        var i', j' :| ListsPair(init, tag, i', j', key);
        assert ListsPair(p, tag, i', j', key);
      }
      if exists i', j' :: ListsPair(p, tag, i', j', key) {
        var i', j' :| ListsPair(p, tag, i', j', key);
        if i' == n {
          assert key in ProteinNtt(p[n].proteinName, p[n].ions);
        }
      }
    }
  }

  /** The PSM step (updater.go:46-50): a listed (peptide, protein) pair gives the PSM its NTT. */
  function PSMNtt(x: PSMEvidence, table: map<(string, string), nat>): PSMEvidence
  {
    if (x.peptide, x.protein) in table then x.(ntt := table[(x.peptide, x.protein)]) else x
  }

  /**
   * A PSM takes the NTT of the last non-decoy listing of its (peptide, protein) pair, and keeps its
   * own when there is none.
   */
  lemma PSMNttFromTable(p: seq<NttProtein>, tag: string, x: PSMEvidence) returns (i: nat, j: nat)
    ensures var y, key := PSMNtt(x, NttTable(p, tag)), (x.peptide, x.protein);
      && y == x.(ntt := y.ntt)
      && ((exists i', j' :: ListsPair(p, tag, i', j', key)) ==>
            && ListsPair(p, tag, i, j, key) && y.ntt == p[i].ions[j].ntt
            && (forall j' :: j < j' < |p[i].ions| ==> !ListsPair(p, tag, i, j', key))
            && (forall i', j' :: i < i' < |p| ==> !ListsPair(p, tag, i', j', key)))
      && (!(exists i', j' :: ListsPair(p, tag, i', j', key)) ==> y == x)
  {
    i, j := NttTableMember(p, tag, (x.peptide, x.protein));
  }

  /** The table loops (updater.go:38-44). */
  method BuildNttTable(p: seq<NttProtein>, tag: string) returns (table: map<(string, string), nat>)
    ensures table == NttTable(p, tag)
  {
    table := map[];
    for i := 0 to |p|
      invariant table == NttTable(p[..i], tag)
    {
      assert p[..i + 1][..i] == p[..i];
      table := AddProteinNtt(table, p[i], tag);
    }
    assert p[..|p|] == p;
  }

  method AddProteinNtt(t: map<(string, string), nat>, prot: NttProtein, tag: string) returns (table: map<(string, string), nat>)
    ensures table == t + (if Contains(prot.proteinName, tag) then map[] else ProteinNtt(prot.proteinName, prot.ions))
  {
    table := t;
    for n := 0 to |prot.ions|
      invariant table == t + (if Contains(prot.proteinName, tag) then map[] else ProteinNtt(prot.proteinName, prot.ions[..n]))
    {
      var j := prot.ions[n];
      assert prot.ions[..n + 1][..n] == prot.ions[..n];
      if !Contains(prot.proteinName, tag) {
        UnionUpdate(t, ProteinNtt(prot.proteinName, prot.ions[..n]), (j.peptideSequence, prot.proteinName), j.ntt);
        table := table[(j.peptideSequence, prot.proteinName) := j.ntt];
      }
    }
    assert prot.ions[..|prot.ions|] == prot.ions;
  }

  /** The peptide loop of `SyncPSMToPeptides` (updater.go:380-394). */
  method SyncPeptides(peptides: seq<PeptideEvidence>, psm: seq<PSMEvidence>) returns (r: seq<PeptideEvidence>)
    ensures |r| == |peptides| && forall i :: 0 <= i < |r| ==> r[i] == PeptideSpectra(peptides[i], psm)
  {
    var spectra := CollectTargetSpectra(psm, PeptideOf);
    r := peptides;
    for i := 0 to |peptides|
      invariant |r| == |peptides|
      invariant forall k :: 0 <= k < i ==> r[k] == PeptideSpectra(peptides[k], psm)
      invariant forall k :: i <= k < |r| ==> r[k] == peptides[k]
    {
      var v := Get(spectra, r[i].sequence);
      var counts := Tally(v);
      r := r[i := r[i].(spc := |v|, spectra := counts)];
    }
  }

  /** The ion loop of `SyncPSMToPeptideIons` (updater.go:410-424). */
  method SyncIons(ions: seq<IonEvidence>, psm: seq<PSMEvidence>) returns (r: seq<IonEvidence>)
    ensures |r| == |ions| && forall i :: 0 <= i < |r| ==> r[i] == IonSpectra(ions[i], psm)
  {
    var spectra := CollectTargetSpectra(psm, PSMIonForm);
    r := ions;
    for i := 0 to |ions|
      invariant |r| == |ions|
      invariant forall k :: 0 <= k < i ==> r[k] == IonSpectra(ions[k], psm)
      invariant forall k :: i <= k < |r| ==> r[k] == ions[k]
    {
      var ion := ions[i];
      var listed := Get(spectra, IonIonForm(ion));
      assert listed == TargetSpectra(psm, PSMIonForm, IonIonForm(ion));
      var counts := Tally(listed);
      r := r[i := ion.(spectra := counts)];
    }
  }

  /** `UpdatePeptideModCount` on the lists (updater.go:757-791). */
  method PeptideModCounts(peptides: seq<PeptideEvidence>, psm: seq<PSMEvidence>) returns (r: seq<PeptideEvidence>)
    ensures |r| == |peptides| && forall i :: 0 <= i < |r| ==> r[i] == PeptideMods(peptides[i], psm)
  {
    var keys := seq(|peptides|, i requires 0 <= i < |peptides| => peptides[i].sequence);
    var mod, unmod := CountModifications(keys, psm, PeptideOf);
    r := peptides;
    for i := 0 to |peptides|
      invariant |r| == |peptides|
      invariant forall k :: 0 <= k < i ==> r[k] == PeptideMods(peptides[k], psm)
      invariant forall k :: i <= k < |r| ==> r[k] == peptides[k]
    {
      var s := r[i].sequence;
      assert keys[i] == s;
      if s in unmod {
        r := r[i := r[i].(unModifiedObservations := unmod[s])];
      }
      if s in mod {
        r := r[i := r[i].(modifiedObservations := mod[s])];
      }
    }
  }
}
