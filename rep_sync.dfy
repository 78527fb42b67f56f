/**
 * `SyncPSMToProteins` (lib/rep/updater.go:224-367): files every PSM's spectrum and peptide under
 * its primary protein and under each of its mapped proteins, rebuilds each protein's spectral
 * counts and peptide sets from those lists, drops the proteins left without a supporting spectrum,
 * and then drops every PSM, ion and peptide whose primary protein was dropped.
 */
module ProteinSync {
  import opened Seqs
  import opened RepTypes
  import opened InPlace

  function SpectrumOf(x: PSMEvidence): string { x.spectrum }
  function PeptideOf(x: PSMEvidence): string { x.peptide }
  function IsUnique(x: PSMEvidence): bool { x.isUnique }
  function IsURazor(x: PSMEvidence): bool { x.isURazor }

  /** How often a PSM is filed under `h`: once as its primary protein, once more as a mapped one. */
  function Incidences(x: PSMEvidence, h: string): nat
  {
    (if x.protein == h then 1 else 0) + (if h in x.mappedProteins then 1 else 0)
  }

  function Repeat(v: string, n: nat): (r: seq<string>)
    ensures |r| == n && forall i :: 0 <= i < n ==> r[i] == v
  {
    seq(n, _ => v)
  }

  /** The list `totalSpc[h]` (with `SpectrumOf`) or `totalPeptides[h]` (with `PeptideOf`). */
  function TotalList(psm: seq<PSMEvidence>, h: string, val: PSMEvidence -> string): seq<string>
  {
    if psm == [] then []
    else
      var x := psm[|psm| - 1];
      TotalList(psm[..|psm| - 1], h, val) + Repeat(val(x), Incidences(x, h))
  }

  /** The list `uniqueSpc[h]`, `razorSpc[h]` and their peptide counterparts: primary protein only. */
  function FlaggedList(psm: seq<PSMEvidence>, h: string, flag: PSMEvidence -> bool, val: PSMEvidence -> string): seq<string>
  {
    if psm == [] then []
    else
      var x := psm[|psm| - 1];
      FlaggedList(psm[..|psm| - 1], h, flag, val) + (if flag(x) && x.protein == h then [val(x)] else [])
  }

  function Elems(s: seq<string>): set<string>
  {
    set v | v in s
  }

  /** A protein with every statistic rebuilt from `psm`; its header and ion list are kept. */
  function Restat(p: ProteinEvidence, psm: seq<PSMEvidence>): ProteinEvidence
  {
    var h := p.partHeader;
    var total := TotalList(psm, h, SpectrumOf);
    p.(supportingSpectra := multiset(total),
       totalSpC := |total|,
       uniqueSpC := |FlaggedList(psm, h, IsUnique, SpectrumOf)|,
       uRazorSpC := |FlaggedList(psm, h, IsURazor, SpectrumOf)|,
       totalPeptides := Elems(TotalList(psm, h, PeptideOf)),
       uniquePeptides := Elems(FlaggedList(psm, h, IsUnique, PeptideOf)),
       uRazorPeptides := Elems(FlaggedList(psm, h, IsURazor, PeptideOf)))
  }

  function Supported(p: ProteinEvidence): bool
  {
    |p.supportingSpectra| > 0
  }

  function HeaderOf(p: ProteinEvidence): string { p.partHeader }

  function Headers(ps: seq<ProteinEvidence>): set<string>
  {
    KeySet(ps, HeaderOf)
  }

  function PSMIn(index: set<string>): PSMEvidence -> bool { (x: PSMEvidence) => x.protein in index }
  function IonIn(index: set<string>): IonEvidence -> bool { (x: IonEvidence) => x.protein in index }
  function PeptideIn(index: set<string>): PeptideEvidence -> bool { (x: PeptideEvidence) => x.protein in index }

  function RestatAll(ps: seq<ProteinEvidence>, psm: seq<PSMEvidence>): seq<ProteinEvidence>
  {
    seq(|ps|, i requires 0 <= i < |ps| => Restat(ps[i], psm))
  }

  /** The evidence after `SyncPSMToProteins`. */
  function SyncSpec(e: EvidenceState): EvidenceState
  {
    var kept := Filter(RestatAll(e.proteins, e.psm), Supported);
    var index := Headers(kept);
    EvidenceState(Filter(e.psm, PSMIn(index)), Filter(e.ions, IonIn(index)), Filter(e.peptides, PeptideIn(index)), kept)
  }

  function OnProtein(h: string): PSMEvidence -> bool { (x: PSMEvidence) => x.protein == h }
  function MapsTo(h: string): PSMEvidence -> bool { (x: PSMEvidence) => h in x.mappedProteins }
  function FlaggedOn(flag: PSMEvidence -> bool, h: string): PSMEvidence -> bool { (x: PSMEvidence) => flag(x) && x.protein == h }

  /** Some PSM is filed under `h`, as primary or as mapped protein. */
  ghost predicate Filed(psm: seq<PSMEvidence>, h: string)
  {
    exists k :: 0 <= k < |psm| && Incidences(psm[k], h) > 0
  }

  /** `totalSpc[h]` / `totalPeptides[h]` hold exactly the values of the PSMs filed under `h`. */
  lemma {:induction false} TotalListMember(psm: seq<PSMEvidence>, h: string, val: PSMEvidence -> string, v: string)
    ensures v in TotalList(psm, h, val) <==> exists i :: 0 <= i < |psm| && Incidences(psm[i], h) > 0 && val(psm[i]) == v
  {
    if psm != [] {
      var init := psm[..|psm| - 1];
      TotalListMember(init, h, val, v);
      if exists i :: 0 <= i < |psm| && Incidences(psm[i], h) > 0 && val(psm[i]) == v {
        var i :| 0 <= i < |psm| && Incidences(psm[i], h) > 0 && val(psm[i]) == v;
        if i < |init| {
          assert init[i] == psm[i];
        } else {
          assert Repeat(v, Incidences(psm[i], h))[0] == v;
        }
      }
    }
  }

  /** `TotalSpC`: one per PSM whose primary protein is `h`, plus one per PSM that maps to `h`. */
  lemma {:induction false} TotalListCount(psm: seq<PSMEvidence>, h: string, val: PSMEvidence -> string)
    ensures |TotalList(psm, h, val)| == |Filter(psm, OnProtein(h))| + |Filter(psm, MapsTo(h))|
  {
    if psm != [] {
      TotalListCount(psm[..|psm| - 1], h, val);
    }
  }

  /** `uniqueSpc[h]` and `razorSpc[h]` (and the peptide lists): the flagged PSMs whose primary protein is `h`. */
  lemma {:induction false} FlaggedListMember(psm: seq<PSMEvidence>, h: string, flag: PSMEvidence -> bool, val: PSMEvidence -> string, v: string)
    ensures v in FlaggedList(psm, h, flag, val) <==> exists i :: 0 <= i < |psm| && flag(psm[i]) && psm[i].protein == h && val(psm[i]) == v
  {
    if psm != [] {
      var init := psm[..|psm| - 1];
      FlaggedListMember(init, h, flag, val, v);
      if exists i :: 0 <= i < |psm| && flag(psm[i]) && psm[i].protein == h && val(psm[i]) == v {
        var i :| 0 <= i < |psm| && flag(psm[i]) && psm[i].protein == h && val(psm[i]) == v;
        if i < |init| {
          assert init[i] == psm[i];
        }
      }
    }
  }

  lemma {:induction false} FlaggedListCount(psm: seq<PSMEvidence>, h: string, flag: PSMEvidence -> bool, val: PSMEvidence -> string)
    ensures |FlaggedList(psm, h, flag, val)| == |Filter(psm, FlaggedOn(flag, h))|
  {
    if psm != [] {
      FlaggedListCount(psm[..|psm| - 1], h, flag, val);
    }
  }

  /** A rebuilt protein keeps a supporting spectrum exactly when some PSM is filed under it. */
  lemma SupportedIff(p: ProteinEvidence, psm: seq<PSMEvidence>)
    ensures Supported(Restat(p, psm)) <==> Filed(psm, p.partHeader)
  {
    var total := TotalList(psm, p.partHeader, SpectrumOf);
    if |total| > 0 {
      TotalListMember(psm, p.partHeader, SpectrumOf, total[0]);
    }
    if Filed(psm, p.partHeader) {
      var k :| 0 <= k < |psm| && Incidences(psm[k], p.partHeader) > 0;
      TotalListMember(psm, p.partHeader, SpectrumOf, psm[k].spectrum);
    }
  }

  /**
   * After the sync every protein has a supporting spectrum and `TotalSpC` counts them; every PSM,
   * ion and peptide names a surviving protein; and a protein survives exactly when some PSM was
   * filed under it.
   */
  lemma SyncConsistent(e: EvidenceState)
    ensures var r := SyncSpec(e);
      && (forall p :: p in r.proteins ==> p.totalSpC == |p.supportingSpectra| > 0)
      && (forall x :: x in r.psm ==> x.protein in Headers(r.proteins))
      && (forall x :: x in r.ions ==> x.protein in Headers(r.proteins))
      && (forall x :: x in r.peptides ==> x.protein in Headers(r.proteins))
      && (forall j :: 0 <= j < |e.proteins| ==>
            (Restat(e.proteins[j], e.psm) in r.proteins <==> Filed(e.psm, e.proteins[j].partHeader)))
  {
    var restated := RestatAll(e.proteins, e.psm);
    forall j | 0 <= j < |e.proteins|
      ensures Restat(e.proteins[j], e.psm) in SyncSpec(e).proteins <==> Filed(e.psm, e.proteins[j].partHeader)
    {
      assert restated[j] == Restat(e.proteins[j], e.psm);
      FilterMember(restated, Supported, restated[j]);
      SupportedIff(e.proteins[j], e.psm);
    }
  }

  /** Every PSM names some protein's header. */
  ghost predicate PSMsNamed(e: EvidenceState)
  {
    forall x :: x in e.psm ==> exists p :: p in e.proteins && p.partHeader == x.protein
  }

  lemma RestatTwice(p: ProteinEvidence, psm: seq<PSMEvidence>)
    ensures Restat(Restat(p, psm), psm) == Restat(p, psm)
  {
  }

  /** When every PSM already names a protein, all PSMs survive the sync. */
  lemma NamedPSMsSurvive(e: EvidenceState)
    requires PSMsNamed(e)
    ensures SyncSpec(e).psm == e.psm
  {
    var restated := RestatAll(e.proteins, e.psm);
    var kept := Filter(restated, Supported);
    forall i | 0 <= i < |e.psm| ensures PSMIn(Headers(kept))(e.psm[i]) {
      var x := e.psm[i];
      var p :| p in e.proteins && p.partHeader == x.protein;
      var j :| 0 <= j < |e.proteins| && e.proteins[j] == p;
      assert Incidences(e.psm[i], p.partHeader) > 0;
      SupportedIff(p, e.psm);
      assert restated[j] == Restat(p, e.psm);
      FilterMember(restated, Supported, restated[j]);
    }
    FilterAll(e.psm, PSMIn(Headers(kept)));
  }

  /**
   * A second sync changes nothing when every PSM named a protein before the first: the PSMs all
   * survive, so the counts are rebuilt from the same PSMs and every kept protein stays supported.
   */
  lemma SyncIdempotent(e: EvidenceState)
    requires PSMsNamed(e)
    ensures SyncSpec(SyncSpec(e)) == SyncSpec(e)
  {
    var r := SyncSpec(e);
    NamedPSMsSurvive(e);
    var restated := RestatAll(e.proteins, e.psm);
    var kept := r.proteins;
    forall k | 0 <= k < |kept| ensures Restat(kept[k], e.psm) == kept[k] {
      assert kept[k] in restated;
      var j :| 0 <= j < |restated| && restated[j] == kept[k];
      RestatTwice(e.proteins[j], e.psm);
    }
    assert RestatAll(kept, r.psm) == kept;
    FilterAll(kept, Supported);
    var index := Headers(kept);
    FilterAll(r.ions, IonIn(index));
    FilterAll(r.peptides, PeptideIn(index));
  }

  /**
   * Without that precondition a second sync can change the result: a PSM whose primary protein is
   * absent still supports a protein it maps to, and is then dropped, so the next sync finds that
   * protein without support.
   */
  lemma SyncNotIdempotent() returns (e: EvidenceState)
    ensures SyncSpec(SyncSpec(e)) != SyncSpec(e)
  {
    var prot := ProteinEvidence("A", multiset{}, 0, 0, 0, {}, {}, {}, []);
    var x := PSMEvidence("s", "PEP", 2, 0.0, 0.0, "B", map["A" := "K#R"], "K", "R", false, false, false, 0);
    e := EvidenceState([x], [], [], [prot]);
    var r := SyncSpec(e);
    assert Incidences(x, "A") == 1;
    SupportedIff(prot, [x]);
    assert RestatAll(e.proteins, e.psm) == [Restat(prot, [x])];
    assert r.proteins == [Restat(prot, [x])];
    assert r.psm == [];
    SupportedIff(Restat(prot, [x]), []);
    assert SyncSpec(r).proteins == [];
  }

  /** One sync always leaves every PSM naming a protein, so from the second sync on nothing changes. */
  lemma SyncSettles(e: EvidenceState)
    ensures SyncSpec(SyncSpec(SyncSpec(e))) == SyncSpec(SyncSpec(e))
  {
    var r := SyncSpec(e);
    SyncConsistent(e);
    forall x | x in r.psm ensures exists p :: p in r.proteins && p.partHeader == x.protein {
      assert x.protein in Headers(r.proteins);
    }
    SyncIdempotent(r);
  }

  /** The six lists of the PSM loop, keyed by protein header. */
  datatype Support = Support(
    totalSpc: map<string, seq<string>>,
    totalPeptides: map<string, seq<string>>,
    uniqueSpc: map<string, seq<string>>,
    uniquePeptides: map<string, seq<string>>,
    razorSpc: map<string, seq<string>>,
    razorPeptides: map<string, seq<string>>)

  ghost predicate SupportOf(s: Support, psm: seq<PSMEvidence>)
  {
    && (forall h :: Get(s.totalSpc, h) == TotalList(psm, h, SpectrumOf))
    && (forall h :: Get(s.totalPeptides, h) == TotalList(psm, h, PeptideOf))
    && (forall h :: Get(s.uniqueSpc, h) == FlaggedList(psm, h, IsUnique, SpectrumOf))
    && (forall h :: Get(s.uniquePeptides, h) == FlaggedList(psm, h, IsUnique, PeptideOf))
    && (forall h :: Get(s.razorSpc, h) == FlaggedList(psm, h, IsURazor, SpectrumOf))
    && (forall h :: Get(s.razorPeptides, h) == FlaggedList(psm, h, IsURazor, PeptideOf))
  }

  /** Appends PSM `i`'s value under its primary protein and under each of its mapped proteins. */
  method AddTotal(m: map<string, seq<string>>, psm: seq<PSMEvidence>, i: nat, val: PSMEvidence -> string)
    returns (m': map<string, seq<string>>)
    requires i < |psm|
    requires forall h :: Get(m, h) == TotalList(psm[..i], h, val)
    ensures forall h :: Get(m', h) == TotalList(psm[..i + 1], h, val)
  {
    m' := FileUnder(m, psm[i], val(psm[i]));
    assert psm[..i + 1][..i] == psm[..i];
  }

  /** Appends `v` under the primary protein of `x`, then under each mapped protein in map order. */
  method FileUnder(m: map<string, seq<string>>, x: PSMEvidence, v: string) returns (m': map<string, seq<string>>)
    ensures forall h :: Get(m', h) == Get(m, h) + Repeat(v, Incidences(x, h))
  {
    m' := m[x.protein := Get(m, x.protein) + [v]];
    var keys := x.mappedProteins.Keys;
    forall h ensures Get(m', h) == Get(m, h) + Repeat(v, Filings(x, h, keys)) {
      RepeatSnoc(v, 0);
    }
    while keys != {}
      invariant keys <= x.mappedProteins.Keys
      invariant forall h :: Get(m', h) == Get(m, h) + Repeat(v, Filings(x, h, keys))
      decreases |keys|
    {
      var j :| j in keys;
      FileStep(m, m', x, v, j, keys);
      m' := m'[j := Get(m', j) + [v]];
      keys := keys - {j};
    }
    assert forall h :: Filings(x, h, {}) == Incidences(x, h);
  }

  /** Filing `x` under one more mapped protein `j`. */
  lemma FileStep(m: map<string, seq<string>>, before: map<string, seq<string>>, x: PSMEvidence, v: string, j: string, pending: set<string>)
    requires j in pending && j in x.mappedProteins
    requires forall h :: Get(before, h) == Get(m, h) + Repeat(v, Filings(x, h, pending))
    ensures forall h :: Get(before[j := Get(before, j) + [v]], h) == Get(m, h) + Repeat(v, Filings(x, h, pending - {j}))
  {
    var after := before[j := Get(before, j) + [v]];
    forall h ensures Get(after, h) == Get(m, h) + Repeat(v, Filings(x, h, pending - {j})) {
      if h == j {
        RepeatSnoc(v, Filings(x, h, pending));
      } else {
        assert Filings(x, h, pending - {j}) == Filings(x, h, pending);
      }
    }
  }

  /** Filings of `x` under `h` once every mapped key outside `pending` has been visited. */
  function Filings(x: PSMEvidence, h: string, pending: set<string>): nat
  {
    (if x.protein == h then 1 else 0) + (if h in x.mappedProteins && h !in pending then 1 else 0)
  }

  lemma RepeatSnoc(v: string, n: nat)
    ensures Repeat(v, n) + [v] == Repeat(v, n + 1)
  {
    assert forall k :: 0 <= k <= n ==> (Repeat(v, n) + [v])[k] == v;
  }

  /** Appends PSM `i`'s value under its primary protein when `flag` holds for it. */
  method AddFlagged(m: map<string, seq<string>>, psm: seq<PSMEvidence>, i: nat, flag: PSMEvidence -> bool, val: PSMEvidence -> string)
    returns (m': map<string, seq<string>>)
    requires i < |psm|
    requires forall h :: Get(m, h) == FlaggedList(psm[..i], h, flag, val)
    ensures forall h :: Get(m', h) == FlaggedList(psm[..i + 1], h, flag, val)
  {
    var x := psm[i];
    assert psm[..i + 1][..i] == psm[..i];
    m' := m;
    if flag(x) {
      m' := m[x.protein := Get(m, x.protein) + [val(x)]];
    }
  }

  /** The PSM loop of the sync (updater.go:240-260). */
  method BuildSupport(psm: seq<PSMEvidence>) returns (s: Support)
    ensures SupportOf(s, psm)
  {
    s := Support(map[], map[], map[], map[], map[], map[]);
    for i := 0 to |psm|
      invariant SupportOf(s, psm[..i])
    {
      var totalSpc := AddTotal(s.totalSpc, psm, i, SpectrumOf);
      var totalPeptides := AddTotal(s.totalPeptides, psm, i, PeptideOf);
      var uniqueSpc := AddFlagged(s.uniqueSpc, psm, i, IsUnique, SpectrumOf);
      var uniquePeptides := AddFlagged(s.uniquePeptides, psm, i, IsUnique, PeptideOf);
      var razorSpc := AddFlagged(s.razorSpc, psm, i, IsURazor, SpectrumOf);
      var razorPeptides := AddFlagged(s.razorPeptides, psm, i, IsURazor, PeptideOf);
      s := Support(totalSpc, totalPeptides, uniqueSpc, uniquePeptides, razorSpc, razorPeptides);
    }
    assert psm[..|psm|] == psm;
  }

  /** `SupportingSpectra[j]++` for each listed spectrum. */
  method Tally(v: seq<string>) returns (c: multiset<string>)
    ensures c == multiset(v)
  {
    c := multiset{};
    for i := 0 to |v|
      invariant c == multiset(v[..i])
    {
      assert v[..i + 1] == v[..i] + [v[i]];
      c := c + multiset{v[i]};
    }
    assert v[..|v|] == v;
  }

  /** `TotalPeptides[j]++` (and the unique and razor maps) over a de-duplicated list: the peptides seen. */
  method Distinct(v: seq<string>) returns (t: set<string>)
    ensures t == Elems(v)
  {
    t := {};
    for i := 0 to |v|
      invariant t == Elems(v[..i])
    {
      assert v[..i + 1] == v[..i] + [v[i]];
      assert forall w :: w in Elems(v[..i + 1]) <==> w in t || w == v[i];
      t := t + {v[i]};
    }
    assert v[..|v|] == v;
  }

  /** The rebuild of one protein from the six lists (updater.go:275-316). */
  method RestatFrom(p: ProteinEvidence, s: Support, ghost psm: seq<PSMEvidence>) returns (q: ProteinEvidence)
    requires SupportOf(s, psm)
    ensures q == Restat(p, psm)
  {
    var h := p.partHeader;
    var spectra := Tally(Get(s.totalSpc, h));
    var total := Distinct(Get(s.totalPeptides, h));
    var unique := Distinct(Get(s.uniquePeptides, h));
    var razor := Distinct(Get(s.razorPeptides, h));
    q := p.(supportingSpectra := spectra,
            totalSpC := |Get(s.totalSpc, h)|,
            uniqueSpC := |Get(s.uniqueSpc, h)|,
            uRazorSpC := |Get(s.razorSpc, h)|,
            totalPeptides := total,
            uniquePeptides := unique,
            uRazorPeptides := razor);
  }

  method RestatProteins(ps: seq<ProteinEvidence>, s: Support, ghost psm: seq<PSMEvidence>) returns (ps': seq<ProteinEvidence>)
    requires SupportOf(s, psm)
    ensures ps' == RestatAll(ps, psm)
  {
    ps' := ps;
    for i := 0 to |ps|
      invariant |ps'| == |ps|
      invariant forall k :: 0 <= k < i ==> ps'[k] == Restat(ps[k], psm)
      invariant forall k :: i <= k < |ps| ==> ps'[k] == ps[k]
    {
      var q := RestatFrom(ps'[i], s, psm);
      ps' := ps'[i := q];
    }
  }

  /**
   * The protein compaction (updater.go:318-331): keeps the proteins with a supporting spectrum and
   * collects their headers as it goes.
   */
  method KeepSupported(ps: seq<ProteinEvidence>) returns (kept: seq<ProteinEvidence>, index: set<string>)
    ensures kept == Filter(ps, Supported)
    ensures index == Headers(kept)
  {
    var idx;
    idx, index := KeptIndicesAndKeys(ps, Supported, HeaderOf);
    kept := MoveToFront(ps, idx);
  }
}
