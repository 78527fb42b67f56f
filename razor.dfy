/**
 * `RazorFilter` (lib/fil/fil.go:704-867): assigns shared peptides to razor proteins. Every
 * peptide-to-protein assignment becomes a reference record; the references of each peptide
 * sequence are scanned in order to pick the winners; every ion whose reference is a winner gets
 * `Razor = 1` and its protein `HasRazor = true`; finally each protein's `TopPepProb` becomes the
 * best initial probability among its razor or unique ions.
 */
module Razor {
  import opened Seqs
  import opened Ident

  /** The nine-field reference of one peptide ion under one protein (the `%d#%s#%s#...` string). */
  datatype Ref = Ref(
    groupNumber: int,
    siblingId: string,
    protein: string,
    sequence: string,
    initialProbability: real,
    weight: real,
    groupWeight: real,
    charge: nat,
    mass: real)

  function RefOf(g: int, p: ProtId, ion: PeptideIon): Ref
  {
    Ref(g, p.siblingId, p.name, ion.sequence, ion.initialProbability, ion.weight, ion.groupWeight, ion.charge, ion.mass)
  }

  /** The `pepCheck` key: sequence, charge and mass. */
  function CheckKey(r: Ref): IonKey
  {
    (r.sequence, r.charge, r.mass)
  }

  function SequenceOf(r: Ref): string { r.sequence }

  /** The references of one protein's ions, of one group, and of all groups, in loop order. */
  function ProtRefs(g: int, p: ProtId): seq<Ref>
  {
    seq(|p.ions|, k requires 0 <= k < |p.ions| => RefOf(g, p, p.ions[k]))
  }

  function GroupRefs(g: int, ps: seq<ProtId>): seq<Ref>
  {
    if ps == [] then [] else GroupRefs(g, ps[..|ps| - 1]) + ProtRefs(g, ps[|ps| - 1])
  }

  function AllRefs(groups: seq<ProteinGroup>): seq<Ref>
  {
    if groups == [] then []
    else AllRefs(groups[..|groups| - 1]) + GroupRefs(groups[|groups| - 1].number, groups[|groups| - 1].proteins)
  }

  // ---------------------------------------------------------------- the winner scan of one peptide

  /** The scan state: best group weight and weight so far, the winners, and the checked keys. */
  datatype Scan = Scan(gw: real, w: real, mgw: seq<Ref>, checked: set<IonKey>)

  /** Appends `r` and checks its key unless the key is already checked. */
  function AdmitOnce(st: Scan, r: Ref): Scan
  {
    if CheckKey(r) in st.checked then st
    else st.(mgw := st.mgw + [r], checked := st.checked + {CheckKey(r)})
  }

  /**
   * One reference (fil.go:770-814): a weight above 0.5 is always appended (and once more when its
   * key is new); otherwise a reference is appended, if its key is new, when its group weight beats
   * the best so far or ties it with a weight at least the best weight.
   */
  function ScanStep(st: Scan, r: Ref): Scan
  {
    if r.weight > 0.5 then AdmitOnce(st.(mgw := st.mgw + [r]), r)
    else if r.groupWeight > st.gw then AdmitOnce(st.(gw := r.groupWeight, w := r.weight), r)
    else if r.groupWeight == st.gw && r.weight > st.w then AdmitOnce(st.(w := r.weight), r)
    else if r.groupWeight == st.gw && r.weight == st.w then AdmitOnce(st, r)
    else st
  }

  function ScanAll(v: seq<Ref>, st: Scan): Scan
  {
    if v == [] then st else ScanStep(ScanAll(v[..|v| - 1], st), v[|v| - 1])
  }

  const Start: Scan := Scan(0.0, 0.0, [], {})

  /** The winners of a peptide's references when none of their keys is checked yet. */
  function Winners(v: seq<Ref>): seq<Ref>
  {
    ScanAll(v, Start).mgw
  }

  /** The scan only appends and only checks more keys, and each new key is one of the scanned references'. */
  lemma {:induction false} ScanGrows(v: seq<Ref>, st: Scan)
    ensures |ScanAll(v, st).mgw| >= |st.mgw| && ScanAll(v, st).mgw[..|st.mgw|] == st.mgw
    ensures st.checked <= ScanAll(v, st).checked
    ensures forall c :: c in ScanAll(v, st).checked ==> c in st.checked || exists r :: r in v && CheckKey(r) == c
    ensures forall x :: x in ScanAll(v, st).mgw ==> x in st.mgw || x in v
  {
    if v != [] {
      var init := v[..|v| - 1];
      ScanGrows(init, st);
      var s0 := ScanAll(init, st);
      var s1 := ScanStep(s0, v[|v| - 1]);
      assert s1.mgw[..|s0.mgw|] == s0.mgw;
      assert s1.mgw[..|st.mgw|] == s0.mgw[..|st.mgw|];
      forall c | c in s1.checked ensures c in st.checked || exists r :: r in v && CheckKey(r) == c {
        if c !in s0.checked {
          assert CheckKey(v[|v| - 1]) == c;
        } else if c !in st.checked {
          var r :| r in init && CheckKey(r) == c;
          assert r in v;
        }
      }
      forall x | x in s1.mgw ensures x in st.mgw || x in v {
        if x in s0.mgw && x !in st.mgw {
          assert x in init;
        }
      }
    }
  }

  /** A scan of a prefix: its winners are a prefix of the full scan's winners. */
  lemma {:induction false} ScanPrefix(v: seq<Ref>, j: nat, st: Scan)
    requires j <= |v|
    ensures |ScanAll(v[..j], st).mgw| <= |ScanAll(v, st).mgw|
    ensures ScanAll(v, st).mgw[..|ScanAll(v[..j], st).mgw|] == ScanAll(v[..j], st).mgw
    decreases |v| - j
  {
    if j < |v| {
      var init := v[..|v| - 1];
      assert init[..j] == v[..j];
      ScanPrefix(init, j, st);
      ScanGrows([v[|v| - 1]], ScanAll(init, st));
      assert ScanAll([v[|v| - 1]], ScanAll(init, st)) == ScanAll(v, st) by {
        assert [v[|v| - 1]][..0] == [];
      }
    } else {
      assert v[..j] == v;
    }
  }

  /** Every reference with weight above 0.5 is a winner (fil.go:771-779), whatever was checked before. */
  lemma HighWeightWins(v: seq<Ref>, st: Scan, i: nat)
    requires i < |v| && v[i].weight > 0.5
    ensures v[i] in ScanAll(v, st).mgw
  {
    var pre := v[..i + 1];
    assert pre[..i] == v[..i];
    var s0 := ScanAll(pre[..i], st);
    var s1 := ScanAll(pre, st);
    assert s1.mgw[|s0.mgw|] == v[i];
    ScanPrefix(v, i + 1, st);
    assert ScanAll(v, st).mgw[|s0.mgw|] == v[i];
  }

  /** Winners with weight at most 0.5 have their keys checked and never share a key. */
  ghost predicate LowOnce(st: Scan)
  {
    (forall i :: 0 <= i < |st.mgw| && st.mgw[i].weight <= 0.5 ==> CheckKey(st.mgw[i]) in st.checked)
    && (forall i, j :: 0 <= i < j < |st.mgw| && st.mgw[i].weight <= 0.5 && st.mgw[j].weight <= 0.5 ==>
          CheckKey(st.mgw[i]) != CheckKey(st.mgw[j]))
  }

  /** The key check admits at most one reference of weight at most 0.5 per (sequence, charge, mass). */
  lemma {:induction false} LowWeightOnce(v: seq<Ref>, st: Scan)
    requires LowOnce(st)
    ensures LowOnce(ScanAll(v, st))
  {
    if v != [] {
      var init := v[..|v| - 1];
      LowWeightOnce(init, st);
      var s0 := ScanAll(init, st);
      var r := v[|v| - 1];
      var s1 := ScanStep(s0, r);
      assert s1.mgw[..|s0.mgw|] == s0.mgw;
      if r.weight <= 0.5 && |s1.mgw| > |s0.mgw| {
        assert CheckKey(r) !in s0.checked;
        assert s1.mgw == s0.mgw + [r];
      }
    }
  }

  lemma WinnersLowOnce(v: seq<Ref>)
    ensures forall i, j :: 0 <= i < j < |Winners(v)| && Winners(v)[i].weight <= 0.5 && Winners(v)[j].weight <= 0.5 ==>
      CheckKey(Winners(v)[i]) != CheckKey(Winners(v)[j])
  {
    LowWeightOnce(v, Start);
  }

  /** A peptide whose first reference has non-negative weights has at least one winner. */
  lemma NonEmptyWinners(v: seq<Ref>)
    requires |v| > 0 && v[0].groupWeight >= 0.0 && v[0].weight >= 0.0
    ensures |Winners(v)| > 0
  {
    ScanPrefix(v, 1, Start);
    assert v[..1][..0] == [];
  }

  /**
   * A peptide in group 1 (weight 0.3, group weight 0.6) and group 2 (weight 0.7, group weight 0.4):
   * the first reference wins on group weight and the second on weight, so both proteins get the
   * peptide as razor, not only the second.
   */
  lemma TwoRazorProteins()
    ensures var r1 := Ref(1, "a", "P1", "PEPTIDE", 0.9, 0.3, 0.6, 2, 1000.0);
            var r2 := Ref(2, "a", "P2", "PEPTIDE", 0.9, 0.7, 0.4, 2, 1000.0);
            Winners([r1, r2]) == [r1, r2]
  {
    var r1 := Ref(1, "a", "P1", "PEPTIDE", 0.9, 0.3, 0.6, 2, 1000.0);
    var r2 := Ref(2, "a", "P2", "PEPTIDE", 0.9, 0.7, 0.4, 2, 1000.0);
    assert [r1, r2][..1] == [r1];
    assert [r1][..0] == [];
    assert ScanAll([r1], Start) == Scan(0.6, 0.3, [r1], {CheckKey(r1)});
  }

  /** Two scan states that agree on everything but keys outside `keys`. */
  ghost predicate Agree(s1: Scan, s2: Scan, keys: set<IonKey>)
  {
    s1.gw == s2.gw && s1.w == s2.w && s1.mgw == s2.mgw
    && forall c :: c in keys ==> (c in s1.checked <==> c in s2.checked)
  }

  /**
   * Keys checked for other peptides do not matter: a scan over references whose keys were
   * unchecked gives the same winners whatever else is checked.
   */
  lemma {:induction false} ScanIndependent(v: seq<Ref>, s1: Scan, s2: Scan, keys: set<IonKey>)
    requires forall r :: r in v ==> CheckKey(r) in keys
    requires Agree(s1, s2, keys)
    ensures Agree(ScanAll(v, s1), ScanAll(v, s2), keys)
  {
    if v != [] {
      var init := v[..|v| - 1];
      assert forall r :: r in init ==> r in v;
      ScanIndependent(init, s1, s2, keys);
      assert CheckKey(v[|v| - 1]) in keys;
    }
  }

  // ---------------------------------------------------------------- the reference map

  lemma GroupBySnoc<K, T>(s: seq<T>, x: T, key: T -> K)
    ensures GroupBy(s + [x], key) == GroupBy(s, key)[key(x) := Get(GroupBy(s, key), key(x)) + [x]]
  {
    assert (s + [x])[..|s|] == s;
  }

  lemma ProtRefsSnoc(before: seq<Ref>, g: int, p: ProtId, k: nat)
    requires k < |p.ions|
    ensures before + ProtRefs(g, p)[..k + 1] == before + ProtRefs(g, p)[..k] + [RefOf(g, p, p.ions[k])]
  {
    assert ProtRefs(g, p)[..k + 1] == ProtRefs(g, p)[..k] + [ProtRefs(g, p)[k]];
  }

  /** The references of one protein's ions appended to `refMap` (the innermost loop of fil.go:714-735). */
  method AddProteinRefs(refMap: map<string, seq<Ref>>, ghost before: seq<Ref>, g: int, p: ProtId)
    returns (m: map<string, seq<Ref>>)
    requires refMap == GroupBy(before, SequenceOf)
    ensures m == GroupBy(before + ProtRefs(g, p), SequenceOf)
  {
    m := refMap;
    var k := 0;
    assert before + ProtRefs(g, p)[..0] == before;
    while k < |p.ions|
      invariant 0 <= k <= |p.ions|
      invariant m == GroupBy(before + ProtRefs(g, p)[..k], SequenceOf)
    {
      var ref := RefOf(g, p, p.ions[k]);
      GroupBySnoc(before + ProtRefs(g, p)[..k], ref, SequenceOf);
      ProtRefsSnoc(before, g, p, k);
      m := m[ref.sequence := Get(m, ref.sequence) + [ref]];
      k := k + 1;
    }
    assert ProtRefs(g, p)[..k] == ProtRefs(g, p);
  }

  lemma GroupRefsSnoc(before: seq<Ref>, g: int, ps: seq<ProtId>, j: nat)
    requires j < |ps|
    ensures before + GroupRefs(g, ps[..j + 1]) == before + GroupRefs(g, ps[..j]) + ProtRefs(g, ps[j])
  {
    assert ps[..j + 1][..j] == ps[..j];
  }

  method AddGroupRefs(refMap: map<string, seq<Ref>>, ghost before: seq<Ref>, g: ProteinGroup)
    returns (m: map<string, seq<Ref>>)
    requires refMap == GroupBy(before, SequenceOf)
    ensures m == GroupBy(before + GroupRefs(g.number, g.proteins), SequenceOf)
  {
    m := refMap;
    var j := 0;
    assert before + GroupRefs(g.number, g.proteins[..0]) == before;
    while j < |g.proteins|
      invariant 0 <= j <= |g.proteins|
      invariant m == GroupBy(before + GroupRefs(g.number, g.proteins[..j]), SequenceOf)
    {
      GroupRefsSnoc(before, g.number, g.proteins, j);
      m := AddProteinRefs(m, before + GroupRefs(g.number, g.proteins[..j]), g.number, g.proteins[j]);
      j := j + 1;
    }
    assert g.proteins[..j] == g.proteins;
  }

  /** The map from peptide sequence to all its references, in loop order (fil.go:714-735). */
  method BuildRefMap(groups: array<ProteinGroup>) returns (refMap: map<string, seq<Ref>>)
    ensures refMap == GroupBy(AllRefs(groups[..]), SequenceOf)
  {
    refMap := map[];
    var i := 0;
    while i < groups.Length
      invariant 0 <= i <= groups.Length
      invariant refMap == GroupBy(AllRefs(groups[..i]), SequenceOf)
    {
      assert groups[..i + 1][..i] == groups[..i];
      refMap := AddGroupRefs(refMap, AllRefs(groups[..i]), groups[i]);
      i := i + 1;
    }
    assert groups[..i] == groups[..];
  }

  // ---------------------------------------------------------------- winners of every peptide

  /** One peptide's scan with the shared `checkRazor` set (fil.go:749-815). */
  method ScanPeptide(v: seq<Ref>, checkRazor: set<IonKey>) returns (mgw: seq<Ref>, checked: set<IonKey>)
    ensures mgw == ScanAll(v, Scan(0.0, 0.0, [], checkRazor)).mgw
    ensures checked == ScanAll(v, Scan(0.0, 0.0, [], checkRazor)).checked
  {
    var gw, w := 0.0, 0.0;
    mgw, checked := [], checkRazor;
    var i := 0;
    while i < |v|
      invariant 0 <= i <= |v|
      invariant Scan(gw, w, mgw, checked) == ScanAll(v[..i], Scan(0.0, 0.0, [], checkRazor))
    {
      assert v[..i + 1][..i] == v[..i];
      var r := v[i];
      var pepCheck := CheckKey(r);
      if r.weight > 0.5 {
        mgw := mgw + [r];
        if pepCheck !in checked {
          mgw := mgw + [r];
          checked := checked + {pepCheck};
        }
      } else if r.groupWeight > gw {
        gw, w := r.groupWeight, r.weight;
        if pepCheck !in checked {
          mgw := mgw + [r];
          checked := checked + {pepCheck};
        }
      } else if r.groupWeight == gw {
        if r.weight > w {
          w := r.weight;
          if pepCheck !in checked {
            mgw := mgw + [r];
            checked := checked + {pepCheck};
          }
        } else if r.weight == w {
          w := r.weight;
          if pepCheck !in checked {
            mgw := mgw + [r];
            checked := checked + {pepCheck};
          }
        }
      }
      i := i + 1;
    }
    assert v[..i] == v;
  }

  /** The winners of every peptide, as `razorMap` holds them after fil.go:738-818. */
  ghost function RazorMap(refMap: map<string, seq<Ref>>): map<string, seq<Ref>>
  {
    map k | k in refMap :: Winners(refMap[k])
  }

  /** The peptide keys are visited in any order, yet each peptide gets the winners of its own scan. */
  method PeptideWinners(refMap: map<string, seq<Ref>>, ghost refs: seq<Ref>) returns (razorMap: map<string, seq<Ref>>)
    requires refMap == GroupBy(refs, SequenceOf)
    ensures razorMap == RazorMap(refMap)
  {
    razorMap := map[];
    var checkRazor: set<IonKey> := {};
    var rest := refMap.Keys;
    while rest != {}
      invariant rest <= refMap.Keys
      invariant forall k :: k in razorMap <==> k in refMap && k !in rest
      invariant forall k :: k in razorMap ==> razorMap[k] == Winners(refMap[k])
      invariant forall c :: c in checkRazor ==> c.0 !in rest
      decreases |rest|
    {
      var k :| k in rest;
      var v := refMap[k];
      GroupByIsFilter(refs, SequenceOf, k);
      assert forall r :: r in v ==> r.sequence == k;
      var keys := set r | r in v :: CheckKey(r);
      ScanIndependent(v, Scan(0.0, 0.0, [], checkRazor), Start, keys);
      ScanGrows(v, Scan(0.0, 0.0, [], checkRazor));
      var mgw, checked := ScanPeptide(v, checkRazor);
      razorMap := razorMap[k := mgw];
      checkRazor := checked;
      rest := rest - {k};
    }
    assert razorMap == RazorMap(refMap) by {
      assert forall k :: k in razorMap <==> k in RazorMap(refMap);
    }
  }

  // ---------------------------------------------------------------- marking and TopPepProb

  predicate IsWinner(razorMap: map<string, seq<Ref>>, r: Ref)
  {
    r.sequence in razorMap && r in razorMap[r.sequence]
  }

  /** A protein after marking (fil.go:820-849): ions whose reference won get `Razor = 1`, and the protein `HasRazor`. */
  function Marked(g: int, p: ProtId, razorMap: map<string, seq<Ref>>): ProtId
  {
    p.(ions := seq(|p.ions|, k requires 0 <= k < |p.ions| =>
                 if IsWinner(razorMap, RefOf(g, p, p.ions[k])) then p.ions[k].(razor := 1) else p.ions[k]),
       hasRazor := p.hasRazor || exists k :: 0 <= k < |p.ions| && IsWinner(razorMap, RefOf(g, p, p.ions[k])))
  }

  function MarkedGroup(g: ProteinGroup, razorMap: map<string, seq<Ref>>): ProteinGroup
  {
    g.(proteins := seq(|g.proteins|, j requires 0 <= j < |g.proteins| => Marked(g.number, g.proteins[j], razorMap)))
  }

  predicate Counts(ion: PeptideIon)
  {
    ion.razor == 1 || ion.isUnique
  }

  /** The running maximum from 0 of the initial probabilities of razor or unique ions (fil.go:854-862). */
  function TopProb(ions: seq<PeptideIon>): real
  {
    if ions == [] then 0.0
    else
      var r := TopProb(ions[..|ions| - 1]);
      var ion := ions[|ions| - 1];
      if Counts(ion) && ion.initialProbability > r then ion.initialProbability else r
  }

  function WithTop(g: ProteinGroup): ProteinGroup
  {
    g.(proteins := seq(|g.proteins|, j requires 0 <= j < |g.proteins| =>
         g.proteins[j].(topPepProb := TopProb(g.proteins[j].ions))))
  }

  /** `TopPepProb` is the largest probability of a razor or unique ion, or 0 when there is none above 0. */
  lemma {:induction false} TopProbIsMax(ions: seq<PeptideIon>)
    ensures TopProb(ions) >= 0.0
    ensures forall k :: 0 <= k < |ions| && Counts(ions[k]) ==> ions[k].initialProbability <= TopProb(ions)
    ensures TopProb(ions) == 0.0
         || exists k :: 0 <= k < |ions| && Counts(ions[k]) && ions[k].initialProbability == TopProb(ions)
  {
    if ions != [] {
      var init := ions[..|ions| - 1];
      TopProbIsMax(init);
      assert forall k :: 0 <= k < |init| ==> init[k] == ions[k];
      if TopProb(ions) != 0.0 && TopProb(ions) == TopProb(init) {
        var k :| 0 <= k < |init| && Counts(init[k]) && init[k].initialProbability == TopProb(init);
        assert ions[k] == init[k];
      }
    }
  }

  /** The search through a peptide's winners, stopping at the first match. */
  method FindRef(v: seq<Ref>, ref: Ref) returns (found: bool)
    ensures found <==> ref in v
  {
    found := false;
    var l := 0;
    while l < |v|
      invariant 0 <= l <= |v|
      invariant ref !in v[..l]
    {
      if v[l] == ref {
        return true;
      }
      assert v[..l + 1] == v[..l] + [v[l]];
      l := l + 1;
    }
    assert v[..l] == v;
  }

  method MarkProtein(g: int, p: ProtId, razorMap: map<string, seq<Ref>>) returns (q: ProtId)
    ensures q == Marked(g, p, razorMap)
  {
    q := p;
    var k := 0;
    while k < |p.ions|
      invariant 0 <= k <= |p.ions|
      invariant q.name == p.name && q.siblingId == p.siblingId && q.probability == p.probability
      invariant q.topPepProb == p.topPepProb && q.picked == p.picked && |q.ions| == |p.ions|
      invariant forall n :: k <= n < |p.ions| ==> q.ions[n] == p.ions[n]
      invariant forall n :: 0 <= n < k ==> q.ions[n] == Marked(g, p, razorMap).ions[n]
      invariant q.hasRazor == (p.hasRazor || exists n :: 0 <= n < k && IsWinner(razorMap, RefOf(g, p, p.ions[n])))
    {
      var ref := RefOf(g, p, p.ions[k]);
      if ref.sequence in razorMap {
        var found := FindRef(razorMap[ref.sequence], ref);
        if found {
          q := q.(ions := q.ions[k := q.ions[k].(razor := 1)], hasRazor := true);
        }
      }
      k := k + 1;
    }
    assert q.ions == Marked(g, p, razorMap).ions;
  }

  method MarkGroup(grp: ProteinGroup, razorMap: map<string, seq<Ref>>) returns (r: ProteinGroup)
    ensures r == MarkedGroup(grp, razorMap)
  {
    var ps := grp.proteins;
    var j := 0;
    while j < |ps|
      invariant 0 <= j <= |ps| && |ps| == |grp.proteins|
      invariant forall n :: j <= n < |ps| ==> ps[n] == grp.proteins[n]
      invariant forall n :: 0 <= n < j ==> ps[n] == Marked(grp.number, grp.proteins[n], razorMap)
    {
      var q := MarkProtein(grp.number, ps[j], razorMap);
      ps := ps[j := q];
      j := j + 1;
    }
    r := grp.(proteins := ps);
    assert r.proteins == MarkedGroup(grp, razorMap).proteins;
  }

  /** The marking pass over all groups, in place (fil.go:820-849). */
  method MarkRazor(groups: array<ProteinGroup>, razorMap: map<string, seq<Ref>>)
    modifies groups
    ensures forall i :: 0 <= i < groups.Length ==> groups[i] == MarkedGroup(old(groups[i]), razorMap)
  {
    var i := 0;
    while i < groups.Length
      invariant 0 <= i <= groups.Length
      invariant forall n :: i <= n < groups.Length ==> groups[n] == old(groups[n])
      invariant forall n :: 0 <= n < i ==> groups[n] == MarkedGroup(old(groups[n]), razorMap)
    {
      groups[i] := MarkGroup(groups[i], razorMap);
      i := i + 1;
    }
  }

  method TopPepProbOf(ions: seq<PeptideIon>) returns (r: real)
    ensures r == TopProb(ions)
  {
    r := 0.0;
    var k := 0;
    while k < |ions|
      invariant 0 <= k <= |ions|
      invariant r == TopProb(ions[..k])
    {
      assert ions[..k + 1][..k] == ions[..k];
      if Counts(ions[k]) {
        if ions[k].initialProbability > r {
          r := ions[k].initialProbability;
        }
      }
      k := k + 1;
    }
    assert ions[..k] == ions;
  }

  method TopGroup(grp: ProteinGroup) returns (r: ProteinGroup)
    ensures r == WithTop(grp)
  {
    var ps := grp.proteins;
    var j := 0;
    while j < |ps|
      invariant 0 <= j <= |ps| && |ps| == |grp.proteins|
      invariant forall n :: j <= n < |ps| ==> ps[n] == grp.proteins[n]
      invariant forall n :: 0 <= n < j ==> ps[n] == grp.proteins[n].(topPepProb := TopProb(grp.proteins[n].ions))
    {
      var top := TopPepProbOf(ps[j].ions);
      ps := ps[j := ps[j].(topPepProb := top)];
      j := j + 1;
    }
    r := grp.(proteins := ps);
    assert r.proteins == WithTop(grp).proteins;
  }

  /** The `TopPepProb` pass over all groups, in place (fil.go:852-864). */
  method SetTopPepProb(groups: array<ProteinGroup>)
    modifies groups
    ensures forall i :: 0 <= i < groups.Length ==> groups[i] == WithTop(old(groups[i]))
  {
    var i := 0;
    while i < groups.Length
      invariant 0 <= i <= groups.Length
      invariant forall n :: i <= n < groups.Length ==> groups[n] == old(groups[n])
      invariant forall n :: 0 <= n < i ==> groups[n] == WithTop(old(groups[n]))
    {
      groups[i] := TopGroup(groups[i]);
      i := i + 1;
    }
  }

  /** One group after the whole filter. */
  function RazorGroup(g: ProteinGroup, razorMap: map<string, seq<Ref>>): ProteinGroup
  {
    WithTop(MarkedGroup(g, razorMap))
  }

  /**
   * `RazorFilter` (fil.go:705-867): every group is marked with the winners of the references of
   * all groups, then gets its `TopPepProb`.
   */
  method RazorFilter(groups: array<ProteinGroup>)
    modifies groups
    ensures forall i :: 0 <= i < groups.Length ==>
      groups[i] == RazorGroup(old(groups[i]), RazorMap(GroupBy(AllRefs(old(groups[..])), SequenceOf)))
  {
    var refMap := BuildRefMap(groups);
    var razorMap := PeptideWinners(refMap, AllRefs(groups[..]));
    MarkRazor(groups, razorMap);
    SetTopPepProb(groups);
  }

  // ---------------------------------------------------------------- what the filter guarantees

  lemma {:induction false} GroupRefsHas(g: int, ps: seq<ProtId>, j: nat, k: nat)
    requires j < |ps| && k < |ps[j].ions|
    ensures RefOf(g, ps[j], ps[j].ions[k]) in GroupRefs(g, ps)
  {
    var last := |ps| - 1;
    if j == last {
      assert ProtRefs(g, ps[j])[k] == RefOf(g, ps[j], ps[j].ions[k]);
    } else {
      assert ps[..last][j] == ps[j];
      GroupRefsHas(g, ps[..last], j, k);
    }
  }

  /** Every ion of every protein has its reference in the list the reference map is built from. */
  lemma {:induction false} AllRefsHas(groups: seq<ProteinGroup>, i: nat, j: nat, k: nat)
    requires i < |groups| && j < |groups[i].proteins| && k < |groups[i].proteins[j].ions|
    ensures RefOf(groups[i].number, groups[i].proteins[j], groups[i].proteins[j].ions[k]) in AllRefs(groups)
  {
    var last := |groups| - 1;
    if i == last {
      GroupRefsHas(groups[i].number, groups[i].proteins, j, k);
    } else {
      assert groups[..last][i] == groups[i];
      AllRefsHas(groups[..last], i, j, k);
    }
  }

  /** A reference is among the references of its own peptide in the reference map. */
  lemma InRefMap(refs: seq<Ref>, r: Ref)
    requires r in refs
    ensures r.sequence in GroupBy(refs, SequenceOf) && r in GroupBy(refs, SequenceOf)[r.sequence]
  {
    GroupByIsFilter(refs, SequenceOf, r.sequence);
    FilterCount(refs, KeyIs(SequenceOf, r.sequence), r);
    var i :| 0 <= i < |refs| && refs[i] == r;
    assert SequenceOf(refs[i]) == r.sequence;
  }

  /**
   * After the filter, an ion with weight above 0.5 is razor, its protein has a razor peptide, and
   * the ion's probability is no higher than the protein's `TopPepProb`.
   */
  lemma HighWeightMarked(groups: seq<ProteinGroup>, i: nat, j: nat, k: nat)
    requires i < |groups| && j < |groups[i].proteins| && k < |groups[i].proteins[j].ions|
    requires groups[i].proteins[j].ions[k].weight > 0.5
    ensures var q := RazorGroup(groups[i], RazorMap(GroupBy(AllRefs(groups), SequenceOf))).proteins[j];
      q.ions[k].razor == 1 && q.hasRazor && q.ions[k].initialProbability <= q.topPepProb
  {
    var refMap := GroupBy(AllRefs(groups), SequenceOf);
    var p := groups[i].proteins[j];
    var r := RefOf(groups[i].number, p, p.ions[k]);
    AllRefsHas(groups, i, j, k);
    InRefMap(AllRefs(groups), r);
    var v := refMap[r.sequence];
    var idx :| 0 <= idx < |v| && v[idx] == r;
    HighWeightWins(v, Start, idx);
    assert IsWinner(RazorMap(refMap), r);
    var m := Marked(groups[i].number, p, RazorMap(refMap));
    TopProbIsMax(m.ions);
    assert Counts(m.ions[k]);
  }

  /** `HasRazor` is only ever set, and `TopPepProb` is the best razor-or-unique probability after marking. */
  lemma RazorGroupFacts(g: ProteinGroup, razorMap: map<string, seq<Ref>>, j: nat)
    requires j < |g.proteins|
    ensures var q := RazorGroup(g, razorMap).proteins[j];
      && (g.proteins[j].hasRazor ==> q.hasRazor)
      && q.topPepProb >= 0.0
      && (forall k :: 0 <= k < |q.ions| && Counts(q.ions[k]) ==> q.ions[k].initialProbability <= q.topPepProb)
      && (q.topPepProb == 0.0 || exists k :: 0 <= k < |q.ions| && Counts(q.ions[k]) && q.ions[k].initialProbability == q.topPepProb)
  {
    TopProbIsMax(MarkedGroup(g, razorMap).proteins[j].ions);
  }
}
