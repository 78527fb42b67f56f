/**
 * The second-pass filters of lib/fil/fil.go: restricting PSMs to a protein list
 * (`extractPSMfromPepXML`) and building the target/decoy mirror of a protein list
 * (`mirrorProteinList`).
 */
module Sequential {
  import opened Seqs
  import opened Ident
  import opened Fdr
  import opened Grouping
  import opened PepFilter

  // ---------------------------------------------------------------- extractPSMfromPepXML

  /** The protein names of a protein list (the keys of `protmap`). */
  function Names(pro: seq<ProtId>): set<string>
  {
    set i | 0 <= i < |pro| :: pro[i].name
  }

  /** A PSM maps into `names` through its `Protein` or one of its `AlternativeProteins`. */
  predicate MapsTo(x: PepId, names: set<string>)
  {
    x.protein in names || exists j :: 0 <= j < |x.altProteins| && x.altProteins[j] in names
  }

  /** `filterMap` after the loop over `pep`: each spectrum's last PSM that maps into `names`. */
  function SpectrumMap(pep: seq<PepId>, names: set<string>): map<string, PepId>
  {
    if pep == [] then map[]
    else
      var m := SpectrumMap(pep[..|pep| - 1], names);
      var x := pep[|pep| - 1];
      if MapsTo(x, names) then m[x.spectrum := x] else m
  }

  /** Selects every entry of a group: the pool of a map of lists taken whole. */
  function EveryEntry(s: seq<PepId>): seq<PepId>
  {
    s
  }

  method ProteinNames(pro: seq<ProtId>) returns (names: set<string>)
    ensures names == Names(pro)
  {
    names := {};
    for i := 0 to |pro|
      invariant names == set j | 0 <= j < i :: pro[j].name
    {
      names := names + {pro[i].name};
    }
  }

  /** The loop over `AlternativeProteins` (fil.go:1146-1152): any listed alternative stores the PSM under its spectrum. */
  method AddByAlternatives(filterMap: map<string, PepId>, x: PepId, names: set<string>) returns (m: map<string, PepId>)
    ensures m == if exists j :: 0 <= j < |x.altProteins| && x.altProteins[j] in names then filterMap[x.spectrum := x] else filterMap
  {
    m := filterMap;
    for j := 0 to |x.altProteins|
      invariant m == if exists i :: 0 <= i < j && x.altProteins[i] in names then filterMap[x.spectrum := x] else filterMap
    {
      if x.altProteins[j] in names {
        m := filterMap[x.spectrum := x];
      }
    }
  }

  method SpectrumFilter(pep: seq<PepId>, names: set<string>) returns (filterMap: map<string, PepId>)
    ensures filterMap == SpectrumMap(pep, names)
  {
    filterMap := map[];
    for i := 0 to |pep|
      invariant filterMap == SpectrumMap(pep[..i], names)
    {
      assert pep[..i + 1][..i] == pep[..i];
      if pep[i].protein in names {
        filterMap := filterMap[pep[i].spectrum := pep[i]];
      } else {
        filterMap := AddByAlternatives(filterMap, pep[i], names);
      }
    }
    assert pep[..|pep|] == pep;
  }

  /** The values of `filterMap`, in the order the map loop happens to visit them. */
  method MapValues(filterMap: map<string, PepId>) returns (output: seq<PepId>)
    ensures multiset(output) == Pool(Singletons(filterMap), EveryEntry)
  {
    output := [];
    var remaining := filterMap;
    while remaining.Keys != {}
      invariant multiset(output) + Pool(Singletons(remaining), EveryEntry) == Pool(Singletons(filterMap), EveryEntry)
      decreases |remaining|
    {
      if forall k :: k !in remaining {
        assert false;
      }
      var k :| k in remaining;
      PoolAnyKey(Singletons(remaining), EveryEntry, k);
      SingletonsRemove(remaining, k);
      output := output + [remaining[k]];
      remaining := remaining - {k};
    }
    assert forall k :: k !in Singletons(remaining);
    PoolEmpty(Singletons(remaining), EveryEntry);
  }

  /** `extractPSMfromPepXML`: the PSMs that map into the protein list, the last one per spectrum. */
  method ExtractPSMfromPepXML(pep: seq<PepId>, pro: seq<ProtId>) returns (output: seq<PepId>)
    ensures multiset(output) == Pool(Singletons(SpectrumMap(pep, Names(pro))), EveryEntry)
  {
    var names := ProteinNames(pro);
    var filterMap := SpectrumFilter(pep, names);
    output := MapValues(filterMap);
  }
  /** `pep[i]` is the last PSM of spectrum `s` that maps into `names`. */
  ghost predicate LastMatch(pep: seq<PepId>, names: set<string>, s: string, i: int)
  {
    && 0 <= i < |pep| && MapsTo(pep[i], names) && pep[i].spectrum == s
    && forall j :: i < j < |pep| ==> !(MapsTo(pep[j], names) && pep[j].spectrum == s)
  }

  /** A spectrum is stored iff some PSM of it maps into the names, and what is stored is its last such PSM. */
  lemma {:induction false} SpectrumMapLast(pep: seq<PepId>, names: set<string>, s: string) returns (i: int)
    ensures s in SpectrumMap(pep, names) <==> exists j :: 0 <= j < |pep| && MapsTo(pep[j], names) && pep[j].spectrum == s
    ensures s in SpectrumMap(pep, names) ==> LastMatch(pep, names, s, i) && SpectrumMap(pep, names)[s] == pep[i]
  {
    i := 0;
    if pep != [] {
      var init, x := pep[..|pep| - 1], pep[|pep| - 1];
      i := SpectrumMapLast(init, names, s);
      if MapsTo(x, names) && x.spectrum == s {
        i := |pep| - 1;
      } else {
        if exists j :: 0 <= j < |pep| && MapsTo(pep[j], names) && pep[j].spectrum == s {
          var j :| 0 <= j < |pep| && MapsTo(pep[j], names) && pep[j].spectrum == s;
          assert init[j] == pep[j];
        }
      }
    }
  }

  /** Exactly the last matching PSM of each matched spectrum comes out, once. */
  lemma ExtractedPSMs(pep: seq<PepId>, pro: seq<ProtId>, output: seq<PepId>)
    requires multiset(output) == Pool(Singletons(SpectrumMap(pep, Names(pro))), EveryEntry)
    ensures forall x :: x in output <==> exists i :: LastMatch(pep, Names(pro), x.spectrum, i) && pep[i] == x
    ensures forall x :: multiset(output)[x] <= 1
  {
    var names := Names(pro);
    var m := SpectrumMap(pep, names);
    forall s | s in m ensures m[s].spectrum == s {
      var i := SpectrumMapLast(pep, names, s);
    }
    forall x ensures x in output <==> exists i :: LastMatch(pep, names, x.spectrum, i) && pep[i] == x {
      PoolHas(Singletons(m), EveryEntry, x);
      if x in output {
        var k :| k in Singletons(m) && x in EveryEntry(Singletons(m)[k]);
        var i := SpectrumMapLast(pep, names, k);
      }
      if exists i :: LastMatch(pep, names, x.spectrum, i) && pep[i] == x {
        var i :| LastMatch(pep, names, x.spectrum, i) && pep[i] == x;
        var i' := SpectrumMapLast(pep, names, x.spectrum);
        LastMatchUnique(pep, names, x.spectrum, i, i');
        assert EveryEntry(Singletons(m)[x.spectrum]) == [x];
      }
    }
    forall x ensures multiset(output)[x] <= 1 {
      SingletonPool(m, EveryEntry, x);
    }
  }

  lemma LastMatchUnique(pep: seq<PepId>, names: set<string>, s: string, i: int, j: int)
    requires LastMatch(pep, names, s, i) && LastMatch(pep, names, s, j)
    ensures i == j
  {
  }
  // ---------------------------------------------------------------- mirrorProteinList

  function TargetOf(isDecoy: string -> bool): ProtId -> bool
  {
    (p: ProtId) => !isDecoy(p.name)
  }

  /** `refMap`: each protein name's last record in the list. */
  function NameMap(p: seq<ProtId>): map<string, ProtId>
  {
    if p == [] then map[] else NameMap(p[..|p| - 1])[p[|p| - 1].name := p[|p| - 1]]
  }

  /** The record added when the list has no protein of the mirrored name: only the name is set. */
  function Placeholder(name: string): ProtId
  {
    ProtId(name, "", 0.0, 0.0, 0, false, [])
  }

  /** The decoy partner of target `k`: the listed record named tag+name, or a placeholder of that name. */
  function MirrorOf(refMap: map<string, ProtId>, tag: string, k: ProtId): ProtId
  {
    var decoy := tag + k.name;
    if decoy in refMap then refMap[decoy] else Placeholder(decoy)
  }

  /** What `mirrorProteinList` returns: the targets in list order, then one partner per target in the same order. */
  function MirrorList(p: seq<ProtId>, tag: string, isDecoy: string -> bool): seq<ProtId>
  {
    var targets := Filter(p, TargetOf(isDecoy));
    targets + seq(|targets|, i requires 0 <= i < |targets| => MirrorOf(NameMap(p), tag, targets[i]))
  }

  method TargetList(p: seq<ProtId>, isDecoy: string -> bool) returns (list: seq<ProtId>)
    ensures list == Filter(p, TargetOf(isDecoy))
  {
    list := [];
    for i := 0 to |p|
      invariant list == Filter(p[..i], TargetOf(isDecoy))
    {
      assert p[..i + 1][..i] == p[..i];
      if !isDecoy(p[i].name) {
        list := list + [p[i]];
      }
    }
    assert p[..|p|] == p;
  }

  method NameIndex(p: seq<ProtId>) returns (refMap: map<string, ProtId>)
    ensures refMap == NameMap(p)
  {
    refMap := map[];
    for i := 0 to |p|
      invariant refMap == NameMap(p[..i])
    {
      assert p[..i + 1][..i] == p[..i];
      refMap := refMap[p[i].name := p[i]];
    }
    assert p[..|p|] == p;
  }

  /**
   * `mirrorProteinList`: the range over the target list is fixed when the loop starts, so the
   * partners appended inside it are not visited again.
   */
  method MirrorProteinList(p: seq<ProtId>, tag: string, isDecoy: string -> bool) returns (list: seq<ProtId>)
    ensures list == MirrorList(p, tag, isDecoy)
  {
    var targets := TargetList(p, isDecoy);
    var refMap := NameIndex(p);
    list := targets;
    for i := 0 to |targets|
      invariant list == targets + seq(i, j requires 0 <= j < i => MirrorOf(refMap, tag, targets[j]))
    {
      var decoy := tag + targets[i].name;
      if decoy in refMap {
        list := list + [refMap[decoy]];
      } else {
        list := list + [Placeholder(decoy)];
      }
    }
  }

  /** A name is in `refMap` iff some record has it, and it maps to the last record of that name. */
  lemma {:induction false} NameMapLast(p: seq<ProtId>, n: string) returns (i: int)
    ensures n in NameMap(p) <==> exists j :: 0 <= j < |p| && p[j].name == n
    ensures n in NameMap(p) ==>
      && 0 <= i < |p| && p[i] == NameMap(p)[n] && p[i].name == n
      && forall j :: i < j < |p| ==> p[j].name != n
  {
    i := 0;
    if p != [] {
      var init := p[..|p| - 1];
      i := NameMapLast(init, n);
      if p[|p| - 1].name == n {
        i := |p| - 1;
      } else if exists j :: 0 <= j < |p| && p[j].name == n {
        var j :| 0 <= j < |p| && p[j].name == n;
        assert init[j] == p[j];
      }
    }
  }
  /** The `i`-th partner carries the name tag+name of the `i`-th target, from the list when it has that name. */
  lemma MirrorEntry(p: seq<ProtId>, tag: string, k: ProtId)
    ensures MirrorOf(NameMap(p), tag, k).name == tag + k.name
    ensures tag + k.name in Names(p) ==> MirrorOf(NameMap(p), tag, k) in p
    ensures tag + k.name !in Names(p) ==> MirrorOf(NameMap(p), tag, k) == Placeholder(tag + k.name)
  {
    var name := tag + k.name;
    var j := NameMapLast(p, name);
    if name in Names(p) {
      var i :| 0 <= i < |p| && p[i].name == name;
    } else {
      assert forall i :: 0 <= i < |p| ==> p[i].name != name;
    }
  }

  /** The mirror is the targets followed by one partner per target: twice as many entries as targets. */
  lemma MirrorShape(p: seq<ProtId>, tag: string, isDecoy: string -> bool)
    ensures var r, targets := MirrorList(p, tag, isDecoy), Filter(p, TargetOf(isDecoy));
      && |r| == 2 * |targets|
      && r[..|targets|] == targets
      && (forall i :: 0 <= i < |targets| ==> r[|targets| + i].name == tag + targets[i].name)
  {
    var r, targets := MirrorList(p, tag, isDecoy), Filter(p, TargetOf(isDecoy));
    forall i | 0 <= i < |targets| ensures r[|targets| + i].name == tag + targets[i].name {
      MirrorEntry(p, tag, targets[i]);
    }
  }

  /** Each partner is the protein of that name from the list, or a placeholder when the list has none. */
  lemma MirrorPartners(p: seq<ProtId>, tag: string, isDecoy: string -> bool)
    ensures var r, targets := MirrorList(p, tag, isDecoy), Filter(p, TargetOf(isDecoy));
      && (forall i :: 0 <= i < |targets| ==> tag + targets[i].name in Names(p) ==> r[|targets| + i] in p)
      && (forall i :: 0 <= i < |targets| ==>
            tag + targets[i].name !in Names(p) ==> r[|targets| + i] == Placeholder(tag + targets[i].name))
  {
    var r, targets := MirrorList(p, tag, isDecoy), Filter(p, TargetOf(isDecoy));
    forall i | 0 <= i < |targets|
      ensures tag + targets[i].name in Names(p) ==> r[|targets| + i] in p
      ensures tag + targets[i].name !in Names(p) ==> r[|targets| + i] == Placeholder(tag + targets[i].name)
    {
      MirrorEntry(p, tag, targets[i]);
    }
  }

  /** A decoy of the input that is no target's partner is not in the mirror. */
  lemma MirrorDropsUnpaired(p: seq<ProtId>, tag: string, isDecoy: string -> bool, d: ProtId)
    requires d in p && isDecoy(d.name)
    requires forall t :: t in Filter(p, TargetOf(isDecoy)) ==> d.name != tag + t.name
    ensures d !in MirrorList(p, tag, isDecoy)
  {
    var r, targets := MirrorList(p, tag, isDecoy), Filter(p, TargetOf(isDecoy));
    var n := |targets|;
    forall k | 0 <= k < |r| ensures r[k] != d {
      if k < n {
        assert r[k] in targets;
      } else {
        MirrorEntry(p, tag, targets[k - n]);
        assert targets[k - n] in targets;
      }
    }
  }
}
