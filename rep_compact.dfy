/**
 * The in-place list updates of lib/rep/updater.go: rewriting every entry (`for i := range ...`),
 * and the compaction it uses to drop entries (updater.go:318-366): collect the indices to keep, copy
 * each kept entry to the front, then cut the slice to the kept length.
 */
module InPlace {
  import opened Seqs

  /** The entries at `idx`, in the order of `idx`. */
  function AtIndices<T>(s: seq<T>, idx: seq<nat>): seq<T>
    requires forall j :: 0 <= j < |idx| ==> idx[j] < |s|
  {
    seq(|idx|, j requires 0 <= j < |idx| => s[idx[j]])
  }

  /** The first loop: the indices of the entries to keep, in increasing order. */
  method KeptIndices<T>(s: seq<T>, keep: T -> bool) returns (idx: seq<nat>)
    ensures forall j :: 0 <= j < |idx| ==> j <= idx[j] < |s|
    ensures forall j, k :: 0 <= j < k < |idx| ==> idx[j] < idx[k]
    ensures AtIndices(s, idx) == Filter(s, keep)
  {
    idx := [];
    for i := 0 to |s|
      invariant |idx| <= i
      invariant forall j :: 0 <= j < |idx| ==> j <= idx[j] < i
      invariant forall j, k :: 0 <= j < k < |idx| ==> idx[j] < idx[k]
      invariant AtIndices(s, idx) == Filter(s[..i], keep)
    {
      KeepStep(s, idx, i, keep);
      if keep(s[i]) {
        idx := idx + [i];
      }
    }
    assert s[..|s|] == s;
  }

  /** The keys of the entries of `s`. */
  function KeySet<T, K>(s: seq<T>, key: T -> K): set<K>
  {
    set i | 0 <= i < |s| :: key(s[i])
  }

  lemma KeySetSnoc<T, K>(s: seq<T>, x: T, key: T -> K)
    ensures KeySet(s + [x], key) == KeySet(s, key) + {key(x)}
  {
    var t := s + [x];
    forall k | k in KeySet(t, key) ensures k in KeySet(s, key) || k == key(x) {
      var i :| 0 <= i < |t| && key(t[i]) == k;
      if i < |s| {
        assert t[i] == s[i];
      }
    }
    forall k | k in KeySet(s, key) ensures k in KeySet(t, key) {
      var i :| 0 <= i < |s| && key(s[i]) == k;
      assert t[i] == s[i];
    }
    assert key(t[|s|]) == key(x);
    assert forall k :: k in KeySet(t, key) <==> k in KeySet(s, key) || k == key(x);
  }

  /** The first loop, also collecting the keys of the kept entries (the protein index). */
  method KeptIndicesAndKeys<T, K>(s: seq<T>, keep: T -> bool, key: T -> K) returns (idx: seq<nat>, keys: set<K>)
    ensures forall j :: 0 <= j < |idx| ==> j <= idx[j] < |s|
    ensures AtIndices(s, idx) == Filter(s, keep)
    ensures keys == KeySet(Filter(s, keep), key)
  {
    idx := [];
    keys := {};
    for i := 0 to |s|
      invariant |idx| <= i
      invariant forall j :: 0 <= j < |idx| ==> j <= idx[j] < i
      invariant AtIndices(s, idx) == Filter(s[..i], keep)
      invariant keys == KeySet(AtIndices(s, idx), key)
    {
      KeepStep(s, idx, i, keep);
      if keep(s[i]) {
        KeyStep(s, idx, i, key);
        keys := keys + {key(s[i])};
        idx := idx + [i];
      }
    }
    assert s[..|s|] == s;
  }

  /** Appending kept entry `i` adds its key to the key set. */
  lemma KeyStep<T, K>(s: seq<T>, idx: seq<nat>, i: nat, key: T -> K)
    requires i < |s| && forall j :: 0 <= j < |idx| ==> idx[j] < |s|
    ensures KeySet(AtIndices(s, idx + [i]), key) == KeySet(AtIndices(s, idx), key) + {key(s[i])}
  {
    AtIndicesSnoc(s, idx, i);
    KeySetSnoc(AtIndices(s, idx), s[i], key);
  }

  /**
   * The second loop and the cut: `s[j] = s[idx[j]]` for each `j` in turn, then the first `|idx|`
   * entries. No entry is overwritten before it is copied, because `idx[j] >= j`.
   */
  method MoveToFront<T>(s: seq<T>, idx: seq<nat>) returns (r: seq<T>)
    requires forall j :: 0 <= j < |idx| ==> j <= idx[j] < |s|
    ensures r == AtIndices(s, idx)
  {
    var t := s;
    for j := 0 to |idx|
      invariant |t| == |s|
      invariant forall k :: 0 <= k < j ==> t[k] == s[idx[k]]
      invariant forall k :: j <= k < |s| ==> t[k] == s[k]
    {
      t := t[j := t[idx[j]]];
    }
    if |idx| > 0 {
      assert idx[|idx| - 1] < |s|;
    }
    r := t[..|idx|];
  }

  /** Keeps the entries that satisfy `keep`, in their original relative order. */
  method Compact<T>(s: seq<T>, keep: T -> bool) returns (r: seq<T>)
    ensures r == Filter(s, keep)
  {
    var idx := KeptIndices(s, keep);
    r := MoveToFront(s, idx);
  }

  lemma AtIndicesSnoc<T>(s: seq<T>, idx: seq<nat>, i: nat)
    requires i < |s| && forall j :: 0 <= j < |idx| ==> idx[j] < |s|
    ensures AtIndices(s, idx + [i]) == AtIndices(s, idx) + [s[i]]
  {
  }

  /** One step of the index loop: entry `i` is appended to the kept entries exactly when it is kept. */
  lemma KeepStep<T>(s: seq<T>, idx: seq<nat>, i: nat, keep: T -> bool)
    requires i < |s| && forall j :: 0 <= j < |idx| ==> idx[j] < |s|
    requires AtIndices(s, idx) == Filter(s[..i], keep)
    ensures keep(s[i]) ==> AtIndices(s, idx + [i]) == Filter(s[..i + 1], keep)
    ensures !keep(s[i]) ==> AtIndices(s, idx) == Filter(s[..i + 1], keep)
  {
    assert s[..i + 1][..i] == s[..i];
    AtIndicesSnoc(s, idx, i);
  }

  /** `for i := range s { s[i] = f(s[i]) }`. */
  method Rewrite<T>(s: seq<T>, f: T -> T) returns (r: seq<T>)
    ensures |r| == |s| && forall i :: 0 <= i < |s| ==> r[i] == f(s[i])
  {
    r := s;
    for i := 0 to |s|
      invariant |r| == |s|
      invariant forall k :: 0 <= k < i ==> r[k] == f(s[k])
      invariant forall k :: i <= k < |s| ==> r[k] == s[k]
    {
      r := r[i := f(r[i])];
    }
  }
}
