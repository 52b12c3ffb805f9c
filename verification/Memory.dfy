/** Words of shared memory and sequences of word stores. */
module Memory {
  type Write = (nat, int)

  /** Memory after a sequence of word stores; a store outside the structure has no effect. */
  ghost function Store(cells: seq<int>, ws: seq<Write>): (r: seq<int>)
    ensures |r| == |cells|
  {
    if ws == [] then cells
    else
      var before := Store(cells, ws[..|ws| - 1]);
      var w := ws[|ws| - 1];
      if w.0 < |cells| then before[w.0 := w.1] else before
  }

  lemma {:induction false} StoreAppend(cells: seq<int>, a: seq<Write>, b: seq<Write>)
    ensures Store(cells, a + b) == Store(Store(cells, a), b)
  {
    if b == [] {
      assert a + b == a;
    } else {
      var n := |b| - 1;
      StoreAppend(cells, a, b[..n]);
      assert (a + b)[..|a + b| - 1] == a + b[..n];
    }
  }

  lemma {:induction false} StoreTwo(cells: seq<int>, ws: seq<Write>, w: Write, v: Write)
    requires w.0 < |cells| && v.0 < |cells|
    ensures Store(cells, ws + [w, v]) == Store(cells, ws)[w.0 := w.1][v.0 := v.1]
  {
    assert (ws + [w, v])[..|ws| + 1] == ws + [w];
    assert (ws + [w])[..|ws|] == ws;
  }

  lemma {:induction false} StoreOne(cells: seq<int>, w: Write)
    requires w.0 < |cells|
    ensures Store(cells, [w]) == cells[w.0 := w.1]
  {
    assert [w][..0] == [];
  }

  /** A word that no store names keeps its value. */
  lemma {:induction false} StoreMisses(cells: seq<int>, ws: seq<Write>, c: nat)
    requires c < |cells| && forall i :: 0 <= i < |ws| ==> ws[i].0 != c
    ensures Store(cells, ws)[c] == cells[c]
  {
    if ws != [] { StoreMisses(cells, ws[..|ws| - 1], c); }
  }

  /** A word-by-word copy to the start of a structure, as memcpy does it. */
  ghost function CopyOf(vals: seq<int>): seq<Write> {
    seq(|vals|, i requires 0 <= i < |vals| => (i, vals[i]))
  }

  lemma {:induction false} StoreCopy(cells: seq<int>, vals: seq<int>)
    requires |vals| <= |cells|
    ensures Store(cells, CopyOf(vals)) == vals + cells[|vals|..]
  {
    if vals != [] {
      var n := |vals| - 1;
      StoreCopy(cells, vals[..n]);
      assert CopyOf(vals)[..n] == CopyOf(vals[..n]);
    }
  }

  lemma Regroup<T>(a: seq<T>, b: seq<T>, c: seq<T>)
    ensures a + b + c == a + (b + c)
  {
  }
}
