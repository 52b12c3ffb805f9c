/** Price levels of one side of a book, best first: the sorted-sequence view that the fast
    book keeps in arrays and the sorted-map view that the simple book keeps. */
module PriceLevels {
  import opened Arithmetic
  import Maps

  const MAX_DEPTH: nat := 20
  const HOT_DEPTH: nat := 5

  datatype Level = Level(price: int, quantity: int)
  datatype Side = Bid | Ask

  /** Bids are kept highest price first, asks lowest price first. */
  predicate Better(side: Side, p: int, q: int) {
    if side.Bid? then p > q else p < q
  }

  ghost predicate Sorted(side: Side, s: seq<Level>) {
    forall i, j :: 0 <= i < j < |s| ==> Better(side, s[i].price, s[j].price)
  }

  ghost predicate Positive(s: seq<Level>) {
    forall i :: 0 <= i < |s| ==> s[i].quantity > 0
  }

  function Take(s: seq<Level>, n: nat): seq<Level> { s[..Min(n, |s|)] }

  /** Where p belongs: the number of leading levels with a better price. */
  ghost function Rank(side: Side, s: seq<Level>, p: int): (r: nat)
    ensures r <= |s|
    ensures forall i :: 0 <= i < r ==> Better(side, s[i].price, p)
    ensures r < |s| ==> !Better(side, s[r].price, p)
  {
    if s == [] || !Better(side, s[0].price, p) then 0 else 1 + Rank(side, s[1..], p)
  }

  ghost predicate Has(side: Side, s: seq<Level>, p: int) {
    var r := Rank(side, s, p);
    r < |s| && s[r].price == p
  }

  /** The side after a tick: set or remove the level at p, then keep the best MAX_DEPTH. */
  ghost function Put(side: Side, s: seq<Level>, p: int, q: int): seq<Level> {
    var r := Rank(side, s, p);
    if Has(side, s, p) then s[r := Level(p, q)] else s[..r] + [Level(p, q)] + s[r..]
  }

  ghost function Drop(side: Side, s: seq<Level>, p: int): seq<Level> {
    var r := Rank(side, s, p);
    if Has(side, s, p) then s[..r] + s[r + 1..] else s
  }

  ghost function TickSide(side: Side, s: seq<Level>, p: int, q: int): seq<Level> {
    if q > 0 then Take(Put(side, s, p, q), MAX_DEPTH) else Drop(side, s, p)
  }

  // ----- facts about sorted sides -----

  lemma {:induction false} RankIs(side: Side, s: seq<Level>, p: int, r: nat)
    requires Sorted(side, s) && r <= |s|
    requires forall i :: 0 <= i < r ==> Better(side, s[i].price, p)
    requires r < |s| ==> !Better(side, s[r].price, p)
    ensures Rank(side, s, p) == r
  {
    var k := Rank(side, s, p);
    assert !(k < r) && !(r < k);
  }

  lemma PutKeeps(side: Side, s: seq<Level>, p: int, q: int)
    requires Sorted(side, s)
    ensures Sorted(side, Put(side, s, p, q))
    ensures Positive(s) && q > 0 ==> Positive(Put(side, s, p, q))
  {
    var r := Rank(side, s, p);
    if !Has(side, s, p) {
      forall i | r <= i < |s|
        ensures Better(side, p, s[i].price)
      {
        assert i > r ==> Better(side, s[r].price, s[i].price);
      }
      SpliceSorted(side, s, r, Level(p, q));
    }
  }

  lemma SpliceSorted(side: Side, s: seq<Level>, r: nat, x: Level)
    requires Sorted(side, s) && r <= |s|
    requires forall i :: 0 <= i < r ==> Better(side, s[i].price, x.price)
    requires forall i :: r <= i < |s| ==> Better(side, x.price, s[i].price)
    ensures Sorted(side, s[..r] + [x] + s[r..])
  {
    var s' := s[..r] + [x] + s[r..];
    forall i, j | 0 <= i < j < |s'|
      ensures Better(side, s'[i].price, s'[j].price)
    {
      assert s'[i] == if i < r then s[i] else if i == r then x else s[i - 1];
      assert s'[j] == if j < r then s[j] else if j == r then x else s[j - 1];
    }
  }

  lemma DropKeeps(side: Side, s: seq<Level>, p: int)
    requires Sorted(side, s)
    ensures Sorted(side, Drop(side, s, p)) && |Drop(side, s, p)| <= |s|
    ensures Positive(s) ==> Positive(Drop(side, s, p))
  {
    var r, s' := Rank(side, s, p), Drop(side, s, p);
    if Has(side, s, p) {
      assert forall i :: 0 <= i < |s'| ==> s'[i] == s[if i < r then i else i + 1];
    }
  }

  lemma TickSideKeeps(side: Side, s: seq<Level>, p: int, q: int)
    requires Sorted(side, s) && Positive(s) && |s| <= MAX_DEPTH
    ensures var s' := TickSide(side, s, p, q);
      Sorted(side, s') && Positive(s') && |s'| <= MAX_DEPTH
  {
    if q > 0 { PutKeeps(side, s, p, q); } else { DropKeeps(side, s, p); }
  }

  // ----- sorted maps -----

  ghost predicate IsBest(side: Side, m: map<int, int>, b: int) {
    b in m && forall k :: k in m && k != b ==> Better(side, b, k)
  }

  ghost predicate IsWorst(side: Side, m: map<int, int>, w: int) {
    w in m && forall k :: k in m && k != w ==> Better(side, k, w)
  }

  lemma {:induction false} EndsExist(side: Side, m: map<int, int>)
    requires |m| > 0
    ensures (exists b :: IsBest(side, m, b)) && (exists w :: IsWorst(side, m, w))
    decreases |m|
  {
    var k := Maps.AnyKey(m);
    var rest := m - {k};
    assert rest.Keys == m.Keys - {k};
    assert m.Keys == rest.Keys + {k};
    if |rest| == 0 {
      assert IsBest(side, m, k) && IsWorst(side, m, k);
    } else {
      EndsExist(side, rest);
      var b :| IsBest(side, rest, b);
      var w :| IsWorst(side, rest, w);
      assert IsBest(side, m, if Better(side, k, b) then k else b);
      assert IsWorst(side, m, if Better(side, w, k) then k else w);
    }
  }

  ghost function Best(side: Side, m: map<int, int>): (b: int)
    requires |m| > 0
    ensures IsBest(side, m, b)
  {
    EndsExist(side, m);
    var b :| IsBest(side, m, b);
    b
  }

  ghost function Worst(side: Side, m: map<int, int>): (w: int)
    requires |m| > 0
    ensures IsWorst(side, m, w)
  {
    EndsExist(side, m);
    var w :| IsWorst(side, m, w);
    w
  }

  /** In-order traversal of a sorted map. */
  ghost function Enumerate(side: Side, m: map<int, int>): (s: seq<Level>)
    ensures |s| == |m|
    decreases |m|
  {
    if |m| == 0 then []
    else
      var b := Best(side, m);
      assert (m - {b}).Keys == m.Keys - {b};
      [Level(b, m[b])] + Enumerate(side, m - {b})
  }

  /** Erase the worst level until at most MAX_DEPTH are left. */
  ghost function Trim(side: Side, m: map<int, int>): (r: map<int, int>)
    ensures |r| <= MAX_DEPTH
    decreases |m|
  {
    if |m| <= MAX_DEPTH then m
    else
      var w := Worst(side, m);
      assert (m - {w}).Keys == m.Keys - {w};
      Trim(side, m - {w})
  }

  ghost function TickMap(side: Side, m: map<int, int>, p: int, q: int): map<int, int> {
    Trim(side, if q > 0 then m[p := q] else m - {p})
  }

  // ----- the two views agree -----

  ghost predicate Occurs(s: seq<Level>, p: int) {
    exists i :: 0 <= i < |s| && s[i].price == p
  }

  lemma OccursIsHas(side: Side, s: seq<Level>, p: int)
    requires Sorted(side, s)
    ensures Occurs(s, p) <==> Has(side, s, p)
  {
    if Occurs(s, p) {
      var i :| 0 <= i < |s| && s[i].price == p;
      RankIs(side, s, p, i);
    }
  }

  ghost predicate Represents(side: Side, s: seq<Level>, m: map<int, int>) {
    && Sorted(side, s)
    && (forall i :: 0 <= i < |s| ==> s[i].price in m && m[s[i].price] == s[i].quantity)
    && (forall p :: p in m ==> Occurs(s, p))
  }

  lemma TailRepresents(side: Side, s: seq<Level>, m: map<int, int>)
    requires Represents(side, s, m) && s != []
    ensures |m| > 0 && IsBest(side, m, s[0].price)
    ensures Represents(side, s[1..], m - {s[0].price})
  {
    var b := s[0].price;
    assert b in m;
    assert m.Keys != {};
    forall p | p in m && p != b
      ensures Better(side, b, p) && Occurs(s[1..], p)
    {
      assert Occurs(s, p);
      var i :| 0 <= i < |s| && s[i].price == p;
      assert s[1..][i - 1] == s[i];
    }
  }

  /** A sorted side that represents a map is its in-order traversal. */
  lemma {:induction false} RepresentsIsEnumerate(side: Side, s: seq<Level>, m: map<int, int>)
    requires Represents(side, s, m)
    ensures s == Enumerate(side, m)
    decreases |s|
  {
    if s == [] {
      if |m| > 0 {
        var p := Maps.AnyKey(m);
      }
    } else {
      TailRepresents(side, s, m);
      RepresentsIsEnumerate(side, s[1..], m - {s[0].price});
      var b := Best(side, m);
      assert b == s[0].price;
      assert s == [Level(b, m[b])] + s[1..];
    }
  }

  lemma RepresentsSize(side: Side, s: seq<Level>, m: map<int, int>)
    requires Represents(side, s, m)
    ensures |s| == |m|
  {
    RepresentsIsEnumerate(side, s, m);
  }

  /** And every map is represented by its traversal. */
  lemma {:induction false} EnumerateRepresents(side: Side, m: map<int, int>)
    ensures Represents(side, Enumerate(side, m), m)
    decreases |m|
  {
    if |m| > 0 {
      var b := Best(side, m);
      var rest := m - {b};
      assert rest.Keys == m.Keys - {b};
      EnumerateRepresents(side, rest);
      var t := Enumerate(side, rest);
      var s := [Level(b, m[b])] + t;
      forall i, j | 0 <= i < j < |s|
        ensures Better(side, s[i].price, s[j].price)
      {
        assert s[j] == t[j - 1];
        if i > 0 { assert s[i] == t[i - 1]; }
      }
      forall p | p in m
        ensures Occurs(s, p)
      {
        assert s[0].price == b;
        if p != b {
          assert Occurs(t, p);
          var i :| 0 <= i < |t| && t[i].price == p;
          assert s[i + 1] == t[i];
        }
      }
    }
  }

  // ----- the same in plain comparisons -----

  /** Highest bid first, lowest ask first. */
  ghost predicate Ladder(bids: seq<Level>, asks: seq<Level>) {
    && (forall i, j :: 0 <= i < j < |bids| ==> bids[i].price > bids[j].price)
    && (forall i, j :: 0 <= i < j < |asks| ==> asks[i].price < asks[j].price)
    && (forall i :: 0 <= i < |bids| ==> bids[i].quantity > 0) && (forall i :: 0 <= i < |asks| ==> asks[i].quantity > 0)
    && |bids| <= 20 && |asks| <= 20
  }

  /** The best bid is the highest, the best ask the lowest. */
  ghost predicate IsTop(side: Side, m: map<int, int>, p: int) {
    p in m && forall k :: k in m ==> if side.Bid? then k <= p else p <= k
  }

  lemma {:induction false} BestIsTop(side: Side, m: map<int, int>)
    requires |m| > 0
    ensures IsTop(side, m, Best(side, m)) && Enumerate(side, m)[0] == Level(Best(side, m), m[Best(side, m)])
  {
  }

  /** Trimming keeps the twenty highest bids or the twenty lowest asks, with their quantities. */
  lemma {:induction false} TrimKeepsTwenty(side: Side, m: map<int, int>)
    ensures var r := Trim(side, m);
      && |r| == Min(|m|, 20) && (forall k :: k in r ==> k in m && r[k] == m[k])
      && forall k, d :: k in r && d in m && d !in r ==> if side.Bid? then d < k else d > k
    decreases |m|
  {
    if |m| > MAX_DEPTH {
      var w := Worst(side, m);
      assert (m - {w}).Keys == m.Keys - {w};
      TrimKeepsTwenty(side, m - {w});
    }
  }
}
