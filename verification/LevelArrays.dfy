/** In-place maintenance of one sorted side: binary search, shift, insert and remove. The
    source writes each twice, once per direction of the price comparison. */
module LevelArrays {
  import opened Arithmetic
  import opened PriceLevels
  import opened Memory
  import opened ColdLayout

  /** Binary search for the first level whose price is not better than the given one. */
  method FindSlot(side: Side, levels: array<Level>, count: nat, price: int) returns (lo: nat)
    requires count <= levels.Length && Sorted(side, levels[..count])
    ensures lo == Rank(side, levels[..count], price)
  {
    ghost var s := levels[..count];
    lo := 0;
    var hi := count;
    while lo < hi
      invariant lo <= hi <= count
      invariant forall i :: 0 <= i < lo ==> Better(side, s[i].price, price)
      invariant forall i :: hi <= i < count ==> !Better(side, s[i].price, price)
    {
      var mid := lo + (hi - lo) / 2;
      assert levels[mid] == s[mid];
      if Better(side, levels[mid].price, price) {
        lo := mid + 1;
      } else {
        hi := mid;
      }
    }
    RankIs(side, s, price, lo);
  }

  /** Moves s[pos..n] up by one place. */
  method ShiftUp(side: Side, levels: array<Level>, ghost s: seq<Level>, n: nat, pos: nat)
    returns (ghost stores: seq<Write>)
    requires pos <= n < levels.Length && n <= |s| && levels[..n] == s[..n]
    modifies levels
    ensures forall k :: 0 <= k < pos ==> levels[k] == s[k]
    ensures forall k :: pos < k <= n ==> levels[k] == s[k - 1]
    ensures stores == ShiftUpWrites(side, s, n, pos)
  {
    stores := [];
    assert forall k :: 0 <= k < n ==> levels[k] == s[..n][k];
    for i := n downto pos
      invariant forall k :: 0 <= k < i ==> levels[k] == s[k]
      invariant forall k :: i < k <= n ==> levels[k] == s[k - 1]
      invariant stores + ShiftUpWrites(side, s, i, pos) == ShiftUpWrites(side, s, n, pos)
    {
      ghost var level := SetLevel(side, i + 1, s[i]);
      Regroup(stores, level, ShiftUpWrites(side, s, i, pos));
      levels[i + 1] := levels[i];
      stores := stores + level;
    }
  }

  /** insertBidLevel / insertAskLevel: set the level at price, making room for it in order. A
      full side loses its worst level, or refuses a price worse than all it holds. Returns
      the new count and the affected position, or -1; stores lists the words written. */
  method Insert(side: Side, levels: array<Level>, count: nat, price: int, quantity: int)
    returns (n: nat, pos: int, ghost stores: seq<Write>)
    requires count <= levels.Length == MAX_DEPTH && Sorted(side, levels[..count])
    modifies levels
    ensures n <= MAX_DEPTH
    ensures levels[..n] == Take(Put(side, old(levels[..count]), price, quantity), MAX_DEPTH)
    ensures pos < 0 ==> levels[..n] == old(levels[..count])
    ensures pos >= 0 ==> pos <= count && pos <= n && levels[..pos] == old(levels[..count])[..pos]
    ensures stores == InsertWrites(side, old(levels[..count]), price, quantity)
  {
    ghost var s := levels[..count];
    var lo := FindSlot(side, levels, count, price);
    if lo < count && levels[lo].price == price {
      levels[lo] := levels[lo].(quantity := quantity);
      ReplaceIsPut(side, s, lo, price, quantity);
      assert levels[..count] == s[lo := Level(price, quantity)];
      return count, lo, [(QuantityCell(side, lo), quantity)];
    }
    SpliceIsPut(side, s, lo, price, quantity);
    if lo >= MAX_DEPTH {
      return count, -1, [];
    }
    n, stores := InsertAt(side, levels, count, lo, Level(price, quantity));
    pos := lo;
  }

  lemma {:induction false} ReplaceIsPut(side: Side, s: seq<Level>, r: nat, p: int, q: int)
    requires r == Rank(side, s, p) && r < |s| <= MAX_DEPTH && s[r].price == p
    ensures Take(Put(side, s, p, q), MAX_DEPTH) == s[r := Level(p, q)]
    ensures InsertWrites(side, s, p, q) == [(QuantityCell(side, r), q)]
  {
  }

  lemma {:induction false} SpliceIsPut(side: Side, s: seq<Level>, r: nat, p: int, q: int)
    requires r == Rank(side, s, p) && (r == |s| || s[r].price != p) && |s| <= MAX_DEPTH
    ensures Put(side, s, p, q) == s[..r] + [Level(p, q)] + s[r..]
    ensures r >= MAX_DEPTH ==> Take(Put(side, s, p, q), MAX_DEPTH) == s && InsertWrites(side, s, p, q) == []
    ensures r < MAX_DEPTH ==> InsertWrites(side, s, p, q) == SpliceWrites(side, s, r, Level(p, q))
  {
  }

  /** The part of insert that makes room. */
  method InsertAt(side: Side, levels: array<Level>, count: nat, lo: nat, x: Level)
    returns (n: nat, ghost stores: seq<Write>)
    requires lo <= count <= levels.Length == MAX_DEPTH && lo < MAX_DEPTH
    modifies levels
    ensures n == Min(count, MAX_DEPTH - 1) + 1
    ensures levels[..lo] == old(levels[..count])[..lo]
    ensures var s := old(levels[..count]); levels[..n] == Take(s[..lo] + [x] + s[lo..], MAX_DEPTH)
    ensures stores == SpliceWrites(side, old(levels[..count]), lo, x)
  {
    ghost var s := levels[..count];
    n := count;
    if n >= MAX_DEPTH {
      n := MAX_DEPTH - 1;
    }
    assert levels[..n] == s[..n];
    ghost var shifts := ShiftUp(side, levels, s, n, lo);
    ghost var moved := levels[..];
    levels[lo] := x;
    stores := RoomWrites(side, s) + shifts + SetLevel(side, lo, x) + [(CountCell(side), n + 1)];
    CutSplice(moved, s, n, lo, x);
    assert levels[..] == moved[lo := x];
    n := n + 1;
  }

  lemma CutSplice(moved: seq<Level>, s: seq<Level>, n: nat, lo: nat, x: Level)
    requires lo <= n <= |s| <= n + 1 <= MAX_DEPTH == |moved| && (|s| == n + 1 ==> n + 1 == MAX_DEPTH)
    requires forall k :: 0 <= k < lo ==> moved[k] == s[k]
    requires forall k :: lo < k <= n ==> moved[k] == s[k - 1]
    ensures moved[lo := x][..n + 1] == Take(s[..lo] + [x] + s[lo..], MAX_DEPTH)
    ensures moved[lo := x][..lo] == s[..lo]
  {
  }

  /** Moves s[pos + 1..] down by one place. */
  method ShiftDown(side: Side, levels: array<Level>, ghost s: seq<Level>, count: nat, pos: nat)
    returns (ghost stores: seq<Write>)
    requires pos < count <= levels.Length && levels[..count] == s
    modifies levels
    ensures forall k :: 0 <= k < pos ==> levels[k] == s[k]
    ensures forall k :: pos <= k < count - 1 ==> levels[k] == s[k + 1]
    ensures stores == ShiftDownWrites(side, s, pos)
  {
    stores := [];
    assert forall k :: 0 <= k < count ==> levels[k] == s[k];
    for j := pos to count - 1
      invariant forall k :: 0 <= k < pos ==> levels[k] == s[k]
      invariant forall k :: pos <= k < j ==> levels[k] == s[k + 1]
      invariant forall k :: j <= k < count ==> levels[k] == s[k]
      invariant stores + ShiftDownWrites(side, s, j) == ShiftDownWrites(side, s, pos)
    {
      ghost var level := SetLevel(side, j, s[j + 1]);
      Regroup(stores, level, ShiftDownWrites(side, s, j + 1));
      levels[j] := levels[j + 1];
      stores := stores + level;
    }
  }

  /** removeBidLevel / removeAskLevel: binary search for the price, then close the gap.
      Returns the new count and the removed position, or -1; stores lists the words written. */
  method Remove(side: Side, levels: array<Level>, count: nat, price: int)
    returns (n: nat, pos: int, ghost stores: seq<Write>)
    requires count <= levels.Length && Sorted(side, levels[..count])
    modifies levels
    ensures n <= count && levels[..n] == Drop(side, old(levels[..count]), price)
    ensures pos < 0 ==> levels[..n] == old(levels[..count])
    ensures pos >= 0 ==> pos <= n < count && levels[..pos] == old(levels[..count])[..pos]
    ensures stores == RemoveWrites(side, old(levels[..count]), price)
  {
    ghost var s := levels[..count];
    var lo, hi := 0, count;
    while lo < hi
      invariant lo <= hi <= count && levels[..count] == s
      invariant forall i :: 0 <= i < lo ==> Better(side, s[i].price, price)
      invariant forall i :: hi <= i < count ==> Better(side, price, s[i].price)
    {
      var mid := lo + (hi - lo) / 2;
      assert levels[mid] == s[mid];
      if Better(side, levels[mid].price, price) {
        lo := mid + 1;
      } else if Better(side, price, levels[mid].price) {
        hi := mid;
      } else {
        stores := RemoveAt(side, levels, s, count, price, mid);
        return count - 1, mid, stores;
      }
    }
    RankIs(side, s, price, lo);
    return count, -1, [];
  }

  /** The part of remove that closes the gap. */
  method RemoveAt(side: Side, levels: array<Level>, ghost s: seq<Level>, count: nat, ghost price: int, mid: nat)
    returns (ghost stores: seq<Write>)
    requires mid < count <= levels.Length && levels[..count] == s && Sorted(side, s) && s[mid].price == price
    modifies levels
    ensures levels[..count - 1] == Drop(side, s, price) && levels[..mid] == s[..mid]
    ensures stores == RemoveWrites(side, s, price)
  {
    RankIs(side, s, price, mid);
    ghost var shifts := ShiftDown(side, levels, s, count, mid);
    assert levels[..count - 1] == s[..mid] + s[mid + 1..];
    stores := shifts + [(CountCell(side), count - 1)];
  }

  /** One tick on one side: a positive quantity sets the level, any other removes it. A
      position outside the top HOT_DEPTH means the top levels are as they were. */
  method Tick(side: Side, levels: array<Level>, count: nat, price: int, quantity: int)
    returns (n: nat, pos: int, ghost stores: seq<Write>)
    requires count <= levels.Length == MAX_DEPTH && Sorted(side, levels[..count])
    modifies levels
    ensures n <= MAX_DEPTH && levels[..n] == TickSide(side, old(levels[..count]), price, quantity)
    ensures !(0 <= pos < HOT_DEPTH) ==> Take(levels[..n], HOT_DEPTH) == Take(old(levels[..count]), HOT_DEPTH)
    ensures stores == SideTickWrites(side, old(levels[..count]), price, quantity)
  {
    ghost var s := levels[..count];
    if quantity > 0 {
      n, pos, stores := Insert(side, levels, count, price, quantity);
    } else {
      n, pos, stores := Remove(side, levels, count, price);
    }
    PrefixKept(levels, s, n, pos);
    TopUnchanged(s, levels[..n], pos);
  }

  lemma PrefixKept(levels: array<Level>, s: seq<Level>, n: nat, pos: int)
    requires n <= levels.Length
    requires pos >= 0 ==> pos <= |s| && pos <= n && levels[..pos] == s[..pos]
    ensures pos >= 0 ==> levels[..n][..pos] == s[..pos]
  {
  }

  lemma TopUnchanged(s: seq<Level>, s': seq<Level>, pos: int)
    requires pos < 0 ==> s == s'
    requires pos >= 0 ==> pos <= |s| && pos <= |s'| && s[..pos] == s'[..pos]
    ensures !(0 <= pos < HOT_DEPTH) ==> Take(s', HOT_DEPTH) == Take(s, HOT_DEPTH)
  {
    if pos >= HOT_DEPTH {
      assert s[..HOT_DEPTH] == s[..pos][..HOT_DEPTH] == s'[..pos][..HOT_DEPTH];
    }
  }
}
