/** The Fenwick index of `src/store/tool_span_index/hierarchy.rs`: prefix maxima
    over descending end ranks, with the bit tricks of the source. */
module ParentIndex {
  import opened Options

  // ---- Bits ----

  /** Bitwise and of two naturals. */
  function And(a: nat, b: nat): nat {
    if a == 0 || b == 0 then 0 else (a % 2) * (b % 2) + 2 * And(a / 2, b / 2)
  }

  function Pow2(w: nat): nat {
    if w == 0 then 1 else 2 * Pow2(w - 1)
  }

  const WORD := Pow2(64)

  /** `wrapping_neg` of a 64-bit word. */
  function WrappingNeg(r: nat): nat
    requires r < WORD
  {
    if r == 0 then 0 else WORD - r
  }

  /** `rank + (rank & rank.wrapping_neg())` */
  function NextRank(r: nat): nat
    requires r < WORD
  {
    r + And(r, WrappingNeg(r))
  }

  /** `rank & (rank - 1)` */
  function PrevRank(r: nat): nat
    requires r > 0
  {
    And(r, r - 1)
  }

  /** The lowest set bit. */
  function LowBit(r: nat): (b: nat)
    requires r > 0
    ensures 1 <= b <= r
  {
    if r % 2 == 1 then 1 else 2 * LowBit(r / 2)
  }

  lemma {:induction false} AndSelf(m: nat)
    ensures And(m, m) == m
  {
    if m > 0 {
      assert And(m, m) == (m % 2) * (m % 2) + 2 * And(m / 2, m / 2);
      hide And;
      AndSelf(m / 2);
      BitSquare(m % 2);
    }
  }

  lemma BitSquare(b: nat)
    requires b < 2
    ensures b * b == b
  {
  }

  lemma {:induction false} AndComplement(m: nat, w: nat)
    requires m < Pow2(w)
    ensures And(m, Pow2(w) - 1 - m) == 0
  {
    var c := Pow2(w) - 1 - m;
    if m > 0 && c > 0 {
      assert Pow2(w) == 2 * Pow2(w - 1);
      assert c / 2 == Pow2(w - 1) - 1 - m / 2 && c % 2 == 1 - m % 2;
      AndComplement(m / 2, w - 1);
      assert (m % 2) * (c % 2) == 0;
    }
  }

  /** `r & (r - 1)` clears the lowest set bit. */
  lemma {:induction false} PrevRankClears(r: nat)
    requires r > 0
    ensures PrevRank(r) == r - LowBit(r)
  {
    var m := r / 2;
    if r % 2 == 1 {
      AndSelf(m);
      assert r == 2 * m + 1 && r - 1 == 2 * m;
    } else {
      PrevRankClears(m);
      assert r == 2 * m && r - 1 == 2 * (m - 1) + 1;
    }
  }

  lemma {:induction false} NegIsolates(r: nat, w: nat)
    requires 0 < r < Pow2(w)
    ensures And(r, Pow2(w) - r) == LowBit(r)
  {
    var m, half := r / 2, Pow2(w - 1);
    if r % 2 == 1 {
      AndComplement(m, w - 1);
      assert r == 2 * m + 1 && Pow2(w) - r == 2 * (half - 1 - m) + 1;
    } else {
      NegIsolates(m, w - 1);
      assert r == 2 * m && Pow2(w) - r == 2 * (half - m);
    }
  }

  /** `r & r.wrapping_neg()` is the lowest set bit, so `NextRank` adds it. */
  lemma NextRankAdds(r: nat)
    requires 0 < r < WORD
    ensures NextRank(r) == r + LowBit(r)
  {
    NegIsolates(r, 64);
  }

  // ---- Which ranks cover which ----

  /** Slot `r` summarises the ranks above `r - LowBit(r)` up to `r`. */
  predicate Covers(r: nat, k: nat) {
    r > 0 && r - LowBit(r) < k <= r
  }

  lemma {:induction false} LowBitGrows(r: nat)
    requires r > 0
    ensures LowBit(r + LowBit(r)) >= 2 * LowBit(r)
  {
    var m := r / 2;
    if r % 2 == 1 {
      assert (r + 1) % 2 == 0;
    } else {
      LowBitGrows(m);
      assert (r + LowBit(r)) % 2 == 0 && (r + LowBit(r)) / 2 == m + LowBit(m);
    }
  }

  lemma {:induction false} LowBitBetween(r: nat, d: nat)
    requires r > 0 && 0 < d < LowBit(r)
    ensures LowBit(r + d) == LowBit(d)
  {
    var m, e := r / 2, d / 2;
    assert r % 2 == 0;
    if d % 2 == 0 {
      LowBitBetween(m, e);
      assert (r + d) / 2 == m + e && (r + d) % 2 == 0;
    } else {
      assert (r + d) % 2 == 1;
    }
  }

  /** The next slot on the way up covers `k` too, and no slot in between does. */
  lemma UpdateChain(r: nat, k: nat)
    requires Covers(r, k)
    ensures Covers(r + LowBit(r), k)
    ensures forall s | r < s < r + LowBit(r) :: !Covers(s, k)
  {
    LowBitGrows(r);
    forall s | r < s < r + LowBit(r) ensures !Covers(s, k) {
      LowBitBetween(r, s - r);
    }
  }

  // ---- Candidates ----

  datatype Candidate = Candidate(index: nat, depth: nat)

  /** `prefer`: the deeper one, and of equal depth the earlier one. */
  function Prefer(a: Candidate, b: Candidate): Candidate {
    if a.depth > b.depth || (a.depth == b.depth && a.index <= b.index) then a else b
  }

  function Merge(left: Option<Candidate>, right: Option<Candidate>): Option<Candidate> {
    match (left, right)
    case (Some(l), Some(r)) => Some(Prefer(l, r))
    case (None, _) => right
    case (_, None) => left
  }

  /** Best candidate that was inserted at a rank above `lo` up to `hi`. */
  function BestIn(inserted: seq<(nat, Candidate)>, lo: int, hi: int): Option<Candidate> {
    if inserted == [] then None
    else
      var (rank, c) := inserted[|inserted| - 1];
      Merge(BestIn(inserted[..|inserted| - 1], lo, hi), if lo < rank <= hi then Some(c) else None)
  }

  lemma {:induction false} BestSplits(inserted: seq<(nat, Candidate)>, lo: int, mid: int, hi: int)
    requires lo <= mid <= hi
    ensures BestIn(inserted, lo, hi) == Merge(BestIn(inserted, mid, hi), BestIn(inserted, lo, mid))
  {
    if inserted != [] {
      var before := inserted[..|inserted| - 1];
      var (rank, c) := inserted[|inserted| - 1];
      BestSplits(before, lo, mid, hi);
      var x, y := BestIn(before, mid, hi), BestIn(before, lo, mid);
    }
  }

  lemma {:induction false} BestOfNothing(inserted: seq<(nat, Candidate)>, at: int)
    ensures BestIn(inserted, at, at) == None
  {
    if inserted != [] {
      BestOfNothing(inserted[..|inserted| - 1], at);
    }
  }

  lemma BelowIsNotCovered(r: nat, k: nat)
    requires r < k
    ensures !Covers(r, k)
  {
  }

  lemma CoversItself(k: nat)
    requires k > 0
    ensures Covers(k, k)
  {
  }

  /** An insertion at rank `k` changes exactly the slots that cover `k`. */
  lemma SlotAfterInsert(inserted: seq<(nat, Candidate)>, k: nat, c: Candidate, r: nat)
    requires r > 0
    ensures var lo := r - LowBit(r);
            BestIn(inserted + [(k, c)], lo, r)
            == if Covers(r, k) then Merge(BestIn(inserted, lo, r), Some(c)) else BestIn(inserted, lo, r)
  {
    var next := inserted + [(k, c)];
    assert next[..|inserted|] == inserted;
  }

  /** One step up: slot `rank` was merged, the slots up to the next one stand. */
  lemma UpdatedSlots(prior: seq<(nat, Candidate)>, k: nat, c: Candidate, rank: nat,
                     before: seq<Option<Candidate>>, after: seq<Option<Candidate>>)
    requires Covers(rank, k) && 1 <= rank < |before|
    requires forall r {:trigger before[r]} | 1 <= r < |before| ::
               before[r] == BestIn(if r < rank then prior + [(k, c)] else prior, r - LowBit(r), r)
    requires after == before[rank := Merge(before[rank], Some(c))]
    ensures forall r {:trigger after[r]} | 1 <= r < |after| ::
              after[r] == BestIn(if r < rank + LowBit(rank) then prior + [(k, c)] else prior, r - LowBit(r), r)
  {
    hide BestIn, Covers;
    UpdateChain(rank, k);
    forall r {:trigger after[r]} | 1 <= r < |after|
      ensures after[r] == BestIn(if r < rank + LowBit(rank) then prior + [(k, c)] else prior, r - LowBit(r), r)
    {
      assert before[r] == BestIn(if r < rank then prior + [(k, c)] else prior, r - LowBit(r), r);
      if rank <= r < rank + LowBit(rank) {
        SlotAfterInsert(prior, k, c, r);
      }
    }
  }

  // ---- The index ----

  class Index {
    const ends: seq<nat>
    const tree: array<Option<Candidate>>
    ghost var inserted: seq<(nat, Candidate)>

    /** Every slot holds the best candidate of the ranks it covers. */
    ghost predicate Valid()
      reads this, tree
    {
      && (forall i, j | 0 <= i < j < |ends| :: ends[i] < ends[j])
      && tree.Length == |ends| + 1 && |ends| + 1 < WORD
      && (forall r {:trigger tree[r]} | 1 <= r <= |ends| :: tree[r] == BestIn(inserted, r - LowBit(r), r))
    }

    constructor (ends: seq<nat>)
      requires forall i, j | 0 <= i < j < |ends| :: ends[i] < ends[j]
      requires |ends| + 1 < WORD
      ensures Valid() && this.ends == ends && inserted == [] && fresh(tree)
    {
      this.ends := ends;
      tree := new Option<Candidate>[|ends| + 1](_ => None);
      inserted := [];
    }

    /** Position of an indexed end, counted from the largest; the source finds it
        by binary search. */
    method Rank(end: nat) returns (rank: nat)
      requires Valid() && end in ends
      ensures 1 <= rank <= |ends| && ends[|ends| - rank] == end
    {
      rank := 0;
      var lo, hi := 0, |ends|;
      while lo < hi
        invariant 0 <= lo <= hi <= |ends|
        invariant forall i | 0 <= i < lo :: ends[i] < end
        invariant forall i | hi <= i < |ends| :: ends[i] > end
      {
        var mid := (lo + hi) / 2;
        if ends[mid] == end {
          return |ends| - mid;
        } else if ends[mid] < end {
          lo := mid + 1;
        } else {
          hi := mid;
        }
      }
      assert false;
    }

    /** Update the slots on the way up. */
    method Insert(end: nat, candidate: Candidate) returns (ghost k: nat)
      requires Valid() && end in ends
      modifies this`inserted, tree
      ensures Valid() && 1 <= k <= |ends| && ends[|ends| - k] == end
      ensures inserted == old(inserted) + [(k, candidate)]
    {
      hide BestIn, NextRank, Covers;
      var rank := Rank(end);
      k := rank;
      ghost var prior := inserted;
      ghost var next := prior + [(k, candidate)];
      CoversItself(k);
      forall r | 1 <= r < k ensures BestIn(next, r - LowBit(r), r) == BestIn(prior, r - LowBit(r), r) {
        SlotAfterInsert(prior, k, candidate, r);
        BelowIsNotCovered(r, k);
      }
      while rank < tree.Length
        invariant rank >= 1 && Covers(rank, k)
        invariant forall r {:trigger tree[r]} | 1 <= r <= |ends| ::
                    tree[r] == BestIn(if r < rank then next else prior, r - LowBit(r), r)
        decreases tree.Length - rank
      {
        ghost var before := tree[..];
        assert forall r {:trigger before[r]} | 1 <= r <= |ends| ::
            before[r] == BestIn(if r < rank then next else prior, r - LowBit(r), r);
        tree[rank] := Merge(tree[rank], Some(candidate));
        UpdatedSlots(prior, k, candidate, rank, before, tree[..]);
        NextRankAdds(rank);
        UpdateChain(rank, k);
        rank := NextRank(rank);
        ghost var after := tree[..];
        assert forall r | 1 <= r <= |ends| :: tree[r] == after[r];
      }
      inserted := next;
    }

    /** Read the slots on the way down. */
    method Best(end: nat) returns (best: Option<Candidate>, ghost k: nat)
      requires Valid() && end in ends
      ensures 1 <= k <= |ends| && ends[|ends| - k] == end
      ensures best == BestIn(inserted, 0, k)
    {
      var rank := Rank(end);
      k := rank;
      best := None;
      BestOfNothing(inserted, k);
      while rank > 0
        invariant 0 <= rank <= k
        invariant best == BestIn(inserted, rank, k)
      {
        PrevRankClears(rank);
        BestSplits(inserted, rank - LowBit(rank), rank, k);
        best := Merge(best, tree[rank]);
        rank := PrevRank(rank);
      }
    }
  }
}
