/**
 The chunk bitmap of a download (internal/domain/sync.go): a byte slice that grows on demand,
 standing for the set of completed chunk indices.
 */
module Bitmap {

  predicate Bit(b: bv8, k: nat)
    requires k < 8
  {
    b & (1 << k) != 0
  }

  predicate IsSet(bitmap: seq<bv8>, i: nat) {
    i / 8 < |bitmap| && Bit(bitmap[i / 8], i % 8)
  }

  /** The marked indices below `n`. */
  ghost function MarkedBelow(bitmap: seq<bv8>, n: nat): set<nat> {
    set i: nat | i < n && IsSet(bitmap, i)
  }

  /** The set of indices the bitmap stands for. */
  ghost function Marked(bitmap: seq<bv8>): set<nat> {
    MarkedBelow(bitmap, 8 * |bitmap|)
  }

  lemma MarkedIff(bitmap: seq<bv8>, i: nat)
    ensures i in Marked(bitmap) <==> IsSet(bitmap, i)
  {
  }

  // ---------------------------------------------------------------------------------
  // Marking
  // ---------------------------------------------------------------------------------

  lemma OrSetsOneBit(b: bv8, k: nat, j: nat)
    requires k < 8 && j < 8
    ensures Bit(b | (1 << k), j) <==> Bit(b, j) || j == k
  {
    if k == 0 || k == 1 || k == 2 || k == 3 || k == 4 || k == 5 || k == 6 || k == 7 {
    }
  }

  /** The bitmap after marking `index`: padded with zero bytes as far as needed, then one bit set. */
  function WithBit(bitmap: seq<bv8>, index: nat): (r: seq<bv8>) {
    var padded := if index / 8 < |bitmap| then bitmap else bitmap + seq(index / 8 + 1 - |bitmap|, _ => 0 as bv8);
    padded[index / 8 := padded[index / 8] | (1 << (index % 8))]
  }

  lemma WithBitMarks(bitmap: seq<bv8>, index: nat)
    ensures Marked(WithBit(bitmap, index)) == Marked(bitmap) + {index}
  {
    var after := WithBit(bitmap, index);
    forall i: nat ensures IsSet(after, i) <==> IsSet(bitmap, i) || i == index {
      if i / 8 == index / 8 {
        var before := if i / 8 < |bitmap| then bitmap[i / 8] else 0;
        OrSetsOneBit(before, index % 8, i % 8);
      }
    }
  }

  /** The layout of the slice: eight chunks to a byte, the first in the lowest bit. */
  lemma Layout()
    ensures WithBit([], 0) == [1] && WithBit([], 3) == [8] && WithBit([], 9) == [0, 2]
    ensures Marked([1]) == {0} && Marked([0, 2]) == {9}
  {
    assert WithBit([], 0) == [1] && WithBit([], 9) == [0, 2];
    WithBitMarks([], 0);
    WithBitMarks([], 9);
    assert Marked([]) == {};
  }

  /** Marks in the order given; negative indices are ignored. */
  ghost function MarkAll(bitmap: seq<bv8>, indices: seq<int>): seq<bv8> {
    if indices == [] then bitmap else
    var before := MarkAll(bitmap, indices[..|indices| - 1]);
    var last := indices[|indices| - 1];
    if last < 0 then before else WithBit(before, last)
  }

  /** However the slice grew, the bitmap is the set of the indices marked. */
  lemma {:induction false} MarkAllRefinesSet(bitmap: seq<bv8>, indices: seq<int>)
    ensures forall i: nat :: i in Marked(MarkAll(bitmap, indices)) <==> i in Marked(bitmap) || i in indices
  {
    if indices != [] {
      hide Marked;
      var n := |indices| - 1;
      MarkAllRefinesSet(bitmap, indices[..n]);
      if indices[n] >= 0 {
        WithBitMarks(MarkAll(bitmap, indices[..n]), indices[n]);
      }
      assert indices == indices[..n] + [indices[n]];
    }
  }

  // ---------------------------------------------------------------------------------
  // Counting and listing
  // ---------------------------------------------------------------------------------

  /** The number of marks, capped at the number of chunks. */
  ghost function Completed(marked: set<nat>, total: int): int {
    if |marked| > total then total else |marked|
  }

  /** The indices below `n` that are not marked, ascending. */
  ghost function Unmarked(marked: set<nat>, n: int): seq<int> {
    if n <= 0 then [] else Unmarked(marked, n - 1) + (if n - 1 in marked then [] else [n - 1])
  }

  lemma {:induction false} UnmarkedIsComplement(marked: set<nat>, n: int)
    ensures forall i :: i in Unmarked(marked, n) <==> 0 <= i < n && i !in marked
    ensures forall i, j :: 0 <= i < j < |Unmarked(marked, n)| ==> Unmarked(marked, n)[i] < Unmarked(marked, n)[j]
  {
    if n > 0 {
      UnmarkedIsComplement(marked, n - 1);
      var front := Unmarked(marked, n - 1);
      assert forall i :: 0 <= i < |front| ==> front[i] in front;
      assert Unmarked(marked, n) == if n - 1 in marked then front else front + [n - 1];
    }
  }

  lemma {:induction false} UnmarkedSize(marked: set<nat>, n: nat)
    ensures |Unmarked(marked, n)| + |set i | i in marked && i < n| == n
  {
    if n == 0 {
      assert (set i | i in marked && i < n) == {};
    } else {
      UnmarkedSize(marked, n - 1);
      var below, now := set i | i in marked && i < n - 1, set i | i in marked && i < n;
      assert now == if n - 1 in marked then below + {n - 1} else below;
    }
  }

  ghost predicate AllBelow(marked: set<nat>, total: int) {
    forall i :: i in marked ==> i < total
  }

  /** With no stray mark, completed and missing chunks add up to the total. */
  lemma CompletedPlusMissing(marked: set<nat>, total: nat)
    requires AllBelow(marked, total)
    ensures Completed(marked, total) + |Unmarked(marked, total)| == total
  {
    UnmarkedSize(marked, total);
    assert (set i | i in marked && i < total) == marked;
  }

  /** A download counts as complete exactly when stray marks make up for what is missing. */
  lemma IsCompleteIff(marked: set<nat>, total: int)
    ensures Completed(marked, total) >= total > 0 <==>
            total > 0 && |Unmarked(marked, total)| <= |set i | i in marked && i >= total|
    ensures total > 0 && AllBelow(marked, total) ==>
            (Completed(marked, total) >= total <==> Unmarked(marked, total) == [])
  {
    if total > 0 {
      UnmarkedSize(marked, total);
      var below, stray := set i | i in marked && i < total, set i | i in marked && i >= total;
      assert marked == below + stray && below !! stray;
      assert AllBelow(marked, total) ==> stray == {};
    }
  }

  /** A single mark past the end completes a download that has nothing. */
  lemma StrayMarkCompletes()
    ensures var marked := Marked(WithBit([0], 1));
            Completed(marked, 1) >= 1 && Unmarked(marked, 1) == [0]
  {
    WithBitMarks([0], 1);
    MarkedIff([0], 0);
    assert Marked([0]) == {} by {
      forall i: nat ensures i !in Marked([0]) {
        MarkedIff([0], i);
      }
    }
    assert Marked(WithBit([0], 1)) == {1};
  }

  class Download {
    const totalChunks: int
    var chunkBitmap: seq<bv8>
    var completedChunks: int

    constructor (total: nat)
      ensures totalChunks == total && Marked(chunkBitmap) == {} && completedChunks == 0
    {
      totalChunks := total;
      chunkBitmap := seq((total + 7) / 8, _ => 0 as bv8);
      completedChunks := 0;
    }

    method IsChunkCompleted(index: int) returns (r: bool)
      ensures r <==> index >= 0 && index in Marked(chunkBitmap)
    {
      if index < 0 {
        return false;
      }
      var byteIndex, bitIndex := index / 8, index % 8;
      if byteIndex >= |chunkBitmap| {
        return false;
      }
      return chunkBitmap[byteIndex] & (1 << bitIndex) != 0;
    }

    method SetChunkCompleted(index: int)
      modifies this
      ensures index < 0 ==> chunkBitmap == old(chunkBitmap) && completedChunks == old(completedChunks)
      ensures index >= 0 ==> chunkBitmap == WithBit(old(chunkBitmap), index)
      ensures index >= 0 ==> Marked(chunkBitmap) == old(Marked(chunkBitmap)) + {index}
      ensures index >= 0 ==> completedChunks == Completed(Marked(chunkBitmap), totalChunks)
    {
      if index < 0 {
        return;
      }
      var byteIndex, bitIndex := index / 8, index % 8;
      while byteIndex >= |chunkBitmap|
        invariant old(chunkBitmap) <= chunkBitmap
        invariant |chunkBitmap| > |old(chunkBitmap)| ==> |chunkBitmap| <= byteIndex + 1
        invariant forall k :: |old(chunkBitmap)| <= k < |chunkBitmap| ==> chunkBitmap[k] == 0
      {
        chunkBitmap := chunkBitmap + [0];
      }
      chunkBitmap := chunkBitmap[byteIndex := chunkBitmap[byteIndex] | (1 << bitIndex)];
      assert chunkBitmap == WithBit(old(chunkBitmap), index);
      WithBitMarks(old(chunkBitmap), index);
      completedChunks := CountCompletedChunks();
    }

    method CountCompletedChunks() returns (count: int)
      ensures count == Completed(Marked(chunkBitmap), totalChunks)
      ensures count == if |Marked(chunkBitmap)| > totalChunks then totalChunks else |Marked(chunkBitmap)|
    {
      hide MarkedBelow;
      count := 0;
      assert MarkedBelow(chunkBitmap, 0) == {} by {
        NoneBelowZero(chunkBitmap);
      }
      for i := 0 to |chunkBitmap|
        invariant count == |MarkedBelow(chunkBitmap, 8 * i)|
      {
        for j := 0 to 8
          invariant count == |MarkedBelow(chunkBitmap, 8 * i + j)|
        {
          OneMore(chunkBitmap, i, j);
          if chunkBitmap[i] & (1 << j) != 0 {
            count := count + 1;
          }
        }
      }
      if count > totalChunks {
        count := totalChunks;
      }
    }

    /** While the counter is up to date, the answer is about the marks themselves. */
    method IsComplete() returns (r: bool)
      ensures completedChunks == Completed(Marked(chunkBitmap), totalChunks)
              && AllBelow(Marked(chunkBitmap), totalChunks) ==>
                (r <==> totalChunks > 0 && Unmarked(Marked(chunkBitmap), totalChunks) == [])
    {
      IsCompleteIff(Marked(chunkBitmap), totalChunks);
      r := completedChunks >= totalChunks && totalChunks > 0;
    }

    method MissingChunks() returns (missing: seq<int>)
      ensures missing == Unmarked(Marked(chunkBitmap), totalChunks)
    {
      missing := [];
      var i := 0;
      while i < totalChunks
        invariant 0 <= i && (i <= totalChunks || i == 0)
        invariant missing == Unmarked(Marked(chunkBitmap), i)
      {
        var done := IsChunkCompleted(i);
        if !done {
          missing := missing + [i];
        }
        i := i + 1;
      }
      assert totalChunks <= 0 ==> Unmarked(Marked(chunkBitmap), totalChunks) == [];
    }
  }

  lemma NoneBelowZero(bitmap: seq<bv8>)
    ensures MarkedBelow(bitmap, 0) == {}
  {
  }

  lemma OneMore(bitmap: seq<bv8>, i: nat, j: nat)
    requires i < |bitmap| && j < 8
    ensures |MarkedBelow(bitmap, 8 * i + j + 1)| ==
            |MarkedBelow(bitmap, 8 * i + j)| + if Bit(bitmap[i], j) then 1 else 0
  {
    var n := 8 * i + j;
    assert n / 8 == i && n % 8 == j;
    assert MarkedBelow(bitmap, n + 1) == MarkedBelow(bitmap, n) + if IsSet(bitmap, n) then {n} else {};
  }
}
