/**
  Block checkpoints and rollback: the last completed block height is the
  greatest height recorded, and deleting from a block height removes every
  record at or above it from a collection.
 */
module Checkpoints {
  import opened Wrappers

  /** The height of the last completed block: the largest recorded height, or none. */
  function LastCompletedBlockHeight(heights: seq<int>): (r: Option<int>)
    ensures r.None? <==> |heights| == 0
    ensures r.Some? ==> r.value in heights && forall h :: h in heights ==> h <= r.value
    decreases |heights|
  {
    if |heights| == 0 then None
    else
      var init, last := heights[..|heights| - 1], heights[|heights| - 1];
      assert heights == init + [last];
      match LastCompletedBlockHeight(init)
      case None => Some(last)
      case Some(m) => Some(if last > m then last else m)
  }

  /** A record is kept unless it has a block height at or above `start`. */
  predicate Kept(height: Option<int>, start: int)
  {
    height.None? || height.value < start
  }

  /** The records of `docs` that deletion from `start` keeps, in their order. */
  function Survivors<T>(docs: seq<T>, height: T -> Option<int>, start: int): seq<T>
    decreases |docs|
  {
    if |docs| == 0 then []
    else
      var rest := Survivors(docs[..|docs| - 1], height, start);
      if Kept(height(docs[|docs| - 1]), start) then rest + [docs[|docs| - 1]] else rest
  }

  lemma {:induction false} SurvivorsKept<T>(docs: seq<T>, height: T -> Option<int>, start: int)
    ensures var r := Survivors(docs, height, start);
      && |r| <= |docs|
      && (forall i :: 0 <= i < |r| ==> r[i] in docs && Kept(height(r[i]), start))
      && (forall i :: 0 <= i < |docs| && Kept(height(docs[i]), start) ==> docs[i] in r)
      && ((forall i :: 0 <= i < |docs| ==> Kept(height(docs[i]), start)) ==> r == docs)
    decreases |docs|
  {
    if |docs| > 0 {
      var init, last := docs[..|docs| - 1], docs[|docs| - 1];
      assert docs == init + [last];
      assert forall i :: 0 <= i < |init| ==> init[i] == docs[i];
      SurvivorsKept(init, height, start);
    }
  }

  lemma {:induction false} SurvivorsCount<T>(docs: seq<T>, height: T -> Option<int>, start: int, x: T)
    ensures multiset(Survivors(docs, height, start))[x] == if Kept(height(x), start) then multiset(docs)[x] else 0
    decreases |docs|
  {
    if |docs| > 0 {
      var init, last := docs[..|docs| - 1], docs[|docs| - 1];
      assert docs == init + [last];
      assert multiset(docs) == multiset(init) + multiset{last};
      SurvivorsCount(init, height, start, x);
      var rest := Survivors(init, height, start);
      if Kept(height(last), start) {
        assert multiset(rest + [last]) == multiset(rest) + multiset{last};
      }
    }
  }

  /**
    Deletes from a collection every record whose block height is at least
    `start`; records without a block height, and all others, stay in order
    (see `DeletePreservesOrder`).
   */
  function DeleteFromCollection<T(==)>(docs: seq<T>, height: T -> Option<int>, start: int): (r: seq<T>)
    ensures forall i :: 0 <= i < |r| ==> r[i] in docs && Kept(height(r[i]), start)
    ensures forall i :: 0 <= i < |docs| && Kept(height(docs[i]), start) ==> docs[i] in r
    ensures forall i :: 0 <= i < |docs| ==>
      multiset(r)[docs[i]] == if Kept(height(docs[i]), start) then multiset(docs)[docs[i]] else 0
    ensures |r| <= |docs|
    ensures (forall i :: 0 <= i < |docs| ==> Kept(height(docs[i]), start)) ==> r == docs
  {
    SurvivorsKept(docs, height, start);
    forall x { SurvivorsCount(docs, height, start, x); }
    Survivors(docs, height, start)
  }

  lemma {:induction false} SurvivorsConcat<T>(a: seq<T>, b: seq<T>, height: T -> Option<int>, start: int)
    ensures Survivors(a + b, height, start) == Survivors(a, height, start) + Survivors(b, height, start)
    decreases |b|
  {
    if |b| == 0 {
      assert a + b == a;
    } else {
      var init, last := b[..|b| - 1], b[|b| - 1];
      var ab := a + b;
      assert ab[..|ab| - 1] == a + init;
      assert ab[|ab| - 1] == last;
      SurvivorsConcat(a, init, height, start);
    }
  }

  /**
    Deletion keeps the surviving records in their original order: deleting
    from two collections placed one after the other is deleting from each
    and placing the survivors one after the other.
   */
  lemma DeletePreservesOrder<T>(a: seq<T>, b: seq<T>, height: T -> Option<int>, start: int)
    ensures DeleteFromCollection(a + b, height, start) ==
      DeleteFromCollection(a, height, start) + DeleteFromCollection(b, height, start)
  {
    SurvivorsConcat(a, b, height, start);
  }

  /** Deleting from a collection with one more record at its end. */
  lemma DeleteAppend<T>(s: seq<T>, x: T, height: T -> Option<int>, start: int)
    ensures DeleteFromCollection(s + [x], height, start) ==
      DeleteFromCollection(s, height, start) + (if Kept(height(x), start) then [x] else [])
  {
  }

  /** Heights of the completed-blocks collection, as `DeleteFromCollection` reads them. */
  function BlockHeight(h: int): Option<int>
  {
    Some(h)
  }

  /**
    Rolling the checkpoints back to `start` leaves a last completed block
    below `start`, or none.
   */
  lemma RollbackMovesCheckpoint(heights: seq<int>, start: int)
    ensures match LastCompletedBlockHeight(DeleteFromCollection(heights, BlockHeight, start))
      case None => true
      case Some(h) => h < start
  {
  }

  /** Recording a completed block moves the checkpoint to the larger of the old one and the new height. */
  lemma StoreMovesCheckpoint(heights: seq<int>, h: int)
    ensures LastCompletedBlockHeight(heights + [h]) ==
      match LastCompletedBlockHeight(heights)
      case None => Some(h)
      case Some(m) => Some(if h > m then h else m)
  {
  }
}
