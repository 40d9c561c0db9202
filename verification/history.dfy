/**
 The bounded undo history: a stack of surface snapshots, oldest first, seeded with
 the blank surface and holding at most ten entries.
 */
module History {
  import opened Canvas

  /** The most snapshots the history keeps. */
  const Capacity: nat := 10

  /** The history invariant: never empty, never over capacity. */
  predicate Bounded(stack: seq<Image>) {
    1 <= |stack| <= Capacity
  }

  /** The newest snapshot. */
  function Last(stack: seq<Image>): Image
    requires |stack| > 0
  {
    stack[|stack| - 1]
  }

  /** The newest `Capacity` entries of `t`, in order. */
  function Newest(t: seq<Image>): seq<Image> {
    if |t| <= Capacity then t else t[|t| - Capacity..]
  }

  /** Records a snapshot of `img`: it is appended, and when that makes the stack longer
      than the capacity the single oldest entry is evicted. */
  function SaveState(stack: seq<Image>, img: Image): (r: seq<Image>)
    ensures |r| > 0 && Last(r) == img
    ensures |r| == if |stack| < Capacity then |stack| + 1 else |stack|
    ensures r[..|r| - 1] == stack[|stack| + 1 - |r|..]
    ensures Bounded(stack) ==> Bounded(r)
  {
    var pushed := stack + [img];
    if |pushed| > Capacity then pushed[1..] else pushed
  }

  /** The history and surface after an undo request. */
  datatype Undone = Undone(stack: seq<Image>, image: Image)

  /** Undo: with more than one snapshot the newest is discarded and the surface becomes a
      copy of the one below it; with a single snapshot nothing changes. */
  function Undo(stack: seq<Image>, img: Image): (r: Undone)
    ensures |stack| <= 1 ==> r == Undone(stack, img)
    ensures |stack| > 1 ==> |r.stack| == |stack| - 1 && r.stack == stack[..|r.stack|]
    ensures |stack| > 1 ==> r.image == stack[|stack| - 2]
    ensures Bounded(stack) ==> Bounded(r.stack)
  {
    if |stack| > 1 then
      var popped := stack[..|stack| - 1];
      Undone(popped, Last(popped))
    else
      Undone(stack, img)
  }

  /** Undo at the floor is idempotent: once one snapshot is left, further undos change nothing. */
  lemma UndoAtFloorIdempotent(stack: seq<Image>, img: Image)
    requires |stack| == 1
    ensures Undo(stack, img) == Undone(stack, img)
    ensures Undo(Undo(stack, img).stack, Undo(stack, img).image) == Undo(stack, img)
  {
  }

  /** Saving and then undoing, below capacity, restores the previous history exactly and
      leaves the surface equal to the newest earlier snapshot. */
  lemma UndoAfterSave(stack: seq<Image>, img: Image)
    requires Bounded(stack) && |stack| < Capacity
    ensures Undo(SaveState(stack, img), img) == Undone(stack, Last(stack))
  {
    var saved := SaveState(stack, img);
    assert saved == stack + [img];
    assert saved[..|saved| - 1] == stack;
  }

  /** At capacity a save evicts the oldest snapshot for good: undoing it afterwards leaves
      the history without its former first entry. */
  lemma UndoAfterSaveAtCapacity(stack: seq<Image>, img: Image)
    requires |stack| == Capacity
    ensures Undo(SaveState(stack, img), img) == Undone(stack[1..], Last(stack))
  {
    var saved := SaveState(stack, img);
    assert saved == stack[1..] + [img];
    assert saved[..|saved| - 1] == stack[1..];
  }

  /** The history after saving each of `imgs` in turn. */
  function SaveAll(stack: seq<Image>, imgs: seq<Image>): seq<Image>
    decreases |imgs|
  {
    if |imgs| == 0 then stack else SaveAll(SaveState(stack, imgs[0]), imgs[1..])
  }

  /** Keeping the newest entries twice is the same as keeping them once. */
  lemma NewestOfNewest(t: seq<Image>, u: seq<Image>)
    ensures Newest(Newest(t) + u) == Newest(t + u)
  {
    if |t| > Capacity {
      var k := t[|t| - Capacity..];
      var tail := (t + u)[|t| - Capacity..];
      assert k + u == tail;
      assert (t + u)[|t + u| - Capacity..] == tail[|tail| - Capacity..];
    }
  }

  /** On a bounded history one save keeps the newest entries of the history plus the snapshot. */
  lemma SaveIsNewest(stack: seq<Image>, img: Image)
    requires Bounded(stack)
    ensures SaveState(stack, img) == Newest(stack + [img])
  {
  }

  /** One more snapshot on top of the newest entries of a bounded history keeps the newest
      entries of the history followed by all the snapshots. */
  lemma NewestAfterSave(stack: seq<Image>, imgs: seq<Image>)
    requires Bounded(stack) && |imgs| > 0
    ensures Newest(SaveState(stack, imgs[0]) + imgs[1..]) == Newest(stack + imgs)
  {
    var pushed := stack + [imgs[0]];
    SaveIsNewest(stack, imgs[0]);
    NewestOfNewest(pushed, imgs[1..]);
    assert pushed + imgs[1..] == stack + imgs;
  }

  /** However many snapshots are saved, the history holds exactly the newest ten of the
      seed followed by the saves, in order; everything older is gone. */
  lemma {:induction false} SaveAllKeepsNewest(stack: seq<Image>, imgs: seq<Image>)
    requires Bounded(stack)
    ensures SaveAll(stack, imgs) == Newest(stack + imgs)
    decreases |imgs|
  {
    if |imgs| == 0 {
      assert stack + imgs == stack;
    } else {
      var saved := SaveState(stack, imgs[0]);
      SaveAllKeepsNewest(saved, imgs[1..]);
      NewestAfterSave(stack, imgs);
    }
  }

  /** Twelve commits on a fresh, single-snapshot history keep ten snapshots: the third
      through the twelfth. The seed and the first two commits can no longer be restored. */
  lemma TwelveCommits(seed: seq<Image>, imgs: seq<Image>)
    requires |seed| == 1 && |imgs| == 12
    ensures SaveAll(seed, imgs) == imgs[2..]
  {
    SaveAllKeepsNewest(seed, imgs);
    var t := seed + imgs;
    assert t[3..] == imgs[2..];
  }
}
