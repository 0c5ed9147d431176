/**
 How long a window's serialization is, and when nothing outside it serializes to text: both read off the
 layout, as dropped line breaks and inline objects.
 */
module Margin {
  import opened Common
  import opened RichBlocks
  import opened RichReading
  import opened Serialization

  /** How many positions of [low, high) are line breaks that a block drops. */
  function DropCount(f: Field, low: int, high: int): nat
    requires |f.contents| == |f.blocks|
    decreases high - low
  {
    if high <= low then 0 else DropCount(f, low, high - 1) + if Dropped(f, high - 1) then 1 else 0
  }

  /** By how much the inline objects of [low, high) show more, or less, than one character each. */
  function Growth(blocks: seq<Block>, low: int, high: int): int
    decreases high - low
  {
    if high <= low then 0
    else
      var found := ObjectAt(blocks, |blocks|, high - 1);
      Growth(blocks, low, high - 1) + if found.Some? then |Expansion(found.value)| - 1 else 0
  }

  /** A position that serializes to nothing: a dropped break, or an inline object without text. */
  predicate MuteAt(f: Field, p: int)
    requires |f.contents| == |f.blocks|
  {
    var found := ObjectAt(f.blocks, |f.blocks|, p);
    Dropped(f, p) || (found.Some? && Expansion(found.value) == "")
  }

  /** A range serializes to one character a position, less the dropped breaks, plus the growth of its objects. */
  lemma {:induction false} SerializedLength(f: Field, low: nat, high: nat)
    requires Aligned(f) && Linked(f.blocks) && low <= high <= Total(f)
    ensures |Serialized(f, low, high)| == high - low - DropCount(f, low, high) + Growth(f.blocks, low, high)
    decreases high - low
  {
    hide Serialized, Cells, Raw, Expansion, Dropped, ObjectAt;
    if low == high {
      SerializedEmpty(f, low, high);
    } else {
      SerializedLength(f, low, high - 1);
      CellOf(f, high - 1);
      SerializedStep(f, low, high - 1);
    }
  }

  /** A range serializes to nothing exactly when each of its positions does. */
  lemma {:induction false} EmptyIffMute(f: Field, low: nat, high: nat)
    requires Aligned(f) && Linked(f.blocks) && low <= high <= Total(f)
    ensures Serialized(f, low, high) == "" <==> forall p :: low <= p < high ==> MuteAt(f, p)
    decreases high - low
  {
    hide Serialized, Cells, Raw, Expansion, Dropped, ObjectAt;
    if low == high {
      SerializedEmpty(f, low, high);
    } else {
      EmptyIffMute(f, low, high - 1);
      CellOf(f, high - 1);
      SerializedStep(f, low, high - 1);
      assert Cells(f)[high - 1] == "" <==> MuteAt(f, high - 1);
      assert Serialized(f, low, high) == "" <==> Serialized(f, low, high - 1) == "" && Cells(f)[high - 1] == "";
    }
  }

  // ---------------------------------------------------------------- before a window

  /** Nothing of block `j` before `low` serializes to text. */
  ghost predicate MuteBlockBefore(f: Field, foreign: seq<string>, j: nat, low: int)
    requires j < |f.blocks| == |f.contents| == |foreign|
  {
    var b := f.blocks[j];
    if b.kind.Opaque? then foreign[j] == "" else forall p :: b.start <= p < Min(b.Stop(), low) ==> MuteAt(f, p)
  }

  ghost predicate MuteBefore(f: Field, foreign: seq<string>, n: nat, low: int)
    requires n <= |f.blocks| == |f.contents| == |foreign|
  {
    forall j :: 0 <= j < n ==> MuteBlockBefore(f, foreign, j, low)
  }

  /** Blocks that end before both bounds do not tell them apart. */
  lemma MuteBeforeAlike(f: Field, foreign: seq<string>, n: nat, low: nat)
    requires Aligned(f) && n < |f.blocks| == |foreign| && f.blocks[n].start <= low
    ensures MuteBefore(f, foreign, n, low) == MuteBefore(f, foreign, n, f.blocks[n].start)
  {
    hide MuteAt;
    forall j | 0 <= j < n
      ensures MuteBlockBefore(f, foreign, j, low) == MuteBlockBefore(f, foreign, j, f.blocks[n].start)
    {
      Ordered(f, j, n);
    }
  }

  lemma MuteBeforeNext(f: Field, foreign: seq<string>, n: nat, low: int)
    requires n < |f.blocks| == |f.contents| == |foreign|
    ensures MuteBefore(f, foreign, n + 1, low) <==> MuteBefore(f, foreign, n, low) && MuteBlockBefore(f, foreign, n, low)
  {
    hide MuteBlockBefore;
  }

  /** The range adds everything that the first `n` blocks serialize to exactly when they are mute before it. */
  lemma {:induction false} NothingBefore(f: Field, foreign: seq<string>, n: nat, low: nat)
    requires Aligned(f) && Linked(f.blocks) && n <= |f.blocks| == |foreign|
    requires low <= StopOf(f.blocks, n) && ReadableFrom(f, n, low)
    ensures StopOf(f.blocks, n) <= Total(f)
    ensures |RenderTo(f, foreign, n)| >= |Serialized(f, low, StopOf(f.blocks, n))|
    ensures |RenderTo(f, foreign, n)| == |Serialized(f, low, StopOf(f.blocks, n))| <==> MuteBefore(f, foreign, n, low)
  {
    hide Concat, Cells, Serialized, BlockCells, BlockText, MuteBlockBefore, MuteBefore, MuteAt, Linked;
    PrefixStays(f, n, |f.blocks|);
    if n == 0 {
      NothingSerialized(f, low);
      assert MuteBefore(f, foreign, 0, low) by {
        NoBlocks(f, foreign, low);
      }
      return;
    }
    var i := n - 1;
    var b := f.blocks[i];
    SerializedBlock(f, i);
    MuteBeforeNext(f, foreign, i, low);
    MuteBlock(f, foreign, i, low);
    if low <= b.start {
      NothingBefore(f, foreign, i, low);
      SerializedSplit(f, low, b.start, b.Stop());
    } else {
      ReadableFromStart(f, i);
      NothingBefore(f, foreign, i, b.start);
      NothingSerialized(f, b.start);
      MuteBeforeAlike(f, foreign, i, low);
      SerializedSplit(f, b.start, low, b.Stop());
      if low == b.Stop() {
        NothingSerialized(f, low);
      }
    }
  }

  lemma NoBlocks(f: Field, foreign: seq<string>, low: int)
    requires |f.blocks| == |f.contents| == |foreign|
    ensures MuteBefore(f, foreign, 0, low)
  {
  }

  /** One block's part before `low`. */
  lemma MuteBlock(f: Field, foreign: seq<string>, i: nat, low: nat)
    requires Aligned(f) && Linked(f.blocks) && i < |f.blocks| == |foreign| && low <= f.blocks[i].Stop() <= Total(f)
    requires f.blocks[i].kind.Opaque? ==> f.blocks[i].Stop() <= low
    ensures var b := f.blocks[i];
      MuteBlockBefore(f, foreign, i, low) <==>
        if b.kind.Opaque? then Rendered(f, foreign, i) == "" else low <= b.start || Serialized(f, b.start, low) == ""
  {
    hide Serialized, MuteAt, BlockText, Linked;
    var b := f.blocks[i];
    if !b.kind.Opaque? && b.start < low {
      EmptyIffMute(f, b.start, low);
    }
  }

  /** A window up to the caret serializes to all there is before the caret exactly when nothing before it shows. */
  lemma WholeBeforeIff(f: Field, foreign: seq<string>, i: nat, k: nat, low: nat)
    requires Aligned(f) && Linked(f.blocks) && i < |f.blocks| == |foreign| && k <= f.blocks[i].length
    requires !f.blocks[i].kind.Opaque? && low <= f.blocks[i].start + k && ReadableFrom(f, i, low)
    ensures |WholeBefore(f, foreign, i, k)| == |Serialized(f, low, f.blocks[i].start + k)| <==> MuteBefore(f, foreign, i + 1, low)
  {
    hide Serialized, WholeBefore, RenderTo, MuteBlockBefore, MuteBefore, MuteAt, Concat, Cells, BlockText, Linked;
    var b, caret := f.blocks[i], f.blocks[i].start + k;
    SidesByRange(f, foreign, i, k);
    PrefixStays(f, i + 1, |f.blocks|);
    MuteBeforeNext(f, foreign, i, low);
    MuteBlock(f, foreign, i, low);
    if low <= b.start {
      NothingBefore(f, foreign, i, low);
      SerializedSplit(f, low, b.start, caret);
    } else {
      ReadableFromStart(f, i);
      NothingBefore(f, foreign, i, b.start);
      NothingSerialized(f, b.start);
      MuteBeforeAlike(f, foreign, i, low);
      SerializedSplit(f, b.start, low, caret);
    }
  }

  lemma ReadableFromStart(f: Field, i: nat)
    requires Aligned(f) && i < |f.blocks|
    ensures ReadableFrom(f, i, f.blocks[i].start) && StopOf(f.blocks, i) == f.blocks[i].start
  {
    forall j | 0 <= j < i
      ensures f.blocks[j].Stop() <= f.blocks[i].start
    {
      Ordered(f, j, i);
    }
    BlockSpan(f, i);
    Lengths(f, i);
  }

  // ---------------------------------------------------------------- after a window

  /** Nothing of block `j` from `high` on serializes to text. */
  ghost predicate MuteBlockAfter(f: Field, foreign: seq<string>, j: nat, high: int)
    requires j < |f.blocks| == |f.contents| == |foreign|
  {
    var b := f.blocks[j];
    if b.kind.Opaque? then foreign[j] == "" else forall p :: Max(b.start, high) <= p < b.Stop() ==> MuteAt(f, p)
  }

  ghost predicate MuteAfter(f: Field, foreign: seq<string>, n: nat, high: int)
    requires |f.blocks| == |f.contents| == |foreign|
  {
    forall j :: n <= j < |f.blocks| ==> MuteBlockAfter(f, foreign, j, high)
  }

  lemma MuteAfterAlike(f: Field, foreign: seq<string>, n: nat, high: nat)
    requires Aligned(f) && n < |f.blocks| == |foreign| && high <= f.blocks[n].Stop()
    ensures MuteAfter(f, foreign, n + 1, high) == MuteAfter(f, foreign, n + 1, f.blocks[n].Stop())
  {
    hide MuteAt;
    forall j | n < j < |f.blocks|
      ensures MuteBlockAfter(f, foreign, j, high) == MuteBlockAfter(f, foreign, j, f.blocks[n].Stop())
    {
      Ordered(f, n, j);
    }
  }

  lemma MuteAfterNext(f: Field, foreign: seq<string>, n: nat, high: int)
    requires n < |f.blocks| == |f.contents| == |foreign|
    ensures MuteAfter(f, foreign, n, high) <==> MuteBlockAfter(f, foreign, n, high) && MuteAfter(f, foreign, n + 1, high)
  {
    hide MuteBlockAfter;
  }

  lemma MuteBlockRest(f: Field, foreign: seq<string>, i: nat, high: nat)
    requires Aligned(f) && Linked(f.blocks) && i < |f.blocks| == |foreign|
    requires f.blocks[i].start <= high && f.blocks[i].Stop() <= Total(f)
    requires f.blocks[i].kind.Opaque? ==> high <= f.blocks[i].start
    ensures var b := f.blocks[i];
      MuteBlockAfter(f, foreign, i, high) <==>
        if b.kind.Opaque? then Rendered(f, foreign, i) == "" else b.Stop() <= high || Serialized(f, high, b.Stop()) == ""
  {
    hide Serialized, MuteAt, BlockText, Linked;
    var b := f.blocks[i];
    if !b.kind.Opaque? && high < b.Stop() {
      EmptyIffMute(f, high, b.Stop());
    }
  }

  lemma {:induction false} NothingAfter(f: Field, foreign: seq<string>, n: nat, high: nat)
    requires Aligned(f) && Linked(f.blocks) && n <= |f.blocks| == |foreign|
    requires StopOf(f.blocks, n) <= high <= Total(f) && ReadableUpTo(f, n, high)
    ensures |RenderFrom(f, foreign, n)| >= |Serialized(f, StopOf(f.blocks, n), high)|
    ensures |RenderFrom(f, foreign, n)| == |Serialized(f, StopOf(f.blocks, n), high)| <==> MuteAfter(f, foreign, n, high)
    decreases |f.blocks| - n
  {
    hide Concat, Cells, Serialized, BlockCells, BlockText, MuteBlockAfter, MuteAt, Linked;
    if n == |f.blocks| {
      NothingSerialized(f, high);
      return;
    }
    hide MuteAfter;
    var b := f.blocks[n];
    PrefixStays(f, n + 1, |f.blocks|);
    SerializedBlock(f, n);
    MuteAfterNext(f, foreign, n, high);
    MuteBlockRest(f, foreign, n, high);
    if b.Stop() <= high {
      NothingAfter(f, foreign, n + 1, high);
      SerializedSplit(f, b.start, b.Stop(), high);
    } else {
      ReadableUpToStop(f, n);
      NothingAfter(f, foreign, n + 1, b.Stop());
      NothingSerialized(f, b.Stop());
      MuteAfterAlike(f, foreign, n, high);
      SerializedSplit(f, b.start, high, b.Stop());
      if high == b.start {
        NothingSerialized(f, high);
      }
    }
  }

  lemma ReadableUpToStop(f: Field, i: nat)
    requires Aligned(f) && i < |f.blocks|
    ensures ReadableUpTo(f, i + 1, f.blocks[i].Stop())
  {
    forall j | i < j < |f.blocks|
      ensures f.blocks[i].Stop() <= f.blocks[j].start
    {
      Ordered(f, i, j);
    }
  }

  /** The mirror image for a window that begins at the caret. */
  lemma WholeAfterIff(f: Field, foreign: seq<string>, i: nat, k: nat, high: nat)
    requires Aligned(f) && Linked(f.blocks) && i < |f.blocks| == |foreign| && k <= f.blocks[i].length
    requires !f.blocks[i].kind.Opaque? && f.blocks[i].start + k <= high <= Total(f) && ReadableUpTo(f, i + 1, high)
    ensures |WholeAfter(f, foreign, i, k)| == |Serialized(f, f.blocks[i].start + k, high)| <==> MuteAfter(f, foreign, i, high)
  {
    hide Serialized, WholeAfter, RenderFrom, MuteBlockAfter, MuteAfter, MuteAt, Concat, Cells, BlockText, Linked;
    var b, caret := f.blocks[i], f.blocks[i].start + k;
    SidesByRange(f, foreign, i, k);
    PrefixStays(f, i + 1, |f.blocks|);
    MuteAfterNext(f, foreign, i, high);
    MuteBlockRest(f, foreign, i, high);
    if b.Stop() <= high {
      NothingAfter(f, foreign, i + 1, high);
      SerializedSplit(f, caret, b.Stop(), high);
    } else {
      ReadableUpToStop(f, i);
      NothingAfter(f, foreign, i + 1, b.Stop());
      NothingSerialized(f, b.Stop());
      MuteAfterAlike(f, foreign, i, high);
      SerializedSplit(f, caret, high, b.Stop());
    }
  }
}
