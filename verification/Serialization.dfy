/**
 Chromium's serialization of a whole rich field, block by block, and how a window of
 flattened cells lies inside it. The text of an opaque block is arbitrary throughout.
 */
module Serialization {
  import opened Common
  import opened RichBlocks

  /** A readable block as Chromium sends it: expanded text, then its end with one break fewer after a break. */
  function BlockText(b: Block, content: string): string {
    Concat(TextCells(content, b.inline, |content|)) + EndText(b, content)
  }

  function EndText(b: Block, content: string): string {
    if Breaks(content) && b.end != "" then b.end[1..] else b.end
  }

  /** What Chromium sends for block `i`; for an opaque block, whatever `foreign` says. */
  function Rendered(f: Field, foreign: seq<string>, i: nat): string
    requires i < |f.blocks| == |f.contents| == |foreign|
  {
    if f.blocks[i].kind.Opaque? then foreign[i] else BlockText(f.blocks[i], f.contents[i])
  }

  function RenderTo(f: Field, foreign: seq<string>, n: nat): string
    requires n <= |f.blocks| == |f.contents| == |foreign|
  {
    if n == 0 then "" else RenderTo(f, foreign, n - 1) + Rendered(f, foreign, n - 1)
  }

  function RenderFrom(f: Field, foreign: seq<string>, n: nat): string
    requires n <= |f.blocks| == |f.contents| == |foreign|
    decreases |f.blocks| - n
  {
    if n == |f.blocks| then "" else Rendered(f, foreign, n) + RenderFrom(f, foreign, n + 1)
  }

  /** Everything Chromium sends before offset `k` of block `i`. */
  function WholeBefore(f: Field, foreign: seq<string>, i: nat, k: nat): string
    requires i < |f.blocks| == |f.contents| == |foreign| && k <= |f.contents[i]|
  {
    RenderTo(f, foreign, i) + Concat(TextCells(f.contents[i], f.blocks[i].inline, |f.contents[i]|)[..k])
  }

  /** Everything Chromium sends from offset `k` of block `i` on. */
  function WholeAfter(f: Field, foreign: seq<string>, i: nat, k: nat): string
    requires i < |f.blocks| == |f.contents| == |foreign| && k <= |f.contents[i]|
  {
    Concat(TextCells(f.contents[i], f.blocks[i].inline, |f.contents[i]|)[k..])
    + EndText(f.blocks[i], f.contents[i]) + RenderFrom(f, foreign, i + 1)
  }

  lemma {:induction false} RenderedSplits(f: Field, foreign: seq<string>, n: nat)
    requires n <= |f.blocks| == |f.contents| == |foreign|
    ensures RenderTo(f, foreign, n) + RenderFrom(f, foreign, n) == RenderTo(f, foreign, |f.blocks|)
    decreases |f.blocks| - n
  {
    hide Rendered;
    if n < |f.blocks| {
      RenderedSplits(f, foreign, n + 1);
      Assoc(RenderTo(f, foreign, n), Rendered(f, foreign, n), RenderFrom(f, foreign, n + 1));
    }
  }

  /** The two sides of a caret in a readable block are one serialization of the whole field. */
  lemma SidesJoin(f: Field, foreign: seq<string>, i: nat, k: nat)
    requires i < |f.blocks| == |f.contents| == |foreign| && k <= |f.contents[i]|
    requires !f.blocks[i].kind.Opaque?
    ensures WholeBefore(f, foreign, i, k) + WholeAfter(f, foreign, i, k) == RenderTo(f, foreign, |f.blocks|)
  {
    hide Concat, TextCells, EndText;
    var cells := TextCells(f.contents[i], f.blocks[i].inline, |f.contents[i]|);
    var to, from, end := RenderTo(f, foreign, i), RenderFrom(f, foreign, i + 1), EndText(f.blocks[i], f.contents[i]);
    assert cells == cells[..k] + cells[k..];
    ConcatAppend(cells[..k], cells[k..]);
    RenderedSplits(f, foreign, i + 1);
    Regroup(to, Concat(cells[..k]), Concat(cells[k..]), end, from);
  }

  lemma Regroup(a: string, b: string, c: string, d: string, e: string)
    ensures (a + b) + (c + d + e) == (a + ((b + c) + d)) + e
  {
  }

  // ---------------------------------------------------------------- cells of a block

  lemma {:induction false} EndCellsJoin(end: string, trimmed: bool, n: nat)
    requires n <= |end|
    ensures Concat(EndCells(end, trimmed, n)) == if trimmed && n > 0 then end[1..n] else end[..n]
  {
    if n > 0 {
      EndCellsJoin(end, trimmed, n - 1);
      var last := if n == 1 && trimmed then "" else [end[n - 1]];
      assert (EndCells(end, trimmed, n - 1) + [last])[..n - 1] == EndCells(end, trimmed, n - 1);
      assert end[..n] == end[..n - 1] + [end[n - 1]];
      if trimmed && n > 1 {
        assert end[1..n] == end[1..n - 1] + [end[n - 1]];
      }
    }
  }

  lemma EndJoin(b: Block, content: string)
    ensures Concat(EndCells(b.end, Breaks(content), |b.end|)) == EndText(b, content)
  {
    hide Concat, EndCells, Breaks;
    EndCellsJoin(b.end, Breaks(content), |b.end|);
    assert b.end[..|b.end|] == b.end;
  }

  /** Reading a block's cells in order gives exactly what Chromium sends for it. */
  lemma BlockCellsJoin(b: Block, content: string)
    ensures Concat(BlockCells(b, content)) == BlockText(b, content)
    ensures BlockText(b, content) == Concat(TextCells(content, b.inline, |content|)) +
      if content != "" && content[|content| - 1] == '\n' && b.end != "" then b.end[1..] else b.end
  {
    hide Concat, TextCells, EndCells;
    ConcatAppend(TextCells(content, b.inline, |content|), EndCells(b.end, Breaks(content), |b.end|));
    EndJoin(b, content);
  }

  lemma SerializedSplit(f: Field, low: int, middle: int, high: int)
    requires |f.contents| == |f.blocks| && low <= middle <= high
    ensures Serialized(f, low, high) == Serialized(f, low, middle) + Serialized(f, middle, high)
  {
    hide Slice, Concat, Cells;
    SliceAdjacent(Cells(f), low, middle, high);
    ConcatAppend(Slice(Cells(f), low, middle), Slice(Cells(f), middle, high));
  }

  /** A range inside one block serializes from that block's cells alone. */
  lemma SerializedWithin(f: Field, i: nat, low: nat, high: nat)
    requires Aligned(f) && i < |f.blocks|
    requires f.blocks[i].start <= low <= high <= f.blocks[i].Stop()
    ensures |BlockCells(f.blocks[i], f.contents[i])| == f.blocks[i].length + |f.blocks[i].end|
    ensures Serialized(f, low, high)
      == Concat(BlockCells(f.blocks[i], f.contents[i])[low - f.blocks[i].start..high - f.blocks[i].start])
  {
    hide Concat, Cells, BlockCells, Raw, Slice;
    var b := f.blocks[i];
    BlockAt(f, i);
    InnerRange(Cells(f), b.start, b.Stop(), low, high);
    SliceInside(Cells(f), low, high);
  }

  lemma SerializedBlock(f: Field, i: nat)
    requires Aligned(f) && i < |f.blocks|
    ensures Serialized(f, f.blocks[i].start, f.blocks[i].Stop()) == BlockText(f.blocks[i], f.contents[i])
  {
    hide Concat, Cells, BlockCells, BlockText, Serialized;
    var cells := BlockCells(f.blocks[i], f.contents[i]);
    SerializedWithin(f, i, f.blocks[i].start, f.blocks[i].Stop());
    assert cells[0..|cells|] == cells;
    BlockCellsJoin(f.blocks[i], f.contents[i]);
  }

  /** The cells before offset `k` of a block's text, and those from it on. */
  lemma CaretSides(b: Block, content: string, k: nat)
    requires k <= |content|
    ensures var cells, text := BlockCells(b, content), TextCells(content, b.inline, |content|);
      && Concat(cells[..k]) == Concat(text[..k])
      && Concat(cells[k..]) == Concat(text[k..]) + EndText(b, content)
  {
    hide Concat, TextCells, EndCells, EndText, Breaks;
    var text, end := TextCells(content, b.inline, |content|), EndCells(b.end, Breaks(content), |b.end|);
    assert (text + end)[..k] == text[..k];
    assert (text + end)[k..] == text[k..] + end;
    ConcatAppend(text[k..], end);
    EndJoin(b, content);
  }

  // ---------------------------------------------------------------- windows inside the whole

  /** No opaque block among the first `n` reaches past `low`. */
  ghost predicate ReadableFrom(f: Field, n: nat, low: int)
    requires n <= |f.blocks|
  {
    forall i :: 0 <= i < n && f.blocks[i].kind.Opaque? ==> f.blocks[i].Stop() <= low
  }

  /** No opaque block from `n` on begins before `high`. */
  ghost predicate ReadableUpTo(f: Field, n: nat, high: int) {
    forall i :: n <= i < |f.blocks| && f.blocks[i].kind.Opaque? ==> high <= f.blocks[i].start
  }

  /** The range from `low` to the end of block `n - 1` ends what Chromium sends for those blocks. */
  lemma {:induction false} RangeEndsRendering(f: Field, foreign: seq<string>, n: nat, low: nat) returns (rest: string)
    requires Aligned(f) && n <= |f.blocks| == |foreign|
    requires low <= StopOf(f.blocks, n) && ReadableFrom(f, n, low)
    ensures RenderTo(f, foreign, n) == rest + Serialized(f, low, StopOf(f.blocks, n))
    ensures low == 0 ==> rest == ""
  {
    hide Concat, Cells, Serialized, BlockCells, BlockText;
    if n == 0 {
      NothingSerialized(f, low);
      return "";
    }
    var i := n - 1;
    var b := f.blocks[i];
    if low == b.Stop() {
      NothingSerialized(f, low);
      assert RenderTo(f, foreign, n) + "" == RenderTo(f, foreign, n);
      return RenderTo(f, foreign, n);
    }
    SerializedBlock(f, i);
    if low <= b.start {
      rest := RangeEndsRendering(f, foreign, i, low);
      SerializedSplit(f, low, b.start, b.Stop());
      Assoc(rest, Serialized(f, low, b.start), Serialized(f, b.start, b.Stop()));
    } else {
      SerializedSplit(f, b.start, low, b.Stop());
      rest := RenderTo(f, foreign, i) + Serialized(f, b.start, low);
      Assoc(RenderTo(f, foreign, i), Serialized(f, b.start, low), Serialized(f, low, b.Stop()));
    }
  }

  lemma NothingSerialized(f: Field, p: int)
    requires |f.contents| == |f.blocks|
    ensures Serialized(f, p, p) == ""
  {
  }

  /** The range from block `n` up to `high` begins what Chromium sends from that block on. */
  lemma {:induction false} RangeBeginsRendering(f: Field, foreign: seq<string>, n: nat, high: nat)
    returns (rest: string)
    requires Aligned(f) && n <= |f.blocks| == |foreign|
    requires StopOf(f.blocks, n) <= high <= Total(f) && ReadableUpTo(f, n, high)
    ensures RenderFrom(f, foreign, n) == Serialized(f, StopOf(f.blocks, n), high) + rest
    ensures high == Total(f) ==> rest == ""
    decreases |f.blocks| - n
  {
    hide Concat, Cells, Serialized, BlockCells, BlockText;
    if n == |f.blocks| {
      NothingSerialized(f, high);
      return "";
    }
    var b := f.blocks[n];
    PrefixStays(f, n + 1, |f.blocks|);
    if high == b.start {
      NothingSerialized(f, high);
      assert "" + RenderFrom(f, foreign, n) == RenderFrom(f, foreign, n);
      return RenderFrom(f, foreign, n);
    }
    SerializedBlock(f, n);
    if b.Stop() <= high {
      rest := RangeBeginsRendering(f, foreign, n + 1, high);
      SerializedSplit(f, b.start, b.Stop(), high);
      Assoc(Serialized(f, b.start, b.Stop()), Serialized(f, b.Stop(), high), rest);
    } else {
      SerializedSplit(f, b.start, high, b.Stop());
      rest := Serialized(f, high, b.Stop()) + RenderFrom(f, foreign, n + 1);
      Assoc(Serialized(f, b.start, high), Serialized(f, high, b.Stop()), RenderFrom(f, foreign, n + 1));
    }
  }

  lemma SidesByRange(f: Field, foreign: seq<string>, i: nat, k: nat)
    requires Aligned(f) && i < |f.blocks| == |foreign| && k <= f.blocks[i].length
    ensures var b := f.blocks[i];
      && WholeBefore(f, foreign, i, k) == RenderTo(f, foreign, i) + Serialized(f, b.start, b.start + k)
      && WholeAfter(f, foreign, i, k) == Serialized(f, b.start + k, b.Stop()) + RenderFrom(f, foreign, i + 1)
  {
    hide Concat, Cells, Serialized, BlockCells, TextCells, EndText, RenderTo, RenderFrom;
    var b := f.blocks[i];
    var cells := BlockCells(b, f.contents[i]);
    CaretSides(b, f.contents[i], k);
    SerializedWithin(f, i, b.start, b.start + k);
    SerializedWithin(f, i, b.start + k, b.Stop());
    assert cells[0..k] == cells[..k];
    assert cells[k..|cells|] == cells[k..];
  }

  /** A range that ends at the caret ends everything Chromium sends before the caret. */
  lemma RangeEndsBefore(f: Field, foreign: seq<string>, i: nat, k: nat, low: nat) returns (rest: string)
    requires Aligned(f) && i < |f.blocks| == |foreign| && k <= f.blocks[i].length
    requires low <= f.blocks[i].start + k && ReadableFrom(f, i, low)
    ensures WholeBefore(f, foreign, i, k) == rest + Serialized(f, low, f.blocks[i].start + k)
    ensures low == 0 ==> rest == ""
  {
    hide Serialized, WholeBefore, WholeAfter, RenderFrom, RenderTo;
    var b, caret := f.blocks[i], f.blocks[i].start + k;
    SidesByRange(f, foreign, i, k);
    if low <= b.start {
      rest := RangeEndsRendering(f, foreign, i, low);
      SerializedSplit(f, low, b.start, caret);
      Assoc(rest, Serialized(f, low, b.start), Serialized(f, b.start, caret));
    } else {
      SerializedSplit(f, b.start, low, caret);
      rest := RenderTo(f, foreign, i) + Serialized(f, b.start, low);
      Assoc(RenderTo(f, foreign, i), Serialized(f, b.start, low), Serialized(f, low, caret));
    }
  }

  /** A range that begins at the caret begins everything Chromium sends after it. */
  lemma RangeBeginsAfter(f: Field, foreign: seq<string>, i: nat, k: nat, high: nat) returns (rest: string)
    requires Aligned(f) && i < |f.blocks| == |foreign| && k <= f.blocks[i].length
    requires f.blocks[i].start + k <= high <= Total(f) && ReadableUpTo(f, i + 1, high)
    ensures WholeAfter(f, foreign, i, k) == Serialized(f, f.blocks[i].start + k, high) + rest
    ensures high == Total(f) ==> rest == ""
  {
    hide Serialized, WholeBefore, WholeAfter, RenderTo, RenderFrom;
    var b, caret := f.blocks[i], f.blocks[i].start + k;
    SidesByRange(f, foreign, i, k);
    PrefixStays(f, i + 1, |f.blocks|);
    if b.Stop() <= high {
      rest := RangeBeginsRendering(f, foreign, i + 1, high);
      SerializedSplit(f, caret, b.Stop(), high);
      Assoc(Serialized(f, caret, b.Stop()), Serialized(f, b.Stop(), high), rest);
    } else {
      SerializedSplit(f, caret, high, b.Stop());
      rest := Serialized(f, high, b.Stop()) + RenderFrom(f, foreign, i + 1);
      Assoc(Serialized(f, caret, high), Serialized(f, high, b.Stop()), RenderFrom(f, foreign, i + 1));
    }
  }

  // ---------------------------------------------------------------- counting silent positions

  /** How many positions serialize to nothing. */
  function Silent(cells: seq<string>): nat {
    if cells == [] then 0
    else Silent(cells[..|cells| - 1]) + if cells[|cells| - 1] == "" then 1 else 0
  }

  lemma {:induction false} SilentAppend(a: seq<string>, b: seq<string>)
    ensures Silent(a + b) == Silent(a) + Silent(b)
  {
    if b == [] {
      assert a + b == a;
    } else {
      assert (a + b)[..|a + b| - 1] == a + b[..|b| - 1];
      SilentAppend(a, b[..|b| - 1]);
    }
  }

  lemma {:induction false} LengthBySilence(cells: seq<string>)
    ensures |Concat(cells)| >= |cells| - Silent(cells)
  {
    if cells != [] {
      LengthBySilence(cells[..|cells| - 1]);
    }
  }

  lemma {:induction false} NoneSilent(cells: seq<string>)
    requires forall k :: 0 <= k < |cells| ==> cells[k] != ""
    ensures Silent(cells) == 0
  {
    if cells != [] {
      NoneSilent(cells[..|cells| - 1]);
    }
  }

  /** Every inline object of the field shows at least one character. */
  ghost predicate ObjectsShow(blocks: seq<Block>) {
    forall i, o :: 0 <= i < |blocks| && o in blocks[i].inline ==> Expansion(o) != ""
  }

  lemma {:induction false} SilentEnd(end: string, trimmed: bool, n: nat)
    requires n <= |end|
    ensures Silent(EndCells(end, trimmed, n)) <= 1
    ensures n == 0 || !trimmed ==> Silent(EndCells(end, trimmed, n)) == 0
  {
    if n > 0 {
      SilentEnd(end, trimmed, n - 1);
      assert EndCells(end, trimmed, n)[..n - 1] == EndCells(end, trimmed, n - 1);
    }
  }

  lemma SilentBlock(b: Block, content: string)
    requires forall o :: o in b.inline ==> Expansion(o) != ""
    ensures Silent(BlockCells(b, content)) <= 1
  {
    hide TextCells, EndCells, Silent, Expansion;
    var text := TextCells(content, b.inline, |content|);
    NoneSilent(text);
    SilentEnd(b.end, Breaks(content), |b.end|);
    SilentAppend(text, EndCells(b.end, Breaks(content), |b.end|));
  }

  lemma {:induction false} SilentField(f: Field, n: nat)
    requires |f.contents| == |f.blocks| && n <= |f.blocks| && ObjectsShow(f.blocks)
    ensures Silent(CellsTo(f, n)) <= n
  {
    hide BlockCells, Silent, Expansion;
    if n > 0 {
      SilentField(f, n - 1);
      SilentBlock(f.blocks[n - 1], f.contents[n - 1]);
      SilentAppend(CellsTo(f, n - 1), BlockCells(f.blocks[n - 1], f.contents[n - 1]));
    } else {
      NoneSilent(CellsTo(f, n));
    }
  }

  /** A margin of one position for each block makes up for every dropped break. */
  lemma MarginSuffices(f: Field, low: nat, high: nat)
    requires |f.contents| == |f.blocks| && low <= high <= |Cells(f)| && ObjectsShow(f.blocks)
    ensures |Serialized(f, low, high)| >= high - low - |f.blocks|
  {
    hide Concat, Silent, CellsTo, Expansion, Slice;
    var cells := Cells(f);
    SilentField(f, |f.blocks|);
    assert cells == cells[..low] + (cells[low..high] + cells[high..]);
    SliceInside(cells, low, high);
    SilentAppend(cells[..low], cells[low..high] + cells[high..]);
    SilentAppend(cells[low..high], cells[high..]);
    LengthBySilence(cells[low..high]);
  }
}
