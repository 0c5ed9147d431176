/** Reading and serializing a window of a rich editor's flattened text, proved against RichBlocks' cells. */
module RichReading {
  import opened Common
  import opened RichBlocks
  import opened InlineObjects

  // ---------------------------------------------------------------- raw text of a window

  /** A U+FFFC of a block's text, read from `first` on, that is none of the block's inline objects. */
  predicate Foreign(value: string, b: Block, first: int) {
    exists k :: 0 <= k < |value| && value[k] == EMBEDDED && FindAt(b.inline, first + k).None?
  }

  /** The part of block `b`'s own text that lies in [low, high). */
  function TextPart(b: Block, content: string, low: int, high: int): string {
    Slice(content, low - b.start, high - b.start)
  }

  /** The part of block `b`'s end that lies in [low, high). */
  function EndPart(b: Block, low: int, high: int): string {
    Slice(b.end, low - b.Separator(), high - b.Separator())
  }

  /** Block `b`'s part of [low, high) cannot be read: it is opaque or holds a foreign object. */
  predicate Obstructs(b: Block, content: string, low: int, high: int) {
    var part := TextPart(b, content, low, high);
    part != "" && (b.kind.Opaque? || Foreign(part, b, Max(low, b.start) - b.start))
  }

  predicate Obstructed(f: Field, n: nat, low: int, high: int)
    requires n <= |f.blocks| == |f.contents|
  {
    exists i :: 0 <= i < n && Obstructs(f.blocks[i], f.contents[i], low, high)
  }

  /** Offset `k` of the block's text lies in [low, high) and cannot be read: the block is opaque, or a U+FFFC none of its objects. */
  ghost predicate ObstructedAt(b: Block, content: string, k: nat, low: int, high: int)
    requires k < |content|
  {
    && low <= b.start + k < high
    && (b.kind.Opaque? || (content[k] == '\U{FFFC}' && Unlisted(b.inline, k)))
  }

  /** None of the objects is at this offset. */
  ghost predicate Unlisted(objects: seq<Inline>, k: int) {
    forall o :: o in objects ==> o.offset != k
  }

  /** A range is refused exactly for such a position. */
  lemma ObstructedIff(f: Field, low: int, high: int)
    requires Aligned(f)
    ensures Obstructed(f, |f.blocks|, low, high) <==>
      exists i, k :: 0 <= i < |f.blocks| && 0 <= k < |f.contents[i]| && ObstructedAt(f.blocks[i], f.contents[i], k, low, high)
  {
    hide ObstructedAt, Obstructs;
    forall i | 0 <= i < |f.blocks|
      ensures Obstructs(f.blocks[i], f.contents[i], low, high) <==>
        exists k :: 0 <= k < |f.contents[i]| && ObstructedAt(f.blocks[i], f.contents[i], k, low, high)
    {
      ObstructsIff(f.blocks[i], f.contents[i], low, high);
    }
  }

  lemma FindUnlisted(objects: seq<Inline>, k: int)
    ensures FindAt(objects, k).None? <==> Unlisted(objects, k)
  {
  }

  /** Position `k` of a block's part of a range, by its offset in the block. */
  lemma PartAt(b: Block, content: string, low: int, high: int, k: nat)
    requires |content| == b.length && k < |TextPart(b, content, low, high)|
    ensures var from := Max(low, b.start) - b.start;
      from + k < |content| && TextPart(b, content, low, high)[k] == content[from + k] && low <= b.start + from + k < high
  {
    TextPartRead(b, content, low, high);
  }

  /** An offset of the block that lies in the range, by its position in the block's part of it. */
  lemma OffsetAt(b: Block, content: string, low: int, high: int, k: nat)
    requires |content| == b.length && k < |content| && low <= b.start + k < high
    ensures var from := Max(low, b.start) - b.start;
      from <= k < from + |TextPart(b, content, low, high)| && TextPart(b, content, low, high)[k - from] == content[k]
  {
    TextPartRead(b, content, low, high);
  }

  lemma ObstructsIff(b: Block, content: string, low: int, high: int)
    requires |content| == b.length
    ensures Obstructs(b, content, low, high) <==>
      exists k :: 0 <= k < |content| && ObstructedAt(b, content, k, low, high)
  {
    hide TextPart, Unlisted;
    var part, from := TextPart(b, content, low, high), Max(low, b.start) - b.start;
    if k :| 0 <= k < |content| && ObstructedAt(b, content, k, low, high) {
      OffsetAt(b, content, low, high, k);
      FindUnlisted(b.inline, k);
      var at := k - from;
      assert part[at] == content[k] && from + at == k;
    }
    if Obstructs(b, content, low, high) {
      var k := 0;
      if !b.kind.Opaque? {
        k :| 0 <= k < |part| && part[k] == EMBEDDED && FindAt(b.inline, from + k).None?;
      }
      PartAt(b, content, low, high, k);
      FindUnlisted(b.inline, from + k);
      assert ObstructedAt(b, content, from + k, low, high);
    }
  }

  lemma TextPartRead(b: Block, content: string, low: int, high: int)
    requires |content| == b.length
    ensures var from, to := Max(low, b.start), Min(high, b.Separator());
      TextPart(b, content, low, high) == if from < to then content[from - b.start..to - b.start] else ""
  {
  }

  lemma EndPartRead(b: Block, low: int, high: int)
    ensures EndPart(b, low, high) ==
      if low < b.Stop() && b.Separator() < high
      then Slice(b.end, Max(low - b.Separator(), 0), high - b.Separator()) else ""
  {
  }

  lemma RawSliceStep(f: Field, i: nat, low: int, high: int)
    requires Aligned(f) && i < |f.blocks|
    ensures var b, content := f.blocks[i], f.contents[i];
      Slice(RawTo(f, i + 1), low, high)
      == Slice(RawTo(f, i), low, high) + TextPart(b, content, low, high) + EndPart(b, low, high)
  {
    hide Slice;
    var b, content := f.blocks[i], f.contents[i];
    Lengths(f, i);
    SliceConcat3(RawTo(f, i), content, b.end, low, high);
  }

  /** The raw text of [low, high): each block's own text and full end. */
  method RichText(f: Field, low: int, high: int) returns (r: Result<string, Denial>)
    requires Aligned(f)
    ensures r == if Obstructed(f, |f.blocks|, low, high) then Failed(UnsupportedField)
                 else Ok(Slice(Raw(f), low, high))
  {
    hide Slice, Foreign;
    var text := "";
    SliceLength(RawTo(f, 0), low, high);
    for i := 0 to |f.blocks|
      invariant !Obstructed(f, i, low, high)
      invariant text == Slice(RawTo(f, i), low, high)
    {
      var block, content := f.blocks[i], f.contents[i];
      var first, separator := block.start, block.Separator();
      var from, to := Max(low, first), Min(high, separator);
      TextPartRead(block, content, low, high);
      EndPartRead(block, low, high);
      RawSliceStep(f, i, low, high);
      if from < to {
        if block.kind.Opaque? {
          return Failed(UnsupportedField);
        }
        var value := content[from - first..to - first];
        if Foreign(value, block, from - first) {
          return Failed(UnsupportedField);
        }
        text := text + value;
      }
      if low < separator + |block.end| && separator < high {
        text := text + Slice(block.end, Max(low - separator, 0), high - separator);
      }
    }
    return Ok(text);
  }

  // ---------------------------------------------------------------- serialization of a window

  /** The inline object at flattened position `p`, as a dictionary over the first `n` blocks answers. */
  function ObjectAt(blocks: seq<Block>, n: nat, p: int): Option<Inline>
    requires n <= |blocks|
  {
    if n == 0 then None
    else
      var found := FindAt(blocks[n - 1].inline, p - blocks[n - 1].start);
      if found.Some? then found else ObjectAt(blocks, n - 1, p)
  }

  lemma {:induction false} ObjectInBlock(f: Field, i: nat, n: nat, p: int)
    requires Aligned(f) && Linked(f.blocks) && i < |f.blocks| && n <= |f.blocks|
    requires f.blocks[i].start <= p < f.blocks[i].Stop()
    ensures ObjectAt(f.blocks, n, p) == if i < n then FindAt(f.blocks[i].inline, p - f.blocks[i].start) else None
  {
    if n > 0 {
      ObjectInBlock(f, i, n - 1, p);
      var j := n - 1;
      if j != i {
        assert LinkedBlock(f.blocks[j]);
        if j < i { Ordered(f, j, i); } else { Ordered(f, i, j); }
      }
    }
  }

  /** Block `j` drops the first break of its end. */
  predicate Drops(f: Field, j: nat, p: int)
    requires j < |f.blocks| == |f.contents|
  {
    p == f.blocks[j].Separator() && Breaks(f.contents[j])
  }

  /** One of the first `n` blocks drops position `p`. */
  predicate DroppedBy(f: Field, n: nat, p: int)
    requires n <= |f.blocks| == |f.contents|
  {
    exists j :: 0 <= j < n && Drops(f, j, p)
  }

  predicate Dropped(f: Field, p: int)
    requires |f.contents| == |f.blocks|
  {
    DroppedBy(f, |f.blocks|, p)
  }

  lemma DroppedByNext(f: Field, i: nat, p: int)
    requires i < |f.blocks| == |f.contents|
    ensures DroppedBy(f, i + 1, p) <==> DroppedBy(f, i, p) || Drops(f, i, p)
  {
    if DroppedBy(f, i, p) {
      var j :| 0 <= j < i && Drops(f, j, p);
    }
    if Drops(f, i, p) {
      assert DroppedBy(f, i + 1, p);
    }
  }

  lemma DroppedInBlock(f: Field, i: nat, p: int)
    requires Aligned(f) && i < |f.blocks| && f.blocks[i].start <= p < f.blocks[i].Stop()
    ensures Dropped(f, p) <==> Drops(f, i, p)
  {
    forall j | 0 <= j < |f.blocks| && Drops(f, j, p)
      ensures j == i
    {
      if j < i {
        Ordered(f, j, i);
      } else if i < j {
        Ordered(f, i, j);
      }
    }
  }

  /** Every flattened position: nothing for a dropped break, an object's expansion, or its raw character. */
  lemma CellOf(f: Field, p: nat)
    requires Aligned(f) && Linked(f.blocks) && p < Total(f)
    ensures |Cells(f)| == |Raw(f)| == Total(f)
    ensures var found := ObjectAt(f.blocks, |f.blocks|, p);
      && (found.Some? ==> !Dropped(f, p))
      && Cells(f)[p] == if Dropped(f, p) then "" else if found.Some? then Expansion(found.value) else [Raw(f)[p]]
  {
    hide Raw, Cells, Expansion, TextCells, DroppedBy, ObjectAt;
    var i := Locate(f, p, |f.blocks|);
    var b, content := f.blocks[i], f.contents[i];
    var k := p - b.start;
    BlockAt(f, i);
    ObjectInBlock(f, i, |f.blocks|, p);
    DroppedInBlock(f, i, p);
    assert Cells(f)[p] == Cells(f)[b.start..b.Stop()][k] == BlockCells(b, content)[k];
    assert Raw(f)[p] == Raw(f)[b.start..b.Stop()][k] == BlockRaw(b, content)[k];
  }

  /** Some position of [low, high) holds an inline object whose own text cannot be resolved. */
  ghost predicate Unresolved(f: Field, low: int, high: int) {
    exists p :: low <= p < high && UnresolvedAt(f.blocks, p)
  }

  ghost predicate UnresolvedAt(blocks: seq<Block>, p: int) {
    var found := ObjectAt(blocks, |blocks|, p);
    found.Some? && !Resolvable(found.value)
  }

  lemma {:induction false} ObjectIsListed(blocks: seq<Block>, n: nat, p: int) returns (i: nat)
    requires n <= |blocks| && ObjectAt(blocks, n, p).Some?
    ensures i < n && ObjectAt(blocks, n, p).value in blocks[i].inline
  {
    if FindAt(blocks[n - 1].inline, p - blocks[n - 1].start).Some? {
      i := n - 1;
    } else {
      i := ObjectIsListed(blocks, n - 1, p);
    }
  }

  lemma SerializedStep(f: Field, low: int, p: int)
    requires |f.contents| == |f.blocks| && 0 <= low <= p < |Cells(f)|
    ensures Serialized(f, low, p + 1) == Serialized(f, low, p) + Cells(f)[p]
  {
    var longer := Slice(Cells(f), low, p + 1);
    assert longer[..|longer| - 1] == Slice(Cells(f), low, p);
  }

  lemma SerializedEmpty(f: Field, low: int, high: int)
    requires |f.contents| == |f.blocks| && high <= low
    ensures Serialized(f, low, high) == ""
  {
  }

  lemma LastOfBlock(f: Field, i: nat)
    requires Aligned(f) && i < |f.blocks| && f.blocks[i].length > 0
    ensures f.blocks[i].Separator() <= |Raw(f)|
    ensures Raw(f)[f.blocks[i].Separator() - 1] == f.contents[i][f.blocks[i].length - 1]
  {
    hide Raw, Cells, BlockCells;
    var b := f.blocks[i];
    BlockAt(f, i);
    assert Raw(f)[b.Separator() - 1] == Raw(f)[b.start..b.Stop()][b.length - 1];
  }

  /** The breaks that `text`, which begins at `start`, leaves out of its block ends. */
  method DroppedBreaks(f: Field, start: nat, text: string) returns (drop: set<int>)
    requires Aligned(f)
    requires start + |text| <= Total(f) && text == Slice(Raw(f), start, start + |text|)
    ensures forall p :: p in drop <==> start <= p < start + |text| && exists i :: 0 <= i < |f.blocks| && FollowsBreak(f, i, p)
  {
    hide Slice, Raw, Cells, BlockCells;
    drop := {};
    for i := 0 to |f.blocks|
      invariant forall p :: p in drop <==>
        start <= p < start + |text| && DroppedBy(f, i, p)
    {
      var block := f.blocks[i];
      var separator := block.Separator();
      if block.length != 0 && start <= separator < start + |text| {
        LastOfBlock(f, i);
        if separator > start {
          SliceLength(Raw(f), start, start + |text|);
          SliceAt(Raw(f), start, start + |text|, separator - 1 - start);
        }
        var last := if separator > start then text[separator - 1 - start] else f.contents[i][block.length - 1];
        if last == '\n' {
          drop := drop + {separator};
        }
      }
      forall p {
        DroppedByNext(f, i, p);
      }
    }
    forall p
      ensures p in drop <==> start <= p < start + |text| && exists i :: 0 <= i < |f.blocks| && FollowsBreak(f, i, p)
    {
      DroppedIs(f, p);
    }
  }

  /** Position `p` opens the end of block `i`, whose text ends in a line break. */
  ghost predicate FollowsBreak(f: Field, i: nat, p: int)
    requires Aligned(f) && i < |f.blocks|
  {
    p == f.blocks[i].start + |f.contents[i]| && |f.contents[i]| > 0 && f.contents[i][|f.contents[i]| - 1] == '\n'
  }

  lemma DroppedIs(f: Field, p: int)
    requires Aligned(f)
    ensures Dropped(f, p) <==> exists i :: 0 <= i < |f.blocks| && FollowsBreak(f, i, p)
  {
    if i :| 0 <= i < |f.blocks| && FollowsBreak(f, i, p) {
      assert Drops(f, i, p);
    }
    if i :| 0 <= i < |f.blocks| && Drops(f, i, p) {
      assert FollowsBreak(f, i, p);
    }
  }

  /**
   Both sides of `caret` are the joined cells of their part of the range that `text` covers from `start` on.
   The result does not depend on where the window was cut.
   */
  method ChromiumText(f: Field, start: nat, text: string, caret: int) returns (r: Result<(string, string), Denial>)
    requires Aligned(f) && Linked(f.blocks)
    requires start + |text| <= Total(f) && text == Slice(Raw(f), start, start + |text|)
    ensures r.Failed? <==> Unresolved(f, start, start + |text|)
    ensures r.Failed? ==> r.reason == UnsupportedField
    ensures r.Ok? ==> r.value.0 == Serialized(f, start, Min(caret, start + |text|))
    ensures r.Ok? ==> r.value.1 == Serialized(f, Max(caret, start), start + |text|)
  {
    hide Slice, Cells, Raw, Concat, Resolvable, Expansion, Distinct;
    var drop := DroppedBreaks(f, start, text);
    forall p {
      DroppedIs(f, p);
    }
    var before, after := "", "";
    SerializedEmpty(f, start, Min(caret, start));
    SerializedEmpty(f, Max(caret, start), start);
    for k := 0 to |text|
      invariant !Unresolved(f, start, start + k)
      invariant before == Serialized(f, start, Min(caret, start + k))
      invariant after == Serialized(f, Max(caret, start), start + k)
    {
      var position := start + k;
      CellOf(f, position);
      SliceAt(Raw(f), start, start + |text|, k);
      var piece := "";
      if position !in drop {
        var found := ObjectAt(f.blocks, |f.blocks|, position);
        if found.Some? {
          var _ := ObjectIsListed(f.blocks, |f.blocks|, position);
          var inner := InlineText(found.value);
          if inner.Failed? {
            assert UnresolvedAt(f.blocks, position);
            return Failed(UnsupportedField);
          }
          piece := inner.value;
        } else {
          piece := [text[k]];
        }
      }
      assert piece == Cells(f)[position];
      if position < caret {
        SerializedStep(f, start, position);
        SerializedEmpty(f, Max(caret, start), position);
        SerializedEmpty(f, Max(caret, start), position + 1);
        before := before + piece;
      } else {
        SerializedStep(f, Max(caret, start), position);
        after := after + piece;
      }
    }
    return Ok((before, after));
  }
}
