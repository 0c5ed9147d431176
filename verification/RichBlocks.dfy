/**
 A Chromium rich editor as the accessibility observer sees it: a list of blocks in
 flattened coordinates, each with a raw text (inline objects as U+FFFC) and an end of one
 or two line breaks, and what Chromium serializes for every flattened position.
 */
module RichBlocks {
  import opened Common

  const EMBEDDED: char := '\U{FFFC}'

  datatype Denial = UnsupportedField | InvalidCaret | StaleBinding | InvalidText

  /** An embedded object inside a block: its place in the parent's text, its own text and its own objects. */
  datatype Inline = Inline(offset: nat, text: string, nested: seq<Inline>)

  datatype Kind = Plain | Inlined | Opaque

  datatype Block = Block(start: nat, length: nat, kind: Kind, end: string, inline: seq<Inline>) {
    function Separator(): nat { start + length }

    function Stop(): nat { start + length + |end| }
  }

  /** A layout with the raw text that reading each block would return at one moment. */
  datatype Field = Field(blocks: seq<Block>, contents: seq<string>)

  predicate LineBreaks(end: string) {
    1 <= |end| <= 2 && forall k :: 0 <= k < |end| ==> end[k] == '\n'
  }

  /** Starts are running totals and every end is one or two line breaks. */
  ghost predicate Contiguous(blocks: seq<Block>) {
    && (forall i :: 0 <= i < |blocks| ==> LineBreaks(blocks[i].end))
    && (blocks != [] ==> blocks[0].start == 0)
    && (forall i, j :: 0 <= i && j == i + 1 && j < |blocks| ==> blocks[j].start == blocks[i].Stop())
  }

  /** Where block `n` begins: the stop of the block before it. */
  function StopOf(blocks: seq<Block>, n: nat): nat
    requires n <= |blocks|
  {
    if n == 0 then 0 else blocks[n - 1].Stop()
  }

  /** Contiguous blocks whose texts have the lengths the layout counted. */
  ghost predicate Aligned(f: Field) {
    && |f.contents| == |f.blocks|
    && Contiguous(f.blocks)
    && forall i :: 0 <= i < |f.blocks| ==> |f.contents[i]| == f.blocks[i].length
  }

  /** Links lie inside their block's text, and nested links stand at distinct places. */
  ghost predicate Linked(blocks: seq<Block>) {
    forall i :: 0 <= i < |blocks| ==> LinkedBlock(blocks[i])
  }

  ghost predicate LinkedBlock(b: Block) {
    forall o :: o in b.inline ==> o.offset < b.length && Distinct(o)
  }

  function Total(f: Field): nat {
    StopOf(f.blocks, |f.blocks|)
  }

  // ---------------------------------------------------------------- inline objects

  /** The object listed at offset `k`; a later entry replaces an earlier one, as in a dictionary. */
  function FindAt(objects: seq<Inline>, k: int): (r: Option<Inline>)
    ensures r.Some? ==> r.value in objects && r.value.offset == k
    ensures r.None? ==> forall o :: o in objects ==> o.offset != k
  {
    if objects == [] then None
    else
      var last := objects[|objects| - 1];
      if last.offset == k then Some(last) else FindAt(objects[..|objects| - 1], k)
  }

  /** What position `k` of a text serializes to: its object's expansion, or its own character. */
  function CellAt(text: string, objects: seq<Inline>, k: nat): string
    requires k < |text|
    decreases objects, 0
  {
    var found := FindAt(objects, k);
    if found.Some? then Expansion(found.value) else [text[k]]
  }

  function TextCells(text: string, objects: seq<Inline>, n: nat): (cells: seq<string>)
    requires n <= |text|
    ensures |cells| == n
    ensures forall k :: 0 <= k < n ==> cells[k] == CellAt(text, objects, k)
    decreases objects, 1, n
  {
    if n == 0 then [] else TextCells(text, objects, n - 1) + [CellAt(text, objects, n - 1)]
  }

  /** An object's text read left to right, each embedded object in its place. */
  function Expansion(entry: Inline): string
    decreases entry, 2
  {
    Concat(TextCells(entry.text, entry.nested, |entry.text|))
  }

  /** Every U+FFFC of the text is a listed object and every listed object is at a U+FFFC, all the way down. */
  ghost predicate Resolvable(entry: Inline) {
    && (forall o :: o in entry.nested ==> o.offset < |entry.text| && entry.text[o.offset] == EMBEDDED)
    && (forall k :: 0 <= k < |entry.text| && entry.text[k] == EMBEDDED ==> FindAt(entry.nested, k).Some?)
    && (forall o :: o in entry.nested ==> Resolvable(o))
  }

  /** No two objects of one text share an offset, all the way down. */
  ghost predicate Distinct(entry: Inline) {
    DistinctOffsets(entry.nested) && forall o :: o in entry.nested ==> Distinct(o)
  }

  ghost predicate DistinctOffsets(objects: seq<Inline>) {
    forall i, j :: 0 <= i < j < |objects| ==> objects[i].offset != objects[j].offset
  }

  // ---------------------------------------------------------------- the whole field

  /** The content's last character is a line break, which makes the first one of the block's end silent. */
  predicate Breaks(content: string) {
    content != "" && content[|content| - 1] == '\n'
  }

  function EndCells(end: string, trimmed: bool, n: nat): (cells: seq<string>)
    requires n <= |end|
    ensures |cells| == n
    ensures forall k :: 0 <= k < n ==> cells[k] == if k == 0 && trimmed then "" else [end[k]]
  {
    if n == 0 then [] else EndCells(end, trimmed, n - 1) + [if n == 1 && trimmed then "" else [end[n - 1]]]
  }

  /** One cell for each flattened position of a block: its text, then its end. */
  function BlockCells(b: Block, content: string): (cells: seq<string>)
    ensures |cells| == |content| + |b.end|
  {
    TextCells(content, b.inline, |content|) + EndCells(b.end, Breaks(content), |b.end|)
  }

  /** One character for each flattened position of the block. */
  function BlockRaw(b: Block, content: string): string {
    content + b.end
  }

  /** The raw flattened text of the first `n` blocks. */
  function RawTo(f: Field, n: nat): string
    requires n <= |f.blocks| && |f.contents| == |f.blocks|
  {
    if n == 0 then "" else RawTo(f, n - 1) + BlockRaw(f.blocks[n - 1], f.contents[n - 1])
  }

  /** What every flattened position of the first `n` blocks serializes to. */
  function CellsTo(f: Field, n: nat): seq<string>
    requires n <= |f.blocks| && |f.contents| == |f.blocks|
  {
    if n == 0 then [] else CellsTo(f, n - 1) + BlockCells(f.blocks[n - 1], f.contents[n - 1])
  }

  function Raw(f: Field): string
    requires |f.contents| == |f.blocks|
  {
    RawTo(f, |f.blocks|)
  }

  function Cells(f: Field): seq<string>
    requires |f.contents| == |f.blocks|
  {
    CellsTo(f, |f.blocks|)
  }

  /** The serialization of the flattened range [low, high). */
  function Serialized(f: Field, low: int, high: int): string
    requires |f.contents| == |f.blocks|
  {
    Concat(Slice(Cells(f), low, high))
  }

  lemma {:induction false} Lengths(f: Field, n: nat)
    requires Aligned(f) && n <= |f.blocks|
    ensures |RawTo(f, n)| == |CellsTo(f, n)| == StopOf(f.blocks, n)
  {
    if n > 0 {
      Lengths(f, n - 1);
    }
  }

  /** Later blocks do not change what the first `n` contribute. */
  lemma {:induction false} PrefixStays(f: Field, n: nat, m: nat)
    requires Aligned(f) && n <= m <= |f.blocks|
    ensures StopOf(f.blocks, n) <= StopOf(f.blocks, m)
    ensures RawTo(f, n) <= RawTo(f, m)
    ensures CellsTo(f, n) <= CellsTo(f, m)
  {
    Lengths(f, n);
    Lengths(f, m);
    if n < m {
      PrefixStays(f, n, m - 1);
    }
  }

  /** Where block `i` lies in the field's text and cells. */
  lemma BlockSpan(f: Field, i: nat)
    requires Aligned(f) && i < |f.blocks|
    ensures |Raw(f)| == |Cells(f)| == Total(f)
    ensures |RawTo(f, i)| == |CellsTo(f, i)| == f.blocks[i].start && f.blocks[i].Stop() <= Total(f)
    ensures RawTo(f, i) + BlockRaw(f.blocks[i], f.contents[i]) <= Raw(f)
    ensures CellsTo(f, i) + BlockCells(f.blocks[i], f.contents[i]) <= Cells(f)
  {
    Lengths(f, i);
    Lengths(f, |f.blocks|);
    PrefixStays(f, i + 1, |f.blocks|);
  }

  /** The part of the field that block `i` contributes, position by position. */
  lemma BlockAt(f: Field, i: nat)
    requires Aligned(f) && i < |f.blocks|
    ensures var b := f.blocks[i];
      && b.Stop() <= |Raw(f)| == |Cells(f)| == Total(f)
      && Raw(f)[b.start..b.Stop()] == BlockRaw(b, f.contents[i])
      && Cells(f)[b.start..b.Stop()] == BlockCells(b, f.contents[i])
  {
    BlockSpan(f, i);
    PartOf(RawTo(f, i), BlockRaw(f.blocks[i], f.contents[i]), Raw(f));
    PartOf(CellsTo(f, i), BlockCells(f.blocks[i], f.contents[i]), Cells(f));
  }

  lemma PartOf<T>(a: seq<T>, b: seq<T>, whole: seq<T>)
    requires a + b <= whole
    ensures |a| + |b| <= |whole| && whole[|a|..|a| + |b|] == b
  {
    assert whole[..|a + b|] == a + b;
    assert whole[|a|..|a| + |b|] == (a + b)[|a|..];
  }

  /** The block that holds a flattened position. */
  lemma {:induction false} Locate(f: Field, p: nat, n: nat) returns (i: nat)
    requires Aligned(f) && n <= |f.blocks| && p < StopOf(f.blocks, n)
    ensures i < n && f.blocks[i].start <= p < f.blocks[i].Stop()
  {
    if p >= f.blocks[n - 1].start {
      i := n - 1;
    } else {
      i := Locate(f, p, n - 1);
    }
  }

  /** Blocks do not overlap. */
  lemma Ordered(f: Field, i: nat, j: nat)
    requires Aligned(f) && i < j < |f.blocks|
    ensures f.blocks[i].Stop() <= f.blocks[j].start
  {
    PrefixStays(f, i + 1, j);
  }
}
