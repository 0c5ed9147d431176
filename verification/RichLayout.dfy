/** Flattening a rich editor root: block starts as running totals, and the one block that holds the caret. */
module RichLayout {
  import opened Common
  import opened RichBlocks

  const MAX_RICH_BLOCKS := 64

  /** One linked child of the root, from structure alone; `objects` is None when one of them is not inline text. */
  datatype Node = Node(role: string, hasText: bool, hasHypertext: bool, objects: Option<seq<Inline>>,
                       characters: nat, caretOffset: int, selections: nat) {
    function Length(): nat { if hasText then characters else 1 }

    function Caret(): int { if hasText then caretOffset else -1 }

    function Selections(): nat { if hasText then selections else 0 }
  }

  datatype Layout = Layout(blocks: seq<Block>, caret: int, total: nat, selections: nat, caretBlock: int)

  function BlockEnd(role: string): Option<string> {
    if role == "paragraph" || role == "heading" then Some("\n\n")
    else if role == "section" then Some("\n")
    else None
  }

  /** The block at `start` that this node makes; unreadable unless its role, interfaces and objects are known. */
  function BlockShape(node: Node, start: nat): (b: Block)
    ensures LineBreaks(b.end) && b.start == start && b.length == if node.hasText then node.characters else 1
    ensures b.kind.Opaque? ==> b.end == "\n"
    ensures !b.kind.Opaque? ==>
      if node.role == "section" then b.end == "\n" else b.end == "\n\n" && (node.role == "paragraph" || node.role == "heading")
    ensures !b.kind.Opaque? ==> node.objects == Some(b.inline) && (b.kind.Plain? <==> b.inline == [])
    ensures !b.kind.Opaque? <==> (node.role == "paragraph" || node.role == "heading" || node.role == "section")
                                 && node.hasText && node.hasHypertext && node.objects.Some?
  {
    var end := BlockEnd(node.role);
    if end.None? || !node.hasText || !node.hasHypertext || node.objects.None? then
      Block(start, node.Length(), Opaque, "\n", [])
    else
      var objects := node.objects.value;
      Block(start, node.Length(), if objects == [] then Plain else Inlined, end.value, objects)
  }

  /** The root's caret names a readable block, the caret lies in that block, and in no other. */
  predicate OneCaret(nodes: seq<Node>, caret: int) {
    && 0 <= caret < |nodes|
    && 0 <= nodes[caret].Caret() <= nodes[caret].Length()
    && forall i :: 0 <= i < |nodes| && i != caret ==> nodes[i].Caret() == -1
  }

  function SelectionsOf(nodes: seq<Node>): nat {
    if nodes == [] then 0 else SelectionsOf(nodes[..|nodes| - 1]) + nodes[|nodes| - 1].Selections()
  }

  /** The node named by `caret` has it, at one of its positions or its end, and no other node with text has one. */
  ghost predicate HoldsCaret(nodes: seq<Node>, caret: int) {
    && 0 <= caret < |nodes| && nodes[caret].hasText && 0 <= nodes[caret].caretOffset <= nodes[caret].characters
    && forall i :: 0 <= i < |nodes| && i != caret && nodes[i].hasText ==> nodes[i].caretOffset == -1
  }

  lemma OneCaretIff(nodes: seq<Node>, caret: int)
    ensures OneCaret(nodes, caret) <==> HoldsCaret(nodes, caret)
  {
  }

  /** Only nodes with text count their selections. */
  lemma SelectionsAdd(nodes: seq<Node>, node: Node)
    ensures SelectionsOf(nodes + [node]) == SelectionsOf(nodes) + if node.hasText then node.selections else 0
    ensures SelectionsOf([]) == 0
  {
    assert (nodes + [node])[..|nodes|] == nodes;
  }

  /** Success means one caret, in the readable block `caret`. */
  function FlattenedLayout(blocks: seq<Block>, nodes: seq<Node>, selections: nat, total: nat, caret: int)
    : Result<Layout, Denial>
    requires |blocks| == |nodes|
  {
    if 0 <= caret < |blocks| && blocks[caret].kind.Opaque? then Failed(UnsupportedField)
    else if !OneCaret(nodes, caret) then Failed(InvalidCaret)
    else Ok(Layout(blocks, blocks[caret].start + nodes[caret].Caret(), total, selections, caret))
  }

  /** Contiguous blocks, one for each child in order, with the caret at its offset in the one block that holds it. */
  method Flatten(nodes: seq<Node>, count: nat, caret: int) returns (r: Result<Option<Layout>, Denial>)
    ensures r == Ok(None) <==> nodes == []
    ensures r == Failed(UnsupportedField) <==> (nodes != [] && (
      |nodes| > MAX_RICH_BLOCKS || |nodes| != count || (0 <= caret < |nodes| && BlockShape(nodes[caret], 0).kind.Opaque?)))
    ensures r.Ok? && r.value.Some? ==> HoldsCaret(nodes, caret) && |nodes| <= MAX_RICH_BLOCKS
    ensures r.Ok? && r.value.Some? ==> var l := r.value.value;
      && Contiguous(l.blocks) && |l.blocks| == |nodes| && l.total == StopOf(l.blocks, |l.blocks|)
      && (forall i :: 0 <= i < |nodes| ==> l.blocks[i] == BlockShape(nodes[i], l.blocks[i].start))
      && l.caretBlock == caret && !l.blocks[caret].kind.Opaque?
      && l.caret == l.blocks[caret].start + nodes[caret].Caret()
      && l.selections == SelectionsOf(nodes)
    ensures r.Failed? ==> r.reason == UnsupportedField || (r.reason == InvalidCaret && !HoldsCaret(nodes, caret))
  {
    if nodes == [] {
      return Ok(None);
    }
    if |nodes| > MAX_RICH_BLOCKS || |nodes| != count {
      return Failed(UnsupportedField);
    }
    hide BlockShape, BlockEnd, OneCaret, HoldsCaret;
    var blocks: seq<Block> := [];
    var start, selections := 0, 0;
    for i := 0 to |nodes|
      invariant |blocks| == i && Contiguous(blocks) && start == StopOf(blocks, i)
      invariant forall j :: 0 <= j < i ==> blocks[j] == BlockShape(nodes[j], blocks[j].start)
      invariant selections == SelectionsOf(nodes[..i])
    {
      assert nodes[..i + 1][..i] == nodes[..i];
      var block := BlockShape(nodes[i], start);
      selections := selections + nodes[i].Selections();
      blocks := blocks + [block];
      start := start + block.length + |block.end|;
    }
    assert nodes[..|nodes|] == nodes;
    OneCaretIff(nodes, caret);
    var layout := FlattenedLayout(blocks, nodes, selections, start, caret);
    if layout.Failed? {
      return Failed(layout.reason);
    }
    return Ok(Some(layout.value));
  }
}
