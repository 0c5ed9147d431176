/**
 The observer's bounded snapshot of a rich editor: read a window around the caret twice,
 serialize it, split at the caret and clip. It equals clipping the whole field's
 serialization, whatever the unreadable blocks hold.
 */
module Snapshot {
  import opened Common
  import opened RichBlocks
  import opened InlineObjects
  import opened RichReading
  import opened Serialization
  import opened Margin

  const MAX_BEFORE: nat := 512
  const MAX_AFTER: nat := 128
  const NO_BREAK_SPACE: char := '\U{00A0}'

  datatype Scope = WholeField | CaretBlock

  /** The field at one moment: its blocks and texts, the caret's block and offset in it, and its selections. */
  datatype Reading = Reading(field: Field, caretBlock: nat, offset: nat, selections: nat) {
    function Caret(): nat
      requires caretBlock < |field.blocks|
    {
      field.blocks[caretBlock].start + offset
    }
  }

  datatype Excerpt = Excerpt(before: string, after: string, reachesEnd: bool, scope: Scope)

  /** What a successful layout guarantees: the caret is in a readable block. */
  ghost predicate Ready(r: Reading) {
    && Aligned(r.field) && Linked(r.field.blocks)
    && r.caretBlock < |r.field.blocks|
    && !r.field.blocks[r.caretBlock].kind.Opaque?
    && r.offset <= r.field.blocks[r.caretBlock].length
  }

  // ---------------------------------------------------------------- the window

  /** An opaque block whose text or end meets [low, high). */
  predicate OpaqueMeets(blocks: seq<Block>, low: int, high: int) {
    exists i :: 0 <= i < |blocks| && blocks[i].kind.Opaque? && blocks[i].start < high && low < blocks[i].Stop()
  }

  /** The bounds as they are unless an opaque block meets them; then cut to the caret's block. */
  function RichWindow(blocks: seq<Block>, caretBlock: nat, low: int, high: int): (int, int, Scope)
    requires caretBlock < |blocks|
  {
    if !OpaqueMeets(blocks, low, high) then (low, high, WholeField)
    else (Max(low, blocks[caretBlock].start), Min(high, blocks[caretBlock].Stop()), CaretBlock)
  }

  /** The clipping bounds around the caret, one position a block wider than the clip, narrowed by RichWindow. */
  function Window(r: Reading): (int, int, Scope)
    requires r.caretBlock < |r.field.blocks|
  {
    var margin := |r.field.blocks|;
    RichWindow(r.field.blocks, r.caretBlock,
               Max(0, r.Caret() - MAX_BEFORE - margin), Min(Total(r.field), r.Caret() + MAX_AFTER + margin))
  }

  lemma CaretInField(r: Reading)
    requires Ready(r)
    ensures r.Caret() <= r.field.blocks[r.caretBlock].Stop() <= Total(r.field)
  {
    PrefixStays(r.field, r.caretBlock + 1, |r.field.blocks|);
  }

  /** Any window narrowed to a readable block stays clear of opaque blocks. */
  lemma NarrowedAvoidsOpaque(f: Field, caretBlock: nat, low: int, high: int, i: nat)
    requires Aligned(f) && caretBlock < |f.blocks| && !f.blocks[caretBlock].kind.Opaque?
    requires i < |f.blocks| && f.blocks[i].kind.Opaque?
    ensures var (first, last, _) := RichWindow(f.blocks, caretBlock, low, high);
      last <= f.blocks[i].start || f.blocks[i].Stop() <= first
  {
    if OpaqueMeets(f.blocks, low, high) {
      if i < caretBlock {
        Ordered(f, i, caretBlock);
      } else {
        Ordered(f, caretBlock, i);
      }
    }
  }

  /** A position the clips may need: one a block more than either clip. */
  predicate Near(r: Reading, p: int)
    requires r.caretBlock < |r.field.blocks|
  {
    r.Caret() - MAX_BEFORE - |r.field.blocks| <= p < r.Caret() + MAX_AFTER + |r.field.blocks|
  }

  /** An opaque block meets the near positions. */
  predicate Hindered(r: Reading)
    requires r.caretBlock < |r.field.blocks|
  {
    var reach := |r.field.blocks|;
    exists i :: 0 <= i < |r.field.blocks| && r.field.blocks[i].kind.Opaque?
      && r.field.blocks[i].start < Min(Total(r.field), r.Caret() + MAX_AFTER + reach)
      && Max(0, r.Caret() - MAX_BEFORE - reach) < r.field.blocks[i].Stop()
  }

  /** Every near position of the field is in the window, unless an opaque block meets them: then those of the caret's block. */
  lemma WindowIs(r: Reading, p: nat)
    requires Ready(r) && p < Total(r.field)
    ensures var (low, high, scope) := Window(r); var b := r.field.blocks[r.caretBlock];
      && (scope == CaretBlock <==> Hindered(r))
      && (low <= p < high <==> Near(r, p) && (scope == WholeField || b.start <= p < b.Stop()))
  {
    CaretInField(r);
  }

  /** The window holds the caret, and no opaque block meets it, not even at its end. */
  lemma WindowHoldsCaret(r: Reading)
    requires Ready(r)
    ensures 0 <= Window(r).0 <= r.Caret() <= Window(r).1 <= Total(r.field)
    ensures forall i :: 0 <= i < |r.field.blocks| && r.field.blocks[i].kind.Opaque? ==>
      Window(r).1 <= r.field.blocks[i].start || r.field.blocks[i].Stop() <= Window(r).0
  {
    hide OpaqueMeets, Linked, Contiguous;
    CaretInField(r);
    var f, margin := r.field, |r.field.blocks|;
    forall i | 0 <= i < |f.blocks| && f.blocks[i].kind.Opaque?
      ensures Window(r).1 <= f.blocks[i].start || f.blocks[i].Stop() <= Window(r).0
    {
      NarrowedAvoidsOpaque(f, r.caretBlock, Max(0, r.Caret() - MAX_BEFORE - margin),
                           Min(Total(f), r.Caret() + MAX_AFTER + margin), i);
    }
  }

  // ---------------------------------------------------------------- reading it

  predicate ControlCharacter(text: string) {
    exists k :: 0 <= k < |text| && text[k] < ' ' && text[k] !in {'\n', '\t', '\r'}
  }

  predicate SamePosition(a: Reading, b: Reading)
    requires a.caretBlock < |a.field.blocks| && b.caretBlock < |b.field.blocks|
  {
    a.Caret() == b.Caret() && Total(a.field) == Total(b.field) && a.selections == b.selections
  }

  /** What reading [low, high) twice answers: the text only when nothing moved or changed in between. */
  function StableSpec(first: Reading, second: Reading, epochHeld: bool, low: int, high: int): Result<string, Denial>
    requires |first.field.blocks| == |first.field.contents| && |second.field.blocks| == |second.field.contents|
    requires first.caretBlock < |first.field.blocks| && second.caretBlock < |second.field.blocks|
  {
    var a, b := Slice(Raw(first.field), low, high), Slice(Raw(second.field), low, high);
    if Obstructed(first.field, |first.field.blocks|, low, high) then Failed(UnsupportedField)
    else if !epochHeld || !SamePosition(first, second) then Failed(StaleBinding)
    else if Obstructed(second.field, |second.field.blocks|, low, high) then Failed(UnsupportedField)
    else if a != b || |a| != high - low then Failed(StaleBinding)
    else if ControlCharacter(a) then Failed(InvalidText)
    else Ok(a)
  }

  lemma StableTextIsSlice(first: Reading, second: Reading, epochHeld: bool, low: int, high: int)
    requires |first.field.blocks| == |first.field.contents| && |second.field.blocks| == |second.field.contents|
    requires first.caretBlock < |first.field.blocks| && second.caretBlock < |second.field.blocks|
    ensures var r := StableSpec(first, second, epochHeld, low, high);
      r.Ok? ==> r.value == Slice(Raw(first.field), low, high) && |r.value| == high - low
  {
    hide Slice, Raw, Obstructed, ControlCharacter, SamePosition;
  }

  /** Between two readings neither the caret, the length, the selections nor any character of [low, high) changed. */
  ghost predicate Unmoved(first: Reading, second: Reading, low: int, high: int)
    requires |first.field.blocks| == |first.field.contents| && |second.field.blocks| == |second.field.contents|
    requires first.caretBlock < |first.field.blocks| && second.caretBlock < |second.field.blocks|
  {
    && first.Caret() == second.Caret() && Total(first.field) == Total(second.field) && first.selections == second.selections
    && low <= high
    && forall p :: low <= p < high ==> Alike(Raw(first.field), Raw(second.field), p)
  }

  /** Both texts have position `p`, with the same character. */
  predicate Alike(a: string, b: string, p: int) {
    0 <= p < |a| && p < |b| && a[p] == b[p]
  }

  /** No position of [low, high) holds a control character but a line break, a tab or a return. */
  ghost predicate Clean(text: string, low: int, high: int) {
    forall p :: low <= p < high && 0 <= p < |text| ==> text[p] >= ' ' || text[p] == '\n' || text[p] == '\t' || text[p] == '\r'
  }

  /** [low, high) can be read in both readings. */
  ghost predicate Readable(first: Reading, second: Reading, low: int, high: int)
    requires |first.field.blocks| == |first.field.contents| && |second.field.blocks| == |second.field.contents|
  {
    !Obstructed(first.field, |first.field.blocks|, low, high) && !Obstructed(second.field, |second.field.blocks|, low, high)
  }

  /** Text is what both readings agree on, character by character, and each way to disagree has its own denial. */
  ghost predicate AnswersStably(r: Result<string, Denial>, first: Reading, second: Reading, epochHeld: bool, low: int, high: int)
    requires |first.field.blocks| == |first.field.contents| && |second.field.blocks| == |second.field.contents|
    requires first.caretBlock < |first.field.blocks| && second.caretBlock < |second.field.blocks|
  {
    var readable, clean := Readable(first, second, low, high), Clean(Raw(first.field), low, high);
    var steady := epochHeld && Unmoved(first, second, low, high);
    && (r.Ok? <==> readable && steady && clean)
    && (r.Ok? ==> IsRange(r.value, Raw(first.field), low, high))
    && (readable && !steady ==> r == Failed(StaleBinding))
    && (readable && steady && !clean ==> r == Failed(InvalidText))
    && (Obstructed(first.field, |first.field.blocks|, low, high) ==> r == Failed(UnsupportedField))
  }

  /** The characters of `text` at [low, high), all of which it has. */
  ghost predicate IsRange(value: string, text: string, low: int, high: int) {
    |value| == high - low && forall k :: 0 <= k < |value| ==> 0 <= low + k < |text| && value[k] == text[low + k]
  }

  lemma StableTextMeans(first: Reading, second: Reading, epochHeld: bool, low: int, high: int)
    requires |first.field.blocks| == |first.field.contents| && |second.field.blocks| == |second.field.contents|
    requires first.caretBlock < |first.field.blocks| && second.caretBlock < |second.field.blocks|
    ensures AnswersStably(StableSpec(first, second, epochHeld, low, high), first, second, epochHeld, low, high)
  {
    hide Raw, Obstructed, Slice, ControlCharacter, Clean, IsRange, Alike;
    SliceIsRange(Raw(first.field), low, high);
    SlicesAgree(Raw(first.field), Raw(second.field), low, high);
    ControlIs(Raw(first.field), low, high);
  }

  lemma SliceIsRange(a: string, low: int, high: int)
    ensures |Slice(a, low, high)| == high - low ==> IsRange(Slice(a, low, high), a, low, high)
  {
  }

  lemma SlicesAgree(a: string, b: string, low: int, high: int)
    ensures Slice(a, low, high) == Slice(b, low, high) && |Slice(a, low, high)| == high - low <==>
      low <= high && forall p :: low <= p < high ==> Alike(a, b, p)
  {
    var x, y := Slice(a, low, high), Slice(b, low, high);
    if |x| == high - low {
      forall p | low <= p < high
        ensures 0 <= p < |a| && x[p - low] == a[p] && (x == y ==> Alike(a, b, p))
      {
        if x == y {
          assert y[p - low] == a[p];
        }
      }
    }
    if low <= high && forall p :: low <= p < high ==> Alike(a, b, p) {
      if low < high {
        assert Alike(a, b, low) && Alike(a, b, high - 1);
      }
      forall k | 0 <= k < |x|
        ensures x[k] == y[k]
      {
        assert Alike(a, b, low + k);
      }
    }
  }

  lemma ControlIs(a: string, low: int, high: int)
    ensures ControlCharacter(Slice(a, low, high)) <==> !Clean(a, low, high)
  {
    var x, first := Slice(a, low, high), Max(low, 0);
    if ControlCharacter(x) {
      var k :| 0 <= k < |x| && x[k] < ' ' && x[k] !in {'\n', '\t', '\r'};
      assert a[first + k] == x[k];
    }
    if !Clean(a, low, high) {
      var p :| low <= p < high && 0 <= p < |a| && !(a[p] >= ' ' || a[p] == '\n' || a[p] == '\t' || a[p] == '\r');
      assert x[p - first] == a[p];
    }
  }

  /** Two readings of [low, high) as one answer: text only when both agree at one position and epoch. */
  method StableText(first: Reading, second: Reading, epochHeld: bool, low: int, high: int)
    returns (r: Result<string, Denial>)
    requires Aligned(first.field) && Aligned(second.field)
    requires first.caretBlock < |first.field.blocks| && second.caretBlock < |second.field.blocks|
    ensures r == StableSpec(first, second, epochHeld, low, high)
    ensures AnswersStably(r, first, second, epochHeld, low, high)
  {
    hide AnswersStably, Slice, Raw, Obstructed, ControlCharacter;
    StableTextMeans(first, second, epochHeld, low, high);
    var text := RichText(first.field, low, high);
    if text.Failed? {
      return text;
    }
    if !epochHeld || !SamePosition(first, second) {
      return Failed(StaleBinding);
    }
    var again := RichText(second.field, low, high);
    if again.Failed? {
      return again;
    }
    if text.value != again.value || |text.value| != high - low {
      return Failed(StaleBinding);
    }
    if ControlCharacter(text.value) {
      return Failed(InvalidText);
    }
    return text;
  }

  /** Chromium's contenteditable text as Fcitx receives it: no-break spaces arrive as spaces. */
  function SurroundingText(value: string): (r: string)
    ensures |r| == |value|
    ensures forall k :: 0 <= k < |r| ==> r[k] == if value[k] == NO_BREAK_SPACE then ' ' else value[k]
  {
    seq(|value|, k requires 0 <= k < |value| => if value[k] == NO_BREAK_SPACE then ' ' else value[k])
  }

  /** The same block boundaries, kinds and ends; texts and inline objects may differ. */
  ghost predicate SameShape(a: seq<Block>, b: seq<Block>) {
    && |a| == |b|
    && forall i :: 0 <= i < |a| ==>
      a[i].start == b[i].start && a[i].length == b[i].length && a[i].kind == b[i].kind && a[i].end == b[i].end
  }

  /**
   `third` is the field at the later moment when inline objects, and the character before a break that
   opens the window, are asked for: it shares the layout that was read and the raw text of the window.
   */
  ghost predicate Serializes(first: Reading, third: Field)
    requires Ready(first)
  {
    && Aligned(third) && Linked(third.blocks) && SameShape(first.field.blocks, third.blocks)
    && Slice(Raw(third), Window(first).0, Window(first).1) == Slice(Raw(first.field), Window(first).0, Window(first).1)
  }

  /** The reading with the texts of that later moment. */
  function Then(first: Reading, third: Field): Reading {
    first.(field := third)
  }

  /** The layout alone decides the window. */
  lemma SameWindow(first: Reading, third: Field)
    requires Ready(first) && Aligned(third) && Linked(third.blocks) && SameShape(first.field.blocks, third.blocks)
    ensures Ready(Then(first, third)) && Window(Then(first, third)) == Window(first)
    ensures Total(third) == Total(first.field) && Then(first, third).Caret() == first.Caret()
  {
    var f := first.field;
    SameStops(f.blocks, third.blocks, |f.blocks|);
    assert forall i :: 0 <= i < |f.blocks| ==> f.blocks[i].Stop() == third.blocks[i].Stop();
    forall low: int, high: int
      ensures OpaqueMeets(f.blocks, low, high) == OpaqueMeets(third.blocks, low, high)
    {
      if OpaqueMeets(f.blocks, low, high) {
        var i :| 0 <= i < |f.blocks| && f.blocks[i].kind.Opaque? && f.blocks[i].start < high && low < f.blocks[i].Stop();
        assert third.blocks[i].kind.Opaque?;
      }
      if OpaqueMeets(third.blocks, low, high) {
        var i :| 0 <= i < |f.blocks| && third.blocks[i].kind.Opaque? && third.blocks[i].start < high
          && low < third.blocks[i].Stop();
        assert f.blocks[i].kind.Opaque?;
      }
    }
  }

  lemma {:induction false} SameStops(a: seq<Block>, b: seq<Block>, n: nat)
    requires SameShape(a, b) && n <= |a|
    ensures StopOf(a, n) == StopOf(b, n)
  {
    if n > 0 {
      SameStops(a, b, n - 1);
    }
  }

  /** The reply, from the field's cells alone. */
  ghost function ExcerptSpec(first: Reading, second: Reading, third: Field, epochHeld: bool): Result<Excerpt, Denial>
    requires Ready(first) && Aligned(second.field) && second.caretBlock < |second.field.blocks| && Serializes(first, third)
  {
    var (low, high, scope) := Window(first);
    var text := StableSpec(first, second, epochHeld, low, high);
    if text.Failed? then Failed(text.reason)
    else if Unresolved(third, low, high) then Failed(UnsupportedField)
    else Ok(Excerpt(SurroundingText(Tail(Serialized(third, low, first.Caret()), MAX_BEFORE)),
                    SurroundingText(Head(Serialized(third, first.Caret(), high), MAX_AFTER)),
                    high == Total(first.field), scope))
  }

  /** The two clipped sides of the caret, from three readings of the field. */
  method TextWindow(first: Reading, second: Reading, third: Field, epochHeld: bool) returns (r: Result<Excerpt, Denial>)
    requires Ready(first) && Aligned(second.field) && second.caretBlock < |second.field.blocks| && Serializes(first, third)
    ensures r == ExcerptSpec(first, second, third, epochHeld)
    ensures var (low, high, scope) := Window(first);
      && (r.Ok? ==> epochHeld && Unmoved(first, second, low, high) && Clean(Raw(first.field), low, high))
      && (Readable(first, second, low, high) && !(epochHeld && Unmoved(first, second, low, high)) ==> r == Failed(StaleBinding))
      && (r.Ok? ==> r.value.scope == scope && (r.value.reachesEnd <==> high == Total(first.field)))
      && (r.Ok? ==> |r.value.before| == Min(512, |Serialized(third, low, first.Caret())|))
      && (r.Ok? ==> |r.value.after| == Min(128, |Serialized(third, first.Caret(), high)|))
  {
    hide Unmoved, Clean, Readable, Obstructed;
    hide Serialized, Raw, Slice, StableSpec, SurroundingText, Tail, Head, Linked, Contiguous, OpaqueMeets, Unresolved, SameShape;
    var f, caret, margin := first.field, first.Caret(), |first.field.blocks|;
    var start := Max(0, caret - MAX_BEFORE - margin);
    var end := Min(Total(f), caret + MAX_AFTER + margin);
    var (low, high, scope) := RichWindow(f.blocks, first.caretBlock, start, end);
    WindowHoldsCaret(first);
    SameWindow(first, third);
    assert Window(first) == (low, high, scope);
    var text := StableText(first, second, epochHeld, low, high);
    if text.Failed? {
      return Failed(text.reason);
    }
    StableTextIsSlice(first, second, epochHeld, low, high);
    assert low + |text.value| == high;
    assert Slice(Raw(third), low, low + |text.value|) == text.value;
    var sides := ChromiumText(third, low, text.value, caret);
    if sides.Failed? {
      return Failed(sides.reason);
    }
    var before, after := Tail(sides.value.0, MAX_BEFORE), Head(sides.value.1, MAX_AFTER);
    TailLength(sides.value.0, MAX_BEFORE);
    HeadLength(sides.value.1, MAX_AFTER);
    return Ok(Excerpt(SurroundingText(before), SurroundingText(after), high == Total(f), scope));
  }

  // ---------------------------------------------------------------- what the reply means

  /** The last 512 characters of everything Chromium sends before the caret. */
  function IdealBefore(r: Reading, foreign: seq<string>): string
    requires r.caretBlock < |r.field.blocks| == |r.field.contents| == |foreign|
    requires r.offset <= |r.field.contents[r.caretBlock]|
  {
    Tail(WholeBefore(r.field, foreign, r.caretBlock, r.offset), MAX_BEFORE)
  }

  /** The first 128 characters of everything Chromium sends after the caret. */
  function IdealAfter(r: Reading, foreign: seq<string>): string
    requires r.caretBlock < |r.field.blocks| == |r.field.contents| == |foreign|
    requires r.offset <= |r.field.contents[r.caretBlock]|
  {
    Head(WholeAfter(r.field, foreign, r.caretBlock, r.offset), MAX_AFTER)
  }

  /**
   In field scope the window reply is the whole field's serialization, split and clipped, for
   every text of the opaque blocks outside the window, as long as inline objects show text.
   */
  lemma FieldScopeIsExact(r: Reading, foreign: seq<string>)
    requires Ready(r) && |foreign| == |r.field.blocks|
    requires Window(r).2 == WholeField && ObjectsShow(r.field.blocks)
    ensures Tail(Serialized(r.field, Window(r).0, r.Caret()), MAX_BEFORE) == IdealBefore(r, foreign)
    ensures Head(Serialized(r.field, r.Caret(), Window(r).1), MAX_AFTER) == IdealAfter(r, foreign)
  {
    hide Serialized, WholeBefore, WholeAfter, Tail, Head, ObjectsShow;
    var f := r.field;
    var (low, high, scope) := Window(r);
    WindowHoldsCaret(r);
    Lengths(f, |f.blocks|);
    Neighbours(r);
    var x := RangeEndsBefore(f, foreign, r.caretBlock, r.offset, low);
    var y := RangeBeginsAfter(f, foreign, r.caretBlock, r.offset, high);
    MarginSuffices(f, low, r.Caret());
    MarginSuffices(f, r.Caret(), high);
    TailOfLonger(x, Serialized(f, low, r.Caret()), MAX_BEFORE);
    HeadOfLonger(Serialized(f, r.Caret(), high), y, MAX_AFTER);
  }

  /** Opaque blocks lie wholly outside the window, on their own side of the caret. */
  lemma Neighbours(r: Reading)
    requires Ready(r)
    ensures ReadableFrom(r.field, r.caretBlock, Window(r).0)
    ensures ReadableUpTo(r.field, r.caretBlock + 1, Window(r).1)
  {
    var f := r.field;
    var (low, high, scope) := Window(r);
    WindowHoldsCaret(r);
    forall i | 0 <= i < |f.blocks| && f.blocks[i].kind.Opaque?
      ensures i < r.caretBlock ==> f.blocks[i].Stop() <= low
      ensures r.caretBlock < i ==> high <= f.blocks[i].start
    {
      if i < r.caretBlock {
        Ordered(f, i, r.caretBlock);
      } else if r.caretBlock < i {
        Ordered(f, r.caretBlock, i);
      }
    }
  }

  /** `a` ends `whole`. */
  predicate Ends(a: string, whole: string) {
    |a| <= |whole| && whole[|whole| - |a|..] == a
  }

  /** In field scope the reply is exactly what Fcitx holds, clipped, when every inline object shows text. */
  lemma SnapshotIsExact(first: Reading, second: Reading, third: Field, epochHeld: bool, foreign: seq<string>)
    requires Ready(first) && Aligned(second.field) && second.caretBlock < |second.field.blocks| && Serializes(first, third)
    requires |foreign| == |third.blocks| && ObjectsShow(third.blocks)
    ensures Ready(Then(first, third))
    ensures var r := ExcerptSpec(first, second, third, epochHeld);
      r.Ok? && r.value.scope == WholeField ==>
        && r.value.before == SurroundingText(IdealBefore(Then(first, third), foreign))
        && r.value.after == SurroundingText(IdealAfter(Then(first, third), foreign))
  {
    hide IdealBefore, IdealAfter, Serialized, Tail, Head, StableSpec, SameShape, Window, Linked, Contiguous;
    SameWindow(first, third);
    if Window(first).2 == WholeField {
      FieldScopeIsExact(Then(first, third), foreign);
    }
  }

  lemma CellsLength(f: Field)
    requires Aligned(f)
    ensures |Cells(f)| == Total(f)
  {
    Lengths(f, |f.blocks|);
  }

  /** In block scope the window reaches each end of the caret's block, or a block's margin past the clip. */
  lemma BlockWindow(r: Reading)
    requires Ready(r) && Window(r).2 == CaretBlock
    ensures var (low, high, scope) := Window(r); var b, n := r.field.blocks[r.caretBlock], |r.field.blocks|;
      (low == b.start || r.Caret() - low == MAX_BEFORE + n) && (high == b.Stop() || high - r.Caret() == MAX_AFTER + n)
      && b.start <= low && high <= b.Stop()
  {
    CaretInField(r);
  }

  /** In block scope the reply is exactly what the caret's own block serializes to, clipped, when every inline object shows text. */
  lemma BlockScopeIsExact(first: Reading, second: Reading, third: Field, epochHeld: bool)
    requires Ready(first) && Aligned(second.field) && second.caretBlock < |second.field.blocks| && Serializes(first, third)
    requires ObjectsShow(third.blocks)
    ensures var r, b := ExcerptSpec(first, second, third, epochHeld), first.field.blocks[first.caretBlock];
      r.Ok? && r.value.scope == CaretBlock ==>
        && r.value.before == SurroundingText(Tail(Serialized(third, b.start, first.Caret()), MAX_BEFORE))
        && r.value.after == SurroundingText(Head(Serialized(third, first.Caret(), b.Stop()), MAX_AFTER))
  {
    hide Serialized, Tail, Head, StableSpec, SurroundingText, ObjectsShow, Unresolved, OpaqueMeets, Linked, Window;
    hide Contiguous, Slice, Raw, Cells;
    SameWindow(first, third);
    var (low, high, scope) := Window(first);
    if scope == CaretBlock {
      BlockWindow(first);
      var b, caret := first.field.blocks[first.caretBlock], first.Caret();
      WindowHoldsCaret(first);
      CaretInField(first);
      CellsLength(third);
      SerializedSplit(third, b.start, low, caret);
      SerializedSplit(third, caret, high, b.Stop());
      MarginSuffices(third, low, caret);
      MarginSuffices(third, caret, high);
      NothingSerialized(third, b.start);
      NothingSerialized(third, b.Stop());
      TailOfLonger(Serialized(third, b.start, low), Serialized(third, low, caret), MAX_BEFORE);
      HeadOfLonger(Serialized(third, caret, high), Serialized(third, high, b.Stop()), MAX_AFTER);
    }
  }

  /** In either scope the reply ends (begins) what Fcitx holds, whatever the opaque blocks show. */
  lemma SnapshotIsPartOfWhole(first: Reading, second: Reading, third: Field, epochHeld: bool, foreign: seq<string>)
    requires Ready(first) && Aligned(second.field) && second.caretBlock < |second.field.blocks| && Serializes(first, third)
    requires |foreign| == |third.blocks|
    ensures Ready(Then(first, third))
    ensures var r := ExcerptSpec(first, second, third, epochHeld);
      r.Ok? ==>
        && Ends(r.value.before, SurroundingText(WholeBefore(third, foreign, first.caretBlock, first.offset)))
        && r.value.after <= SurroundingText(WholeAfter(third, foreign, first.caretBlock, first.offset))
  {
    hide Serialized, WholeBefore, WholeAfter, StableSpec, Window, SurroundingText, Tail, Head, Ends, Unresolved, Linked, Contiguous;
    hide SameShape;
    SameWindow(first, third);
    var later := Then(first, third);
    var (low, high, scope) := Window(later);
    WindowHoldsCaret(later);
    Neighbours(later);
    var x := RangeEndsBefore(third, foreign, first.caretBlock, first.offset, low);
    var y := RangeBeginsAfter(third, foreign, first.caretBlock, first.offset, high);
    TailEnds(x, Serialized(third, low, first.Caret()), MAX_BEFORE);
    HeadBegins(Serialized(third, first.Caret(), high), y, MAX_AFTER);
  }

  lemma TailEnds(x: string, s: string, n: nat)
    ensures Ends(SurroundingText(Tail(s, n)), SurroundingText(x + s))
  {
  }

  lemma HeadBegins(s: string, y: string, n: nat)
    ensures SurroundingText(Head(s, n)) <= SurroundingText(s + y)
  {
  }

  /** By how much the dropped breaks of [low, high) outweigh the growth of its inline objects. */
  function Shrinkage(f: Field, low: int, high: int): int
    requires |f.contents| == |f.blocks|
  {
    DropCount(f, low, high) - Growth(f.blocks, low, high)
  }

  /** Clipping the window is clipping the whole exactly when the window fills the clip or is all there is. */
  lemma ClipOfWindow(r: Reading, foreign: seq<string>)
    requires Ready(r) && |foreign| == |r.field.blocks|
    ensures var window, whole := Serialized(r.field, Window(r).0, r.Caret()), WholeBefore(r.field, foreign, r.caretBlock, r.offset);
      Tail(window, MAX_BEFORE) == IdealBefore(r, foreign) <==> |window| >= MAX_BEFORE || |window| == |whole|
    ensures var window, whole := Serialized(r.field, r.Caret(), Window(r).1), WholeAfter(r.field, foreign, r.caretBlock, r.offset);
      Head(window, MAX_AFTER) == IdealAfter(r, foreign) <==> |window| >= MAX_AFTER || |window| == |whole|
  {
    hide Serialized, WholeBefore, WholeAfter;
    WindowHoldsCaret(r);
    Neighbours(r);
    var x := RangeEndsBefore(r.field, foreign, r.caretBlock, r.offset, Window(r).0);
    if |Serialized(r.field, Window(r).0, r.Caret())| >= MAX_BEFORE || x == "" {
      TailOfLonger(x, Serialized(r.field, Window(r).0, r.Caret()), MAX_BEFORE);
    }
    var y := RangeBeginsAfter(r.field, foreign, r.caretBlock, r.offset, Window(r).1);
    if |Serialized(r.field, r.Caret(), Window(r).1)| >= MAX_AFTER || y == "" {
      HeadOfLonger(Serialized(r.field, r.Caret(), Window(r).1), y, MAX_AFTER);
    }
  }

  /**
   The clipped window is the ideal one exactly when its dropped breaks, less the growth of its inline
   objects, fit into what the window has over the clip, or nothing before the window shows text. In field
   scope what it has over the clip is the margin of one position a block.
   */
  lemma ExactBeforeIff(r: Reading, foreign: seq<string>)
    requires Ready(r) && |foreign| == |r.field.blocks|
    ensures var f, low, caret := r.field, Window(r).0, r.Caret();
      && (Tail(Serialized(f, low, caret), MAX_BEFORE) == IdealBefore(r, foreign) <==>
            Shrinkage(f, low, caret) <= caret - low - MAX_BEFORE || MuteBefore(f, foreign, r.caretBlock + 1, low))
      && (Window(r).2 == WholeField ==>
           (Tail(Serialized(f, low, caret), MAX_BEFORE) == IdealBefore(r, foreign) <==>
              Shrinkage(f, low, caret) <= |f.blocks| || MuteBefore(f, foreign, r.caretBlock + 1, low)))
  {
    hide Serialized, WholeBefore, WholeAfter, IdealBefore, IdealAfter, Tail, Head, MuteBefore, MuteBlockBefore, MuteAt, Linked;
    hide DropCount, Growth, OpaqueMeets, Contiguous;
    WindowHoldsCaret(r);
    Neighbours(r);
    ClipOfWindow(r, foreign);
    SerializedLength(r.field, Window(r).0, r.Caret());
    WholeBeforeIff(r.field, foreign, r.caretBlock, r.offset, Window(r).0);
    if Window(r).0 == 0 {
      FromTheStart(r, foreign);
    }
  }

  /** A window from position 0 leaves nothing out. */
  lemma FromTheStart(r: Reading, foreign: seq<string>)
    requires Ready(r) && |foreign| == |r.field.blocks| && Window(r).0 == 0
    ensures MuteBefore(r.field, foreign, r.caretBlock + 1, 0)
  {
    hide Serialized, MuteAt, Linked, Window, WholeBefore;
    WindowHoldsCaret(r);
    Neighbours(r);
    var x := RangeEndsBefore(r.field, foreign, r.caretBlock, r.offset, 0);
    WholeBeforeIff(r.field, foreign, r.caretBlock, r.offset, 0);
  }

  /** The same for the text after the caret. */
  lemma ExactAfterIff(r: Reading, foreign: seq<string>)
    requires Ready(r) && |foreign| == |r.field.blocks|
    ensures var f, caret, high := r.field, r.Caret(), Window(r).1;
      && (Head(Serialized(f, caret, high), MAX_AFTER) == IdealAfter(r, foreign) <==>
            Shrinkage(f, caret, high) <= high - caret - MAX_AFTER || MuteAfter(f, foreign, r.caretBlock, high))
      && (Window(r).2 == WholeField ==>
           (Head(Serialized(f, caret, high), MAX_AFTER) == IdealAfter(r, foreign) <==>
              Shrinkage(f, caret, high) <= |f.blocks| || MuteAfter(f, foreign, r.caretBlock, high)))
  {
    hide Serialized, WholeBefore, WholeAfter, IdealBefore, IdealAfter, Tail, Head, MuteAfter, MuteBlockAfter, MuteAt, Linked;
    hide DropCount, Growth, OpaqueMeets, Contiguous;
    WindowHoldsCaret(r);
    Neighbours(r);
    ClipOfWindow(r, foreign);
    SerializedLength(r.field, r.Caret(), Window(r).1);
    WholeAfterIff(r.field, foreign, r.caretBlock, r.offset, Window(r).1);
    if Window(r).1 == Total(r.field) {
      ToTheEnd(r, foreign);
    }
  }

  /** A window up to the end leaves nothing out. */
  lemma ToTheEnd(r: Reading, foreign: seq<string>)
    requires Ready(r) && |foreign| == |r.field.blocks| && Window(r).1 == Total(r.field)
    ensures MuteAfter(r.field, foreign, r.caretBlock, Total(r.field))
  {
    hide Serialized, MuteAt, Linked, Window, WholeAfter;
    WindowHoldsCaret(r);
    Neighbours(r);
    var y := RangeBeginsAfter(r.field, foreign, r.caretBlock, r.offset, Total(r.field));
    assert Serialized(r.field, r.Caret(), Total(r.field)) + "" == Serialized(r.field, r.Caret(), Total(r.field));
    WholeAfterIff(r.field, foreign, r.caretBlock, r.offset, Total(r.field));
  }

  /** One paragraph: a letter, two links without text, then 511 letters before the caret. */
  function EmptyLinks(): Reading {
    var text := "x" + [EMBEDDED, EMBEDDED] + seq(511, _ => 'b');
    Reading(Field([Block(0, 514, Inlined, "\n\n", [Inline(1, "", []), Inline(2, "", [])])], [text]), 0, 514, 0)
  }

  /** The margin does not make up for inline objects without text: the reply loses the first letter. */
  lemma MarginFailsForEmptyObjects()
    ensures var r := EmptyLinks();
      && Ready(r) && Serializes(r, r.field)
      && ExcerptSpec(r, r, r.field, true).Ok?
      && ExcerptSpec(r, r, r.field, true).value.scope == WholeField
      && ExcerptSpec(r, r, r.field, true).value.before != SurroundingText(IdealBefore(r, [""]))
  {
    hide Serialized, Tail, SurroundingText, EmptyLinks, IdealBefore, Window, Ready, SameShape, ExcerptSpec, Slice;
    EmptyLinksReply();
    EmptyLinksClips();
  }

  lemma EmptyLinksClips()
    ensures Ready(EmptyLinks())
    ensures |IdealBefore(EmptyLinks(), [""])| == 512 && |Tail(Serialized(EmptyLinks().field, 1, 514), MAX_BEFORE)| == 511
  {
    hide Serialized, Tail, WholeBefore;
    EmptyLinksReady();
    EmptyLinksLengths();
    TailLength(Serialized(EmptyLinks().field, 1, 514), MAX_BEFORE);
    TailLength(WholeBefore(EmptyLinks().field, [""], 0, 514), MAX_BEFORE);
  }

  lemma TailLength(s: string, n: nat)
    ensures |Tail(s, n)| == Min(|s|, n)
  {
  }

  lemma HeadLength(s: string, n: nat)
    ensures |Head(s, n)| == Min(|s|, n)
  {
  }

  /** The reply for that paragraph is no denial. */
  lemma EmptyLinksReply()
    ensures var r := EmptyLinks();
      && Ready(r) && Serializes(r, r.field)
      && ExcerptSpec(r, r, r.field, true).Ok?
      && ExcerptSpec(r, r, r.field, true).value.scope == WholeField
      && ExcerptSpec(r, r, r.field, true).value.before == SurroundingText(Tail(Serialized(r.field, 1, 514), MAX_BEFORE))
  {
    hide Serialized, Tail, Head, SurroundingText, Raw, Slice, Obstructed, ControlCharacter, Unresolved;
    EmptyLinksReady();
    var r := EmptyLinks();
    EmptyLinksReadable();
    assert Serializes(r, r.field);
  }

  lemma EmptyLinksReadable()
    ensures var f := EmptyLinks().field;
      && !Obstructed(f, 1, 1, 516) && !Unresolved(f, 1, 516)
      && |Slice(Raw(f), 1, 516)| == 515 && !ControlCharacter(Slice(Raw(f), 1, 516))
  {
    var f := EmptyLinks().field;
    var b, text := f.blocks[0], f.contents[0];
    assert RawTo(f, 0) == "" && Raw(f) == "" + BlockRaw(b, text);
    assert BlockRaw(b, text) == text + "\n\n" && Raw(f) == text + "\n\n";
    SliceLength(Raw(f), 1, 516);
    forall k | 0 <= k < 515
      ensures Slice(Raw(f), 1, 516)[k] in {EMBEDDED, 'b', '\n'}
    {
      SliceAt(Raw(f), 1, 516, k);
    }
    assert Resolvable(Inline(1, "", [])) && Resolvable(Inline(2, "", []));
    forall p | 1 <= p < 516
      ensures !UnresolvedAt(f.blocks, p)
    {
      assert ObjectAt(f.blocks, 0, p).None?;
    }
    TextPartRead(b, text, 1, 516);
    assert !Obstructs(b, text, 1, 516);
  }

  lemma EmptyLinksReady()
    ensures Ready(EmptyLinks()) && Window(EmptyLinks()) == (1, 516, WholeField)
  {
    var b := EmptyLinks().field.blocks[0];
    assert LinkedBlock(b) by {
      assert DistinctOffsets(b.inline);
    }
  }

  lemma EmptyLinksLengths()
    ensures var r := EmptyLinks();
      && |Serialized(r.field, 1, 514)| == 511
      && |WholeBefore(r.field, [""], 0, 514)| == 512
  {
    hide Concat, TextCells, EndCells, Serialized;
    EmptyLinksReady();
    var r := EmptyLinks();
    var b, text := r.field.blocks[0], r.field.contents[0];
    var cells := TextCells(text, b.inline, 514);
    EmptyLinksCells(cells);
    SerializedWithin(r.field, 0, 1, 514);
    assert BlockCells(b, text)[1..514] == cells[1..514];
    assert cells[..514] == cells;
    assert WholeBefore(r.field, [""], 0, 514) == "" + Concat(cells);
  }

  lemma EmptyLinksCells(cells: seq<string>)
    requires var r := EmptyLinks(); cells == TextCells(r.field.contents[0], r.field.blocks[0].inline, 514)
    ensures |cells| == 514 && |Concat(cells)| == 512 && |Concat(cells[1..514])| == 511
  {
    hide Concat;
    var r := EmptyLinks();
    var b, text := r.field.blocks[0], r.field.contents[0];
    forall k | 3 <= k < 514
      ensures FindAt(b.inline, k).None?
    {
    }
    RawCells(text, b.inline, 3, 514);
    assert cells[0] == CellAt(text, b.inline, 0) == "x";
    EmptyObject(1);
    EmptyObject(2);
    assert cells[1] == CellAt(text, b.inline, 1) == "";
    assert cells[2] == CellAt(text, b.inline, 2) == "";
    assert cells[1..514] == ["", ""] + cells[3..514];
    assert cells == ["x"] + cells[1..514];
    ConcatAppend(["", ""], cells[3..514]);
    ConcatAppend(["x"], cells[1..514]);
    Pieces();
  }

  lemma EmptyObject(k: nat)
    ensures Expansion(Inline(k, "", [])) == ""
  {
  }

  lemma Pieces()
    ensures Concat(["", ""]) == "" && Concat(["x"]) == "x"
  {
    assert ["", ""][..1] == [""] && [""][..0] == [] && ["x"][..0] == [];
    assert Concat([""]) == "";
  }

  // ---------------------------------------------------------------- opaque blocks stay unread

  /** Two fields with one layout that differ at most in the texts of opaque blocks. */
  ghost predicate SameReadable(f: Field, g: Field) {
    && Aligned(f) && Aligned(g) && f.blocks == g.blocks
    && forall i :: 0 <= i < |f.blocks| && !f.blocks[i].kind.Opaque? ==> f.contents[i] == g.contents[i]
  }

  lemma ObstructedAlike(f: Field, g: Field, low: int, high: int)
    requires SameReadable(f, g)
    ensures Obstructed(f, |f.blocks|, low, high) ==> Obstructed(g, |g.blocks|, low, high)
  {
    if Obstructed(f, |f.blocks|, low, high) {
      var i :| 0 <= i < |f.blocks| && Obstructs(f.blocks[i], f.contents[i], low, high);
      TextPartRead(f.blocks[i], f.contents[i], low, high);
      TextPartRead(g.blocks[i], g.contents[i], low, high);
      assert Obstructs(g.blocks[i], g.contents[i], low, high);
    }
  }

  /** Text that can be read at all is the same whatever opaque blocks hold. */
  lemma RawAlike(f: Field, g: Field, low: int, high: int)
    requires SameReadable(f, g) && !Obstructed(f, |f.blocks|, low, high)
    ensures Slice(Raw(f), low, high) == Slice(Raw(g), low, high)
  {
    hide Slice, Raw;
    SameLengths(f, g);
    forall p | 0 <= p < |Raw(f)| && low <= p < high
      ensures Raw(f)[p] == Raw(g)[p]
    {
      RawCharacterAlike(f, g, low, high, p);
    }
    SliceAlike(Raw(f), Raw(g), low, high);
  }

  lemma SameLengths(f: Field, g: Field)
    requires SameReadable(f, g)
    ensures |Raw(f)| == |Raw(g)| == |Cells(f)| == |Cells(g)| == Total(f) == Total(g)
  {
    Lengths(f, |f.blocks|);
    Lengths(g, |g.blocks|);
  }

  lemma RawCharacterAlike(f: Field, g: Field, low: int, high: int, p: nat)
    requires SameReadable(f, g) && !Obstructed(f, |f.blocks|, low, high)
    requires p < Total(f) && low <= p < high
    ensures p < |Raw(f)| && p < |Raw(g)| && Raw(f)[p] == Raw(g)[p]
  {
    hide Raw, Slice;
    var i := Locate(f, p, |f.blocks|);
    var b := f.blocks[i];
    RawPosition(f, i, p);
    RawPosition(g, i, p);
    TextPartRead(b, f.contents[i], low, high);
    assert !Obstructs(b, f.contents[i], low, high);
  }

  lemma RawPosition(f: Field, i: nat, p: nat)
    requires Aligned(f) && i < |f.blocks| && f.blocks[i].start <= p < f.blocks[i].Stop()
    ensures p < |Raw(f)|
    ensures Raw(f)[p] == if p < f.blocks[i].Separator() then f.contents[i][p - f.blocks[i].start]
                         else f.blocks[i].end[p - f.blocks[i].Separator()]
  {
    hide Raw, Cells;
    BlockAt(f, i);
    var b := f.blocks[i];
    assert Raw(f)[p] == Raw(f)[b.start..b.Stop()][p - b.start];
  }

  lemma CellsAlike(f: Field, g: Field, low: nat, high: nat)
    requires SameReadable(f, g) && low <= high <= Total(f)
    requires forall i :: 0 <= i < |f.blocks| && f.blocks[i].kind.Opaque? ==>
      high <= f.blocks[i].start || f.blocks[i].Stop() <= low
    ensures Slice(Cells(f), low, high) == Slice(Cells(g), low, high)
  {
    hide Slice, Cells;
    SameLengths(f, g);
    forall p | 0 <= p < |Cells(f)| && low <= p < high
      ensures Cells(f)[p] == Cells(g)[p]
    {
      var i := Locate(f, p, |f.blocks|);
      CellAlike(f, g, i, p);
    }
    SliceAlike(Cells(f), Cells(g), low, high);
  }

  lemma CellAlike(f: Field, g: Field, i: nat, p: nat)
    requires SameReadable(f, g) && i < |f.blocks| && f.contents[i] == g.contents[i]
    requires f.blocks[i].start <= p < f.blocks[i].Stop()
    ensures p < |Cells(f)| && p < |Cells(g)| && Cells(f)[p] == Cells(g)[p]
  {
    hide Cells, BlockCells, Raw;
    var b := f.blocks[i];
    BlockAt(f, i);
    BlockAt(g, i);
    assert Cells(f)[p] == Cells(f)[b.start..b.Stop()][p - b.start];
    assert Cells(g)[p] == Cells(g)[b.start..b.Stop()][p - b.start];
  }

  lemma StableAlike(a: Reading, b: Reading, c: Reading, d: Reading, epochHeld: bool, low: int, high: int)
    requires SameReadable(a.field, b.field) && SameReadable(c.field, d.field)
    requires a.caretBlock == b.caretBlock < |a.field.blocks| && c.caretBlock == d.caretBlock < |c.field.blocks|
    requires a.offset == b.offset && a.selections == b.selections
    requires c.offset == d.offset && c.selections == d.selections
    ensures StableSpec(a, c, epochHeld, low, high) == StableSpec(b, d, epochHeld, low, high)
  {
    hide Slice, Raw, Obstructed, ControlCharacter;
    ObstructedAlike(a.field, b.field, low, high);
    ObstructedAlike(b.field, a.field, low, high);
    ObstructedAlike(c.field, d.field, low, high);
    ObstructedAlike(d.field, c.field, low, high);
    if !Obstructed(a.field, |a.field.blocks|, low, high) {
      RawAlike(a.field, b.field, low, high);
    }
    if !Obstructed(c.field, |c.field.blocks|, low, high) {
      RawAlike(c.field, d.field, low, high);
    }
  }

  /** The reply, denials included, does not depend on any opaque block's text at any moment: none is ever read. */
  lemma OpaqueTextIsUnread(a: Reading, b: Reading, c: Reading, d: Reading, e: Field, g: Field, epochHeld: bool)
    requires Ready(a) && Ready(b) && SameReadable(a.field, b.field) && SameReadable(c.field, d.field) && SameReadable(e, g)
    requires a.caretBlock == b.caretBlock && c.caretBlock == d.caretBlock < |c.field.blocks|
    requires a.offset == b.offset && a.selections == b.selections
    requires c.offset == d.offset && c.selections == d.selections
    requires Serializes(a, e) && Serializes(b, g)
    ensures ExcerptSpec(a, c, e, epochHeld) == ExcerptSpec(b, d, g, epochHeld)
  {
    hide Slice, Raw, Cells, Concat, StableSpec, SameShape, Linked, Contiguous, Obstructed;
    var (low, high, scope) := Window(a);
    assert Window(b) == Window(a);
    StableAlike(a, b, c, d, epochHeld, low, high);
    SameWindow(a, e);
    WindowHoldsCaret(Then(a, e));
    NarrowerCells(e, g, low, a.Caret(), high);
  }

  lemma NarrowerCells(f: Field, g: Field, low: nat, middle: nat, high: nat)
    requires SameReadable(f, g) && low <= middle <= high <= Total(f)
    requires forall i :: 0 <= i < |f.blocks| && f.blocks[i].kind.Opaque? ==>
      high <= f.blocks[i].start || f.blocks[i].Stop() <= low
    ensures Serialized(f, low, middle) == Serialized(g, low, middle)
    ensures Serialized(f, middle, high) == Serialized(g, middle, high)
  {
    hide Slice, Cells, Concat;
    CellsAlike(f, g, low, middle);
    CellsAlike(f, g, middle, high);
  }

  /** With every block readable, the full range of cells is the whole serialization. */
  lemma WholeRange(f: Field, foreign: seq<string>)
    requires Aligned(f) && |foreign| == |f.blocks|
    requires forall i :: 0 <= i < |f.blocks| ==> !f.blocks[i].kind.Opaque?
    ensures Serialized(f, 0, Total(f)) == RenderTo(f, foreign, |f.blocks|)
  {
    hide Serialized;
    var rest := RangeEndsRendering(f, foreign, |f.blocks|, 0);
    assert rest + Serialized(f, 0, Total(f)) == Serialized(f, 0, Total(f));
  }
}
