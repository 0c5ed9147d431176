/** Splicing inline objects into a text, rightmost first, proved equal to reading it left to right. */
module InlineObjects {
  import opened Common
  import opened RichBlocks

  // ---------------------------------------------------------------- inline objects, right to left

  predicate Descending(s: seq<Inline>) {
    forall i, j :: 0 <= i < j < |s| ==> s[i].offset > s[j].offset
  }

  /** `s` with `e` after every object at its own offset or beyond, as a stable descending sort inserts it. */
  function Inserted(s: seq<Inline>, e: Inline): (r: seq<Inline>)
    ensures |r| == |s| + 1
    ensures forall x :: x in r <==> x == e || x in s
    ensures Descending(s) && (forall x :: x in s ==> x.offset != e.offset) ==> Descending(r)
  {
    if s == [] || s[|s| - 1].offset >= e.offset then s + [e]
    else
      var r := Inserted(s[..|s| - 1], e);
      assert forall x :: x in s <==> x in s[..|s| - 1] || x == s[|s| - 1];
      assert Descending(s) ==> forall k :: 0 <= k < |r| ==> r[k] in r && r[k].offset > s[|s| - 1].offset;
      r + [s[|s| - 1]]
  }

  function SortedDown(s: seq<Inline>): (r: seq<Inline>)
    ensures |r| == |s|
    ensures forall x :: x in r <==> x in s
    ensures DistinctOffsets(s) ==> Descending(r)
  {
    if s == [] then []
    else
      assert forall x :: x in s <==> x in s[..|s| - 1] || x == s[|s| - 1];
      Inserted(SortedDown(s[..|s| - 1]), s[|s| - 1])
  }

  /** Positions without an object serialize to themselves. */
  lemma {:induction false} RawCells(text: string, objects: seq<Inline>, low: nat, high: nat)
    requires low <= high <= |text|
    requires forall k :: low <= k < high ==> FindAt(objects, k).None?
    ensures Concat(TextCells(text, objects, |text|)[low..high]) == text[low..high]
  {
    var cells := TextCells(text, objects, |text|);
    if low < high {
      RawCells(text, objects, low, high - 1);
      assert cells[low..high][..high - low - 1] == cells[low..high - 1];
      assert cells[low..high][high - low - 1] == [text[high - 1]];
    }
  }

  lemma {:induction false} ConcatHolds(parts: seq<string>, c: char)
    ensures c in Concat(parts) <==> exists k :: 0 <= k < |parts| && c in parts[k]
  {
    if parts != [] {
      var init := parts[..|parts| - 1];
      ConcatHolds(init, c);
      if c in Concat(init) {
        var k :| 0 <= k < |init| && c in init[k];
        assert c in parts[k];
      }
      if k :| 0 <= k < |parts| && c in parts[k] {
        if k < |init| {
          assert c in init[k];
        }
      }
    }
  }

  /** One splice: the object at `o` is expanded, everything from `bound` on already is. */
  lemma Spliced(text: string, cells: seq<string>, o: nat, bound: nat, value: string)
    requires o < bound <= |text| == |cells|
    requires Concat(cells[o + 1..bound]) == text[o + 1..bound]
    requires value == text[..bound] + Concat(cells[bound..])
    ensures value[..o] + cells[o] + value[o + 1..] == text[..o] + Concat(cells[o..])
  {
    hide Concat;
    var rest := Concat(cells[bound..]);
    assert cells[o..] == [cells[o]] + (cells[o + 1..bound] + cells[bound..]);
    ConcatAppend([cells[o]], cells[o + 1..bound] + cells[bound..]);
    ConcatAppend(cells[o + 1..bound], cells[bound..]);
    ConcatOne(cells[o]);
    SplicedText(text, o, bound, cells[o], rest);
  }

  lemma SplicedText(text: string, o: nat, bound: nat, inner: string, rest: string)
    requires o < bound <= |text|
    ensures (text[..bound] + rest)[..o] + inner + (text[..bound] + rest)[o + 1..]
         == text[..o] + (inner + (text[o + 1..bound] + rest))
  {
    assert (text[..bound] + rest)[..o] == text[..o];
    assert (text[..bound] + rest)[o + 1..] == text[o + 1..bound] + rest;
  }

  lemma UniqueAt(objects: seq<Inline>, o: Inline)
    requires DistinctOffsets(objects) && o in objects
    ensures FindAt(objects, o.offset) == Some(o)
  {
  }

  /** An object stands at a U+FFFC of `text` and its own text leaves none. */
  ghost predicate Settled(text: string, o: Inline) {
    && o.offset < |text| && text[o.offset] == EMBEDDED
    && Resolvable(o) && EMBEDDED !in Expansion(o)
  }

  /** Where the spliced part of the text begins once the first `i` objects of `order` are in place. */
  ghost function Bound(text: string, order: seq<Inline>, i: nat): nat
    requires i <= |order|
  {
    if i == 0 then |text| else order[i - 1].offset
  }

  /** The first `i` objects, rightmost first, are expanded in `value`; everything to their left is raw. */
  ghost predicate Expanded(entry: Inline, order: seq<Inline>, i: nat, value: string)
    requires i <= |order|
  {
    var bound := Bound(entry.text, order, i);
    && bound <= |entry.text|
    && (forall j :: 0 <= j < i ==> Settled(entry.text, order[j]))
    && value == entry.text[..bound] + Concat(TextCells(entry.text, entry.nested, |entry.text|)[bound..])
  }

  lemma NoneBetween(objects: seq<Inline>, order: seq<Inline>, i: nat, k: int)
    requires forall x :: x in order <==> x in objects
    requires Descending(order) && i <= |order|
    requires i > 0 ==> k < order[i - 1].offset
    requires i < |order| ==> order[i].offset < k
    ensures FindAt(objects, k).None?
  {
  }

  /** Between two neighbouring objects the text is raw. */
  lemma GapIsRaw(text: string, objects: seq<Inline>, order: seq<Inline>, i: nat)
    requires forall x :: x in order <==> x in objects
    requires DistinctOffsets(objects) && Descending(order) && i < |order|
    requires order[i].offset < Bound(text, order, i) <= |text|
    ensures var cells, o := TextCells(text, objects, |text|), order[i].offset;
      && cells[o] == Expansion(order[i])
      && Concat(cells[o + 1..Bound(text, order, i)]) == text[o + 1..Bound(text, order, i)]
  {
    var o, bound := order[i].offset, Bound(text, order, i);
    assert order[i] in objects;
    UniqueAt(objects, order[i]);
    assert CellAt(text, objects, o) == Expansion(order[i]);
    forall k | o < k < bound
      ensures FindAt(objects, k).None?
    {
      NoneBetween(objects, order, i, k);
    }
    RawCells(text, objects, o + 1, bound);
  }

  lemma ExpandedStep(entry: Inline, order: seq<Inline>, i: nat, value: string)
    requires forall x :: x in order <==> x in entry.nested
    requires DistinctOffsets(entry.nested) && Descending(order) && i < |order|
    requires Expanded(entry, order, i, value) && Settled(entry.text, order[i])
    ensures var o := order[i].offset;
      && o < |value| && value[o] == EMBEDDED
      && Expanded(entry, order, i + 1, value[..o] + Expansion(order[i]) + value[o + 1..])
  {
    hide TextCells, Expansion, Resolvable, Concat;
    var o, bound := order[i].offset, Bound(entry.text, order, i);
    assert o < bound;
    GapIsRaw(entry.text, entry.nested, order, i);
    Spliced(entry.text, TextCells(entry.text, entry.nested, |entry.text|), o, bound, value);
  }

  lemma ExpandedAll(entry: Inline, order: seq<Inline>, value: string)
    requires forall x :: x in order <==> x in entry.nested
    requires Descending(order) && Expanded(entry, order, |order|, value)
    ensures value == Expansion(entry)
    ensures EMBEDDED !in value <==> Resolvable(entry)
  {
    hide TextCells, Resolvable;
    var bound, cells := Bound(entry.text, order, |order|), TextCells(entry.text, entry.nested, |entry.text|);
    forall k | 0 <= k < bound
      ensures FindAt(entry.nested, k).None?
    {
      NoneBetween(entry.nested, order, |order|, k);
    }
    RawCells(entry.text, entry.nested, 0, bound);
    assert cells == cells[0..bound] + cells[bound..];
    ConcatAppend(cells[0..bound], cells[bound..]);
    ConcatHolds(cells, EMBEDDED);
    OnlyUnlistedRemain(entry, order);
  }

  lemma CellHolds(text: string, objects: seq<Inline>, k: nat)
    requires k < |text|
    requires FindAt(objects, k).Some? ==> EMBEDDED !in Expansion(FindAt(objects, k).value)
    ensures EMBEDDED in CellAt(text, objects, k) <==> text[k] == EMBEDDED && FindAt(objects, k).None?
  {
  }

  ghost predicate AllListed(text: string, objects: seq<Inline>) {
    forall k :: 0 <= k < |text| && text[k] == EMBEDDED ==> FindAt(objects, k).Some?
  }

  lemma ResolvableWhen(entry: Inline)
    requires forall o :: o in entry.nested ==> Settled(entry.text, o)
    ensures Resolvable(entry) <==> AllListed(entry.text, entry.nested)
  {
  }

  lemma OnlyUnlistedRemain(entry: Inline, order: seq<Inline>)
    requires forall x :: x in order <==> x in entry.nested
    requires forall j :: 0 <= j < |order| ==> Settled(entry.text, order[j])
    ensures var cells := TextCells(entry.text, entry.nested, |entry.text|);
      Resolvable(entry) <==> forall k :: 0 <= k < |cells| ==> EMBEDDED !in cells[k]
  {
    var cells := TextCells(entry.text, entry.nested, |entry.text|);
    forall o | o in entry.nested
      ensures Settled(entry.text, o)
    {
      assert o in order;
    }
    ResolvableWhen(entry);
    if AllListed(entry.text, entry.nested) {
      forall k | 0 <= k < |cells|
        ensures EMBEDDED !in cells[k]
      {
        CellHolds(entry.text, entry.nested, k);
      }
    } else {
      var k :| 0 <= k < |cells| && entry.text[k] == EMBEDDED && FindAt(entry.nested, k).None?;
      CellHolds(entry.text, entry.nested, k);
    }
  }

  lemma SettledIffPlaced(entry: Inline, o: Inline)
    requires o in entry.nested && Resolvable(entry)
    ensures o.offset < |entry.text| && entry.text[o.offset] == EMBEDDED && Resolvable(o)
  {
  }

  /** Where the next object belongs, `value` still is the raw text. */
  lemma NextIsRaw(entry: Inline, order: seq<Inline>, i: nat, value: string)
    requires Descending(order) && i < |order| && Expanded(entry, order, i, value)
    ensures order[i].offset < |value| <==> order[i].offset < |entry.text|
    ensures order[i].offset < |value| ==> value[order[i].offset] == entry.text[order[i].offset]
  {
    hide TextCells, Expansion, Resolvable;
    var cells := TextCells(entry.text, entry.nested, |entry.text|);
    if i == 0 {
      assert cells[|entry.text|..] == [];
    }
  }

  lemma NothingExpanded(entry: Inline, order: seq<Inline>)
    ensures Expanded(entry, order, 0, entry.text)
  {
    var cells := TextCells(entry.text, entry.nested, |entry.text|);
    assert cells[|entry.text|..] == [];
    assert entry.text[..|entry.text|] == entry.text;
  }

  lemma DistinctIsOrdered(entry: Inline)
    requires Distinct(entry)
    ensures DistinctOffsets(entry.nested)
  {
  }

  lemma DistinctBelow(entry: Inline, o: Inline)
    requires Distinct(entry) && o in entry.nested
    ensures DistinctOffsets(entry.nested) && Distinct(o)
  {
  }

  /** The object's expansion, or a denial when it has none; no U+FFFC is in what is returned. */
  method InlineText(entry: Inline) returns (r: Result<string, Denial>)
    ensures r.Ok? ==> EMBEDDED !in r.value
    ensures Distinct(entry) ==> r == if Resolvable(entry) then Ok(Expansion(entry)) else Failed(UnsupportedField)
    decreases entry
  {
    hide Resolvable, Expansion, Expanded, Distinct, DistinctOffsets, Descending;
    var value, order := entry.text, SortedDown(entry.nested);
    NothingExpanded(entry, order);
    for i := 0 to |order|
      invariant Distinct(entry) ==> Expanded(entry, order, i, value)
    {
      var nested := order[i];
      assert nested in entry.nested;
      if Distinct(entry) {
        DistinctBelow(entry, nested);
        NextIsRaw(entry, order, i, value);
      }
      if nested.offset >= |value| || value[nested.offset] != EMBEDDED {
        if Distinct(entry) && Resolvable(entry) {
          SettledIffPlaced(entry, nested);
          assert false;
        }
        return Failed(UnsupportedField);
      }
      var inner := InlineText(nested);
      if inner.Failed? {
        if Distinct(entry) && Resolvable(entry) {
          SettledIffPlaced(entry, nested);
          assert false;
        }
        return Failed(UnsupportedField);
      }
      if Distinct(entry) {
        assert Settled(entry.text, nested);
        ExpandedStep(entry, order, i, value);
      }
      value := value[..nested.offset] + inner.value + value[nested.offset + 1..];
    }
    if Distinct(entry) {
      DistinctIsOrdered(entry);
      ExpandedAll(entry, order, value);
    }
    if EMBEDDED in value {
      return Failed(UnsupportedField);
    }
    return Ok(value);
  }
}
