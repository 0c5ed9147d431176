/**
 Stripping comments and trailing commas from JSON (scripts/badi-desktop.py), in two passes of one scanner.
 The reference is a division of the source into string literals, skipped stretches and single characters.
 */
module Jsonc {
  import opened Common

  datatype Error = UnterminatedComment

  /** What a pass skips outside strings; `space` holds the characters a regular expression calls white space. */
  datatype Pass = Comments | TrailingCommas(space: set<char>)

  predicate Closes(c: char) {
    c == '}' || c == ']'
  }

  /** White space and then a closing bracket. */
  predicate ClosingFollows(space: set<char>, s: string) {
    s != [] && (Closes(s[0]) || (s[0] in space && ClosingFollows(space, s[1..])))
  }

  predicate OccursAt(s: string, pattern: string, k: nat) {
    k + |pattern| <= |s| && s[k..k + |pattern|] == pattern
  }

  /** Where `pattern` first occurs in `s` at or after `from`. */
  function Find(s: string, pattern: string, from: nat): (r: Option<nat>)
    requires from <= |s|
    ensures r.Some? ==> from <= r.value && OccursAt(s, pattern, r.value)
    ensures forall k :: from <= k <= |s| && (r.None? || k < r.value) ==> !OccursAt(s, pattern, k)
    decreases |s| - from
  {
    if OccursAt(s, pattern, from) then Some(from)
    else if from == |s| then None
    else Find(s, pattern, from + 1)
  }

  /** The length of the comment that `s` starts with. */
  function Comment(s: string): (r: Result<nat, Error>)
    ensures r.Ok? ==> r.value <= |s|
    ensures r == Ok(0) <==> !("//" <= s) && !("/*" <= s)
  {
    if "//" <= s then
      var end := Find(s, "\n", 0);
      assert end.Some? ==> s[end.value] == '\n' && !OccursAt(s, "\n", 0);
      Ok(if end.Some? then end.value else |s|)
    else if "/*" <= s then
      var end := Find(s, "*/", 2);
      if end.None? then Failed(UnterminatedComment) else Ok(end.value + 2)
    else Ok(0)
  }

  /** A line comment ends before its line feed; a block comment ends with the first close after its opening. */
  lemma CommentEnds(s: string)
    ensures "//" <= s ==> Comment(s).Ok? && '\n' !in s[..Comment(s).value]
    ensures "//" <= s && Comment(s).value < |s| ==> s[Comment(s).value] == '\n'
    ensures "/*" <= s ==> (Comment(s).Failed? <==> forall k :: 2 <= k <= |s| ==> !OccursAt(s, "*/", k))
    ensures "/*" <= s && Comment(s).Ok? ==> Comment(s).value >= 4 && OccursAt(s, "*/", Comment(s).value - 2)
    ensures "/*" <= s && Comment(s).Ok? ==> forall k :: 2 <= k < Comment(s).value - 2 ==> !OccursAt(s, "*/", k)
  {
    hide Find;
    if "//" <= s {
      assert s[1] == '/' && !("/*" <= s);
      var n := Comment(s).value;
      forall k | 0 <= k < n
        ensures s[k] != '\n'
      {
        assert !OccursAt(s, "\n", k) && s[k..k + 1] == [s[k]];
      }
    } else if "/*" <= s {
      var end := Find(s, "*/", 2);
      assert end.Some? ==> OccursAt(s, "*/", end.value);
    }
  }

  /** How much of `s` the pass replaces by one space. */
  function Skipped(pass: Pass, s: string): (r: Result<nat, Error>)
    requires s != []
    ensures r.Ok? ==> r.value <= |s|
  {
    match pass
    case Comments => Comment(s)
    case TrailingCommas(space) => Ok(if s[0] == ',' && ClosingFollows(space, s[1..]) then 1 else 0)
  }

  // ---------------------------------------------------------------- the reference

  datatype Item = Quoted(text: string) | Dropped(text: string) | Plain(c: char) {
    function Text(): string {
      if Plain? then [c] else text
    }

    function Shown(): string {
      match this
      case Quoted(text) => text
      case Dropped(_) => " "
      case Plain(c) => [c]
    }
  }

  /** How long a literal still is after `s[..0]`: to its closing quote, or to the end; a backslash keeps what follows it. */
  function LiteralRest(s: string): (n: nat)
    ensures n <= |s| && (s != [] ==> n > 0)
  {
    if s == [] then 0
    else if s[0] == '\\' then if |s| == 1 then 1 else 2 + LiteralRest(s[2..])
    else if s[0] == '"' then 1
    else 1 + LiteralRest(s[1..])
  }

  function Items(pass: Pass, s: string): Result<seq<Item>, Error>
    decreases |s|
  {
    if s == [] then Ok([])
    else if s[0] == '"' then
      var n := 1 + LiteralRest(s[1..]);
      Before(Quoted(s[..n]), Items(pass, s[n..]))
    else
      var skipped := Skipped(pass, s);
      if skipped.Failed? then Failed(skipped.reason)
      else if skipped.value == 0 then Before(Plain(s[0]), Items(pass, s[1..]))
      else Before(Dropped(s[..skipped.value]), Items(pass, s[skipped.value..]))
  }

  function Before(item: Item, rest: Result<seq<Item>, Error>): Result<seq<Item>, Error> {
    if rest.Ok? then Ok([item] + rest.value) else rest
  }

  function Source(items: seq<Item>): string {
    if items == [] then [] else items[0].Text() + Source(items[1..])
  }

  function Shown(items: seq<Item>): string {
    if items == [] then [] else items[0].Shown() + Shown(items[1..])
  }

  /** The string literals, in order. */
  function Literals(items: seq<Item>): seq<string> {
    if items == [] then []
    else (if items[0].Quoted? then [items[0].text] else []) + Literals(items[1..])
  }

  function Cleaned(items: seq<Item>): (r: seq<Item>)
    ensures |r| == |items|
  {
    if items == [] then [] else [if items[0].Dropped? then Plain(' ') else items[0]] + Cleaned(items[1..])
  }

  function Output(pass: Pass, s: string): Result<string, Error> {
    var items := Items(pass, s);
    if items.Ok? then Ok(Shown(items.value)) else Failed(items.reason)
  }

  // ---------------------------------------------------------------- the scanner

  /** What the scanner still has to produce. */
  function Remaining(pass: Pass, s: string, quoted: bool): Result<string, Error> {
    if quoted then Prepended(s[..LiteralRest(s)], Output(pass, s[LiteralRest(s)..])) else Output(pass, s)
  }

  function Prepended(kept: string, rest: Result<string, Error>): Result<string, Error> {
    if rest.Ok? then Ok(kept + rest.value) else rest
  }

  lemma PrependedTwice(a: string, b: string, rest: Result<string, Error>)
    ensures Prepended(a, Prepended(b, rest)) == Prepended(a + b, rest)
  {
    if rest.Ok? {
      Assoc(a, b, rest.value);
    }
  }

  lemma PrependedFailure(a: string, reason: Error)
    ensures Prepended(a, Failed(reason)) == Failed(reason)
  {
  }

  /** One character outside a string. */
  lemma OutsideStep(pass: Pass, s: string)
    requires s != [] && s[0] != '"'
    ensures var skipped := Skipped(pass, s);
      Remaining(pass, s, false) ==
        if skipped.Failed? then Failed(skipped.reason)
        else if skipped.value == 0 then Prepended([s[0]], Remaining(pass, s[1..], false))
        else Prepended(" ", Remaining(pass, s[skipped.value..], false))
  {
    var skipped := Skipped(pass, s);
    if skipped.Ok? {
      var n := Max(skipped.value, 1);
      var rest := Items(pass, s[n..]);
      if rest.Ok? {
        var item := if skipped.value == 0 then Plain(s[0]) else Dropped(s[..skipped.value]);
        assert ([item] + rest.value)[1..] == rest.value;
      }
    }
  }

  /** An opening quote. */
  lemma OpeningStep(pass: Pass, s: string)
    requires s != [] && s[0] == '"'
    ensures Remaining(pass, s, false) == Prepended([s[0]], Remaining(pass, s[1..], true))
  {
    var n := LiteralRest(s[1..]);
    assert s[1..][n..] == s[1 + n..] && s[..1 + n] == [s[0]] + s[1..][..n];
    var rest := Items(pass, s[1 + n..]);
    if rest.Ok? {
      assert ([Quoted(s[..1 + n])] + rest.value)[1..] == rest.value;
      Assoc([s[0]], s[1..][..n], Shown(rest.value));
    }
  }

  /** One or two characters inside a string. */
  lemma InsideStep(pass: Pass, s: string, used: nat)
    requires s != [] && used == if s[0] == '\\' && |s| > 1 then 2 else 1
    ensures Remaining(pass, s, true) == Prepended(s[..used], Remaining(pass, s[used..], s[0] != '"'))
  {
    var n := LiteralRest(s);
    if s[0] == '"' {
      assert s[..n] == s[..used];
    } else {
      var m := LiteralRest(s[used..]);
      assert n == used + m;
      assert s[..n] == s[..used] + s[used..][..m] && s[used..][m..] == s[n..];
      PrependedTwice(s[..used], s[used..][..m], Output(pass, s[n..]));
    }
  }

  lemma NothingRemains(pass: Pass, quoted: bool, kept: string)
    ensures Prepended(kept, Remaining(pass, [], quoted)) == Ok(kept)
  {
    var none: string := [];
    assert Output(pass, none) == Ok(none) && none[..LiteralRest(none)] == none && none[LiteralRest(none)..] == none;
    assert none + none == none && kept + none == kept;
  }

  lemma Starts(pass: Pass, s: string)
    ensures Prepended("", Remaining(pass, s, false)) == Output(pass, s)
  {
    if Output(pass, s).Ok? {
      assert "" + Output(pass, s).value == Output(pass, s).value;
    }
  }

  /** What is left at `index`, which a backslash at the very end takes past the end. */
  function From(source: string, index: nat): string {
    if index <= |source| then source[index..] else []
  }

  /** The scanner's step on a character that is, or opens, part of a string. */
  lemma StringStep(pass: Pass, source: string, index: nat, quoted: bool, kept: string)
    requires index < |source| && (quoted || source[index] == '"')
    ensures var escape := quoted && source[index] == '\\';
      var copied := [source[index]] + if escape then Slice(source, index + 1, index + 2) else [];
      Prepended(kept, Remaining(pass, source[index..], quoted))
        == Prepended(kept + copied, Remaining(pass, From(source, index + if escape then 2 else 1), !quoted || source[index] != '"'))
  {
    hide Remaining, Prepended;
    var s, escape := source[index..], quoted && source[index] == '\\';
    var copied := [source[index]] + if escape then Slice(source, index + 1, index + 2) else [];
    var used := |copied|;
    assert copied == s[..used] && s[used..] == From(source, index + if escape then 2 else 1);
    var still := !quoted || source[index] != '"';
    if quoted {
      InsideStep(pass, s, used);
      assert Remaining(pass, s, true) == Prepended(s[..used], Remaining(pass, s[used..], s[0] != '"'));
      assert still == (s[0] != '"');
    } else {
      OpeningStep(pass, s);
      assert copied == [s[0]];
      assert s[1..] == s[used..];
    }
    assert Remaining(pass, s, quoted) == Prepended(copied, Remaining(pass, s[used..], still));
    PrependedTwice(kept, copied, Remaining(pass, s[used..], still));
  }

  /** One pass of the scanner: strings are copied, what the pass skips becomes one space. */
  method Scan(pass: Pass, source: string) returns (r: Result<string, Error>)
    ensures r == Output(pass, source)
  {
    hide Output, Items, LiteralRest, Skipped, Remaining, Prepended;
    var kept, index, quoted := "", 0, false;
    Starts(pass, source);
    assert source[0..] == source;
    while index < |source|
      invariant index <= |source| + 1
      invariant Output(pass, source) == Prepended(kept, Remaining(pass, From(source, index), quoted))
      decreases |source| + 1 - index
    {
      var character, s := source[index], source[index..];
      if quoted || character == '"' {
        ghost var before := kept;
        StringStep(pass, source, index, quoted, kept);
        assert [character] + [] == [character];
        kept := kept + [character];
        if quoted && character == '\\' {
          Assoc(before, [character], Slice(source, index + 1, index + 2));
          kept := kept + Slice(source, index + 1, index + 2);
          index := index + 2;
          continue;
        }
        quoted := if quoted then character != '"' else true;
        index := index + 1;
        continue;
      }
      var length := Skipped(pass, s);
      OutsideStep(pass, s);
      if length.Failed? {
        PrependedFailure(kept, length.reason);
        return Failed(length.reason);
      }
      var next := Max(length.value, 1);
      assert s[next..] == From(source, index + next);
      PrependedTwice(kept, if length.value > 0 then " " else [character], Remaining(pass, s[next..], false));
      kept := kept + [if length.value > 0 then ' ' else character];
      index := index + next;
    }
    assert From(source, index) == [];
    NothingRemains(pass, quoted, kept);
    return Ok(kept);
  }

  // ---------------------------------------------------------------- what a pass keeps

  lemma ShownCons(item: Item, rest: seq<Item>)
    ensures Shown([item] + rest) == item.Shown() + Shown(rest)
    ensures Source([item] + rest) == item.Text() + Source(rest)
    ensures Literals([item] + rest) == (if item.Quoted? then [item.text] else []) + Literals(rest)
    ensures Cleaned([item] + rest) == [if item.Dropped? then Plain(' ') else item] + Cleaned(rest)
  {
    assert ([item] + rest)[1..] == rest;
  }

  /** The first item of a source, and the items of what follows it. */
  function FirstItem(pass: Pass, s: string): (r: Item)
    requires s != [] && Items(pass, s).Ok?
    ensures 0 < |r.Text()| <= |s| && s[..|r.Text()|] == r.Text() && Items(pass, s[|r.Text()|..]).Ok?
    ensures Items(pass, s).value == [r] + Items(pass, s[|r.Text()|..]).value
  {
    if s[0] == '"' then Quoted(s[..1 + LiteralRest(s[1..])])
    else if Skipped(pass, s).value == 0 then Plain(s[0])
    else Dropped(s[..Skipped(pass, s).value])
  }

  /** The items are the source, cut into pieces: nothing is lost or moved. */
  lemma {:induction false} ItemsAreTheSource(pass: Pass, s: string)
    requires Items(pass, s).Ok?
    ensures Source(Items(pass, s).value) == s
    decreases |s|
  {
    if s != [] {
      var first := FirstItem(pass, s);
      var n := |first.Text()|;
      ItemsAreTheSource(pass, s[n..]);
      ShownCons(first, Items(pass, s[n..]).value);
    }
  }

  /** A literal followed by something ends there, whatever follows instead. */
  lemma {:induction false} ClosedLiteral(s: string, other: string)
    requires LiteralRest(s) < |s| || other == []
    ensures LiteralRest(s[..LiteralRest(s)] + other) == LiteralRest(s)
    decreases |s|
  {
    var n := LiteralRest(s);
    var t := s[..n] + other;
    if s != [] && s[0] != '"' {
      var used := if s[0] == '\\' && |s| > 1 then 2 else 1;
      if |s| > 1 {
        ClosedLiteral(s[used..], other);
        assert t[used..] == s[used..][..n - used] + other;
      } else {
        assert t == s;
      }
    }
  }

  /** What is shown begins with a space or with the source's own first character. */
  lemma ShownHead(pass: Pass, s: string)
    requires Items(pass, s).Ok?
    ensures var v := Shown(Items(pass, s).value);
      if s == [] then v == [] else v != [] && (v[0] == ' ' || v[0] == s[0])
  {
    if s != [] {
      var first := FirstItem(pass, s);
      ShownCons(first, Items(pass, s[|first.Text()|..]).value);
    }
  }

  /** Scanning the output for comments finds the same strings and characters, and nothing to skip. */
  lemma {:induction false} CommentsAreGone(s: string)
    requires Items(Comments, s).Ok?
    ensures Items(Comments, Shown(Items(Comments, s).value)) == Ok(Cleaned(Items(Comments, s).value))
    decreases |s|
  {
    if s != [] {
      var first := FirstItem(Comments, s);
      var n := |first.Text()|;
      var rest := Items(Comments, s[n..]).value;
      var v := Shown(rest);
      CommentsAreGone(s[n..]);
      ShownHead(Comments, s[n..]);
      ShownCons(first, rest);
      StillOneItem(s, v);
    }
  }

  /** The first item of a source stays an item of its own once what follows it was cleaned. */
  lemma StillOneItem(s: string, v: string)
    requires s != [] && Items(Comments, s).Ok?
    requires var rest := s[|FirstItem(Comments, s).Text()|..];
      if rest == [] then v == [] else v != [] && (v[0] == ' ' || v[0] == rest[0])
    ensures var first := FirstItem(Comments, s);
      Items(Comments, first.Shown() + v) == Before(if first.Dropped? then Plain(' ') else first, Items(Comments, v))
  {
    hide Find;
    var first := FirstItem(Comments, s);
    var t := first.Shown() + v;
    if first.Quoted? {
      var n := LiteralRest(s[1..]);
      ClosedLiteral(s[1..], v);
      assert t[1..] == s[1..][..n] + v && t[..1 + n] == first.text && t[1 + n..] == v;
    } else {
      assert t[1..] == v;
      assert !("//" <= t) && !("/*" <= t) by {
        if first.Plain? && v != [] && t[0] == '/' {
          assert t[1] == v[0] && s[1..][0] == s[1];
          assert "//" <= s || "/*" <= s || (s[1] != '/' && s[1] != '*');
        }
      }
    }
  }

  /** The comment pass is idempotent. */
  lemma CommentPassIsIdempotent(s: string)
    requires Output(Comments, s).Ok?
    ensures Output(Comments, Output(Comments, s).value) == Output(Comments, s)
  {
    CommentsAreGone(s);
    CleanedShown(Items(Comments, s).value);
  }

  lemma {:induction false} CleanedShown(items: seq<Item>)
    ensures Shown(Cleaned(items)) == Shown(items) && Literals(Cleaned(items)) == Literals(items)
    ensures forall k :: 0 <= k < |items| ==> Cleaned(items)[k] == if items[k].Dropped? then Plain(' ') else items[k]
  {
    if items != [] {
      CleanedShown(items[1..]);
      assert items == [items[0]] + items[1..];
      ShownCons(items[0], items[1..]);
      ShownCons(if items[0].Dropped? then Plain(' ') else items[0], Cleaned(items[1..]));
    }
  }

  /** Every string literal outside comments is copied verbatim, in order, and no comment is left or formed. */
  lemma StringsSurvive(s: string)
    requires Output(Comments, s).Ok?
    ensures var after := Items(Comments, Output(Comments, s).value);
      && after.Ok? && Literals(after.value) == Literals(Items(Comments, s).value)
      && forall k :: 0 <= k < |after.value| ==> !after.value[k].Dropped?
  {
    CommentsAreGone(s);
    CleanedShown(Items(Comments, s).value);
  }

  // ---------------------------------------------------------------- trailing commas

  /** Whether a position is inside a string, read off the characters before it alone. */
  datatype Mode = Outside | Inside | Escaped

  function Step(m: Mode, c: char): Mode {
    match m
    case Outside => if c == '"' then Inside else Outside
    case Inside => if c == '\\' then Escaped else if c == '"' then Outside else Inside
    case Escaped => Inside
  }

  function ModeAfter(m: Mode, s: string): Mode
    decreases |s|
  {
    if s == [] then m else ModeAfter(Step(m, s[0]), s[1..])
  }

  lemma {:induction false} ModeAppend(m: Mode, a: string, b: string)
    ensures ModeAfter(m, a + b) == ModeAfter(ModeAfter(m, a), b)
    decreases |a|
  {
    if a == [] {
      assert a + b == b;
    } else {
      assert (a + b)[1..] == a[1..] + b;
      ModeAppend(Step(m, a[0]), a[1..], b);
    }
  }

  /** Within a literal every position is inside the string; its end is outside when anything follows. */
  lemma {:induction false} LiteralModes(s: string, k: nat)
    requires k <= LiteralRest(s)
    ensures k < LiteralRest(s) ==> ModeAfter(Inside, s[..k]) != Outside
    ensures k == LiteralRest(s) < |s| ==> ModeAfter(Inside, s[..k]) == Outside
    decreases |s|
  {
    if k > 0 {
      assert s[..k][1..] == s[1..k];
      if s[0] == '\\' {
        if k > 1 {
          assert s[1..k][1..] == s[2..k] && s[2..][..k - 2] == s[2..k];
          LiteralModes(s[2..], k - 2);
        }
      } else if s[0] != '"' {
        assert s[1..][..k - 1] == s[1..k];
        LiteralModes(s[1..], k - 1);
      }
    }
  }

  /** What the comma pass shows at a position. */
  function CommaShown(space: set<char>, s: string, k: nat): char
    requires k < |s|
  {
    if ModeAfter(Outside, s[..k]) == Outside && s[k] == ',' && ClosingFollows(space, s[k + 1..]) then ' ' else s[k]
  }

  /** The comma pass never fails, and changes exactly the commas outside strings before a closing bracket. */
  lemma {:induction false} CommasPointwise(space: set<char>, s: string, k: nat)
    ensures Items(TrailingCommas(space), s).Ok?
    ensures |Shown(Items(TrailingCommas(space), s).value)| == |s|
    ensures k < |s| ==> Shown(Items(TrailingCommas(space), s).value)[k] == CommaShown(space, s, k)
    decreases |s|
  {
    hide CommaShown, ModeAfter, LiteralRest;
    var pass := TrailingCommas(space);
    if s != [] {
      var n := if s[0] == '"' then 1 + LiteralRest(s[1..]) else 1;
      CommasPointwise(space, s[n..], Max(k - n, 0));
      var first := FirstItem(pass, s);
      var rest := Items(pass, s[n..]).value;
      FirstComma(space, s, k);
      assert Shown([first] + rest) == first.Shown() + Shown(rest) by {
        ShownCons(first, rest);
      }
      if n <= k < |s| {
        LaterComma(space, s, n, k);
      }
    }
  }

  lemma FirstComma(space: set<char>, s: string, k: nat)
    requires s != [] && Items(TrailingCommas(space), s).Ok?
    ensures var n := if s[0] == '"' then 1 + LiteralRest(s[1..]) else 1;
      var first := FirstItem(TrailingCommas(space), s);
      && |first.Text()| == |first.Shown()| == n <= |s|
      && (k < n ==> first.Shown()[k] == CommaShown(space, s, k))
  {
    hide ClosingFollows;
    var n := if s[0] == '"' then 1 + LiteralRest(s[1..]) else 1;
    if k < n {
      ModesSplit(s, n, k);
    }
  }

  lemma LaterComma(space: set<char>, s: string, n: nat, k: nat)
    requires s != [] && n <= k < |s| && n == if s[0] == '"' then 1 + LiteralRest(s[1..]) else 1
    ensures CommaShown(space, s[n..], k - n) == CommaShown(space, s, k)
  {
    hide ModeAfter, LiteralRest, ClosingFollows;
    ModesSplit(s, n, k);
    assert s[n..][..k - n] == s[n..k] && s[n..][k - n + 1..] == s[k + 1..];
  }

  /** Modes around the first item: past it they start again from outside. */
  lemma ModesSplit(s: string, n: nat, k: nat)
    requires s != [] && k < |s| && n == if s[0] == '"' then 1 + LiteralRest(s[1..]) else 1
    ensures 0 < k < n ==> ModeAfter(Outside, s[..k]) != Outside
    ensures k >= n ==> ModeAfter(Outside, s[..k]) == ModeAfter(Outside, s[n..k])
  {
    if k > 0 {
      assert s[..k][1..] == s[1..k];
      if s[0] == '"' {
        if k < n {
          LiteralModes(s[1..], k - 1);
          assert s[1..][..k - 1] == s[1..k];
        } else {
          LiteralModes(s[1..], n - 1);
          assert s[1..][..n - 1] == s[1..n] && s[1..k] == s[1..n] + s[n..k];
          ModeAppend(Inside, s[1..n], s[n..k]);
        }
      }
    }
  }

  // ---------------------------------------------------------------- both passes

  /** Only white space and comments, and then a closing bracket. */
  predicate ClosingNext(space: set<char>, items: seq<Item>) {
    items != [] && match items[0]
      case Plain(c) => Closes(c) || (c in space && ClosingNext(space, items[1..]))
      case Dropped(_) => ClosingNext(space, items[1..])
      case Quoted(_) => false
  }

  /**
   In the output of both passes a comma outside strings is gone exactly when nothing but white space and
   comments stands between it and a closing bracket: a comment there does not protect it.
   */
  lemma CommentsDoNotProtect(space: set<char>, s: string, k: nat)
    requires ' ' in space && '"' !in space
    requires Items(Comments, s).Ok? && k < |Items(Comments, s).value| && Items(Comments, s).value[k] == Plain(',')
    ensures var items := Items(Comments, s).value;
      var at := |Shown(items[..k])|;
      var out := Output(TrailingCommas(space), Shown(items));
      out.Ok? && at < |out.value| && out.value[at] == if ClosingNext(space, items[k + 1..]) then ' ' else ','
  {
    hide Items, Shown, ModeAfter, ClosingFollows, ClosingNext, LiteralRest;
    var items := Items(Comments, s).value;
    var before, after := items[..k], items[k + 1..];
    var t, at := Shown(items), |Shown(before)|;
    assert items == before + ([Plain(',')] + after);
    ShownAppend(before, [Plain(',')] + after);
    ShownCons(Plain(','), after);
    assert t[..at] == Shown(before) && t[at] == ',' && t[at + 1..] == Shown(after);
    CommasPointwise(space, t, at);
    OutsideBetweenItems(s, k);
    ItemsAreQuoted(s);
    ClosingShown(space, after);
  }

  lemma {:induction false} ShownAppend(a: seq<Item>, b: seq<Item>)
    ensures Shown(a + b) == Shown(a) + Shown(b)
  {
    if a == [] {
      assert a + b == b;
    } else {
      assert a == [a[0]] + a[1..] && a + b == [a[0]] + (a[1..] + b);
      ShownAppend(a[1..], b);
      ShownCons(a[0], a[1..] + b);
      ShownCons(a[0], a[1..]);
      Assoc(a[0].Shown(), Shown(a[1..]), Shown(b));
    }
  }

  /** Between two items no string is open. */
  lemma {:induction false} OutsideBetweenItems(s: string, k: nat)
    requires Items(Comments, s).Ok? && k < |Items(Comments, s).value|
    ensures ModeAfter(Outside, Shown(Items(Comments, s).value[..k])) == Outside
    decreases |s|
  {
    var items := Items(Comments, s).value;
    if k > 0 {
      var first := FirstItem(Comments, s);
      var n := |first.Text()|;
      var rest := Items(Comments, s[n..]).value;
      OutsideBetweenItems(s[n..], k - 1);
      assert items[..k] == [first] + rest[..k - 1];
      ShownCons(first, rest[..k - 1]);
      ModeAppend(Outside, first.Shown(), Shown(rest[..k - 1]));
      assert s[n..] != [];
      FirstModes(s);
    }
  }

  /** The first item, when another follows, ends outside strings. */
  lemma FirstModes(s: string)
    requires s != [] && Items(Comments, s).Ok? && |FirstItem(Comments, s).Text()| < |s|
    ensures ModeAfter(Outside, FirstItem(Comments, s).Shown()) == Outside
  {
    var first := FirstItem(Comments, s);
    if first.Quoted? {
      var n := LiteralRest(s[1..]);
      LiteralModes(s[1..], n);
      assert first.text[1..] == s[1..][..n];
    } else {
      var shown := first.Shown();
      assert shown[1..] == [] && shown[0] != '"';
      assert ModeAfter(Outside, shown) == ModeAfter(Step(Outside, shown[0]), shown[1..]);
    }
  }

  /** Literals start with their quote. */
  lemma {:induction false} ItemsAreQuoted(s: string)
    requires Items(Comments, s).Ok?
    ensures forall item :: item in Items(Comments, s).value && item.Quoted? ==> item.text != [] && item.text[0] == '"'
    decreases |s|
  {
    if s != [] {
      ItemsAreQuoted(s[|FirstItem(Comments, s).Text()|..]);
    }
  }

  lemma {:induction false} ClosingShown(space: set<char>, items: seq<Item>)
    requires ' ' in space && '"' !in space
    requires forall item :: item in items && item.Quoted? ==> item.text != [] && item.text[0] == '"'
    ensures ClosingFollows(space, Shown(items)) == ClosingNext(space, items)
  {
    if items != [] {
      ClosingShown(space, items[1..]);
      assert items == [items[0]] + items[1..];
      ShownCons(items[0], items[1..]);
      var t := Shown(items);
      if !items[0].Quoted? {
        assert t[1..] == Shown(items[1..]);
      }
    }
  }

  /** Both passes, as the text is then decoded; only an unterminated comment fails. */
  method Strip(text: string, space: set<char>) returns (r: Result<string, Error>)
    ensures r.Failed? <==> Items(Comments, text).Failed?
    ensures r.Ok? ==> r == Output(TrailingCommas(space), Shown(Items(Comments, text).value))
    ensures r.Ok? ==> |r.value| == |Shown(Items(Comments, text).value)| <= |text|
  {
    var uncommented := Scan(Comments, text);
    if uncommented.Failed? {
      return uncommented;
    }
    CommasPointwise(space, uncommented.value, 0);
    NoLonger(text);
    r := Scan(TrailingCommas(space), uncommented.value);
  }

  lemma {:induction false} NoLonger(s: string)
    requires Items(Comments, s).Ok?
    ensures |Shown(Items(Comments, s).value)| <= |s|
    decreases |s|
  {
    if s != [] {
      var first := FirstItem(Comments, s);
      NoLonger(s[|first.Text()|..]);
      ShownCons(first, Items(Comments, s[|first.Text()|..]).value);
    }
  }
}
