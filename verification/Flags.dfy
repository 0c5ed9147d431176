/**
 Adding the renderer accessibility switch to startup flags and launchers (badi_install.py). An edit adds one
 argument, as the wrapper itself parses the file, and is made at most once.
 */
module Flags {
  import opened Common

  function Switch(): string {
    "--force-renderer-accessibility"
  }

  function Flag(): string {
    "--force-renderer-accessibility=complete"
  }

  function Disable(): string {
    "--disable-renderer-accessibility"
  }

  function Remark(): string {
    "# Badi: renderer accessibility" + " for the focused-field observer"
  }

  /** Why a file is left for the user to inspect. */
  datatype Refusal = Unbalanced | Conflict | NoProgram

  /** How a wrapper reads its flags file; `shlex` splits one line into words, or fails on unbalanced quoting. */
  datatype Parser = Glib(shlex: string -> Option<seq<string>>) | Words | Line

  /** What is known of the shell splitter. */
  ghost predicate Splits(parser: Parser) {
    parser.Glib? ==> parser.shlex("") == Some([]) && parser.shlex(Flag()) == Some([Flag()])
  }

  // ---------------------------------------------------------------- splitting and joining

  /** The first position of `c` in `s`, or its length. */
  function UpTo(s: string, c: char): (n: nat)
    ensures n <= |s| && c !in s[..n] && (n < |s| ==> s[n] == c)
  {
    if s == [] || s[0] == c then 0
    else
      var n := UpTo(s[1..], c);
      assert s[..n + 1] == [s[0]] + s[1..][..n];
      n + 1
  }

  function Split(s: string, c: char): (r: seq<string>)
    ensures r != [] && forall part :: part in r ==> c !in part
    decreases |s|
  {
    var n := UpTo(s, c);
    if n == |s| then
      assert s[..n] == s;
      [s]
    else [s[..n]] + Split(s[n + 1..], c)
  }

  function Join(parts: seq<string>, c: char): string {
    if parts == [] then "" else if |parts| == 1 then parts[0] else parts[0] + [c] + Join(parts[1..], c)
  }

  lemma {:induction false} UpToIs(a: string, b: string, c: char)
    requires c !in a
    ensures UpTo(a + [c] + b, c) == |a|
  {
    if a != [] {
      assert a[0] in a && (a + [c] + b)[1..] == a[1..] + [c] + b;
      UpToIs(a[1..], b, c);
    }
  }

  lemma {:induction false} JoinSplit(s: string, c: char)
    ensures Join(Split(s, c), c) == s
    decreases |s|
  {
    var n := UpTo(s, c);
    if n < |s| {
      JoinSplit(s[n + 1..], c);
      assert Split(s, c)[1..] == Split(s[n + 1..], c);
      assert s == s[..n] + [c] + s[n + 1..];
    }
  }

  lemma {:induction false} SplitAppend(a: string, b: string, c: char)
    ensures Split(a + [c] + b, c) == Split(a, c) + Split(b, c)
    decreases |a|
  {
    var s, n := a + [c] + b, UpTo(a, c);
    if n == |a| {
      assert a[..n] == a;
      UpToIs(a, b, c);
      assert s[..n] == a && s[n + 1..] == b;
    } else {
      var rest := a[n + 1..];
      assert s == a[..n] + [c] + (rest + [c] + b);
      UpToIs(a[..n], rest + [c] + b, c);
      assert s[..n] == a[..n] && s[n + 1..] == rest + [c] + b;
      SplitAppend(rest, b, c);
      Assoc([a[..n]], Split(rest, c), Split(b, c));
    }
  }

  lemma SplitWhole(s: string, c: char)
    requires c !in s
    ensures Split(s, c) == [s]
  {
    var n := UpTo(s, c);
  }

  lemma {:induction false} SplitJoin(parts: seq<string>, c: char)
    requires parts != [] && forall part :: part in parts ==> c !in part
    ensures Split(Join(parts, c), c) == parts
  {
    assert parts[0] in parts;
    SplitWhole(parts[0], c);
    if |parts| > 1 {
      SplitJoin(parts[1..], c);
      SplitAppend(parts[0], Join(parts[1..], c), c);
      assert parts == [parts[0]] + parts[1..];
    }
  }

  // ---------------------------------------------------------------- a wrapper's arguments

  predicate Blank(c: char) {
    c == ' ' || c == '\t'
  }

  predicate LineBreak(c: char) {
    '\n' <= c <= '\r' || '\U{001C}' <= c <= '\U{001E}' || c == '\U{0085}' || '\U{2028}' <= c <= '\U{2029}'
  }

  /** How many characters come before the first line break. */
  function LineLength(s: string): (n: nat)
    ensures n <= |s| && (n < |s| ==> LineBreak(s[n])) && forall i :: 0 <= i < n ==> !LineBreak(s[i])
  {
    if s == [] || LineBreak(s[0]) then 0 else 1 + LineLength(s[1..])
  }

  /** How many characters a line break at `n` takes: a carriage return joins a line feed after it. */
  function BreakLength(s: string, n: nat): (r: nat)
    requires n < |s|
    ensures 1 <= r <= |s| - n
  {
    if s[n] == '\r' && n + 1 < |s| && s[n + 1] == '\n' then 2 else 1
  }

  function AfterBreak(s: string, n: nat): (r: string)
    requires n < |s|
    ensures |r| < |s|
  {
    s[n + BreakLength(s, n)..]
  }

  /** Python's `str.splitlines`. */
  function SplitLines(s: string): seq<string>
    decreases |s|
  {
    var n := LineLength(s);
    if s == "" then [] else if n == |s| then [s] else [s[..n]] + SplitLines(AfterBreak(s, n))
  }

  /** Where a line stands: in a quotation, after a backslash, at the start of a word. */
  datatype Place = Place(quote: Option<char>, escaped: bool, boundary: bool)

  const START := Place(None, false, true)

  /** Past one character; nothing when a comment begins with it. */
  function Past(white: set<char>, p: Place, c: char): Option<Place> {
    if p.escaped then Some(p.(escaped := false))
    else if c == '\\' && p.quote != Some('\'') then Some(p.(escaped := true, boundary := false))
    else if p.quote.Some? then Some(if p.quote.value == c then p.(quote := None) else p)
    else if c == '"' || c == '\'' then Some(Place(Some(c), false, false))
    else if c == '#' && p.boundary then None
    else Some(p.(boundary := c in white))
  }

  /** A line without its comment, which begins at an unquoted hash at the start of a word. */
  function Uncommented(white: set<char>, line: string, p: Place): string {
    if line == [] then ""
    else
      var next := Past(white, p, line[0]);
      if next.None? then "" else [line[0]] + Uncommented(white, line[1..], next.value)
  }

  /** Shell quoting after some characters: none, inside a quotation, or past a backslash in either. */
  datatype Quoting = Quoting(quote: Option<char>, escaped: bool)

  /** Comments play no part in this. */
  function QuotingAfter(s: string): Quoting {
    if s == "" then Quoting(None, false)
    else
      var before, c := QuotingAfter(s[..|s| - 1]), s[|s| - 1];
      if before.escaped then before.(escaped := false)
      else if c == '\\' && before.quote != Some('\'') then before.(escaped := true)
      else if before.quote.Some? then if before.quote.value == c then Quoting(None, false) else before
      else if c == '"' || c == '\'' then Quoting(Some(c), false)
      else before
  }

  predicate Bare(s: string) {
    QuotingAfter(s) == Quoting(None, false)
  }

  /** A word may begin at `k`: the line does, or bare white space is just before. */
  predicate AtWordStart(white: set<char>, line: string, k: nat)
    requires k <= |line|
  {
    k == 0 || (Bare(line[..k - 1]) && line[k - 1] in white && line[k - 1] !in {'\\', '"', '\''})
  }

  /** A hash outside quotations where a word may begin. */
  predicate CommentAt(white: set<char>, line: string, k: nat)
    requires k < |line|
  {
    line[k] == '#' && Bare(line[..k]) && AtWordStart(white, line, k)
  }

  /** The line up to its first comment, which begins at an unquoted hash at the start of a word and nowhere else. */
  method CutComment(white: set<char>, line: string) returns (r: string)
    ensures r <= line && (|r| < |line| ==> CommentAt(white, line, |r|))
    ensures forall k :: 0 <= k < |r| ==> !CommentAt(white, line, k)
    ensures r == Uncommented(white, line, START)
  {
    hide Uncommented;
    var quote: Option<char>, escaped, boundary := None, false, true;
    assert line[..0] == "" && line[0..] == line;
    for index := 0 to |line|
      invariant Uncommented(white, line, START)
             == line[..index] + Uncommented(white, line[index..], Place(quote, escaped, boundary))
      invariant QuotingAfter(line[..index]) == Quoting(quote, escaped)
      invariant if Bare(line[..index]) then boundary <==> AtWordStart(white, line, index) else !boundary
      invariant forall k :: 0 <= k < index ==> !CommentAt(white, line, k)
    {
      assert line[..index + 1][..index] == line[..index];
      var c := line[index];
      UncommentedStep(white, line, index, Place(quote, escaped, boundary));
      if escaped {
        escaped := false;
      } else if c == '\\' && quote != Some('\'') {
        escaped, boundary := true, false;
      } else if quote.Some? {
        if c == quote.value {
          quote := None;
        }
      } else if c == '"' || c == '\'' {
        quote, boundary := Some(c), false;
      } else if c == '#' && boundary {
        return line[..index];
      } else {
        boundary := c in white;
      }
    }
    UncommentedEnd(white, line, Place(quote, escaped, boundary));
    return line;
  }

  lemma UncommentedStep(white: set<char>, line: string, index: nat, p: Place)
    requires index < |line|
    ensures line[..index] + Uncommented(white, line[index..], p) ==
      var next := Past(white, p, line[index]);
      if next.None? then line[..index] else line[..index + 1] + Uncommented(white, line[index + 1..], next.value)
  {
    var rest := line[index..];
    assert rest[1..] == line[index + 1..] && line[..index + 1] == line[..index] + [line[index]];
  }

  lemma UncommentedEnd(white: set<char>, line: string, p: Place)
    ensures line[..|line|] + Uncommented(white, line[|line|..], p) == line
  {
  }

  lemma {:induction false} NoHashUncommented(white: set<char>, line: string, p: Place)
    requires '#' !in line
    ensures Uncommented(white, line, p) == line
  {
    if line != [] {
      var next := Past(white, p, line[0]);
      assert line[0] in line && next.Some?;
      NoHashUncommented(white, line[1..], next.value);
    }
  }

  /** The maximal runs of characters that are neither spaces nor tabs. */
  function Runs(s: string, open: string): seq<string>
    requires forall c :: c in open ==> !Blank(c)
    decreases |s|
  {
    var closed := if open == "" then [] else [open];
    if s == [] then closed
    else if Blank(s[0]) then closed + Runs(s[1..], "")
    else Runs(s[1..], open + [s[0]])
  }

  lemma {:induction false} OneRun(s: string, open: string)
    requires (forall c :: c in open ==> !Blank(c)) && (forall c :: c in s ==> !Blank(c)) && open + s != ""
    ensures Runs(s, open) == [open + s]
    decreases |s|
  {
    if s == [] {
      assert open + s == open;
    } else {
      assert s[0] in s && open + s == open + [s[0]] + s[1..];
      OneRun(s[1..], open + [s[0]]);
    }
  }

  /** A line's first character that is neither a space nor a tab. */
  function FirstInk(s: string): Option<char> {
    if s == [] then None else if Blank(s[0]) then FirstInk(s[1..]) else Some(s[0])
  }

  /** The arguments one line supplies. */
  function LineTokens(parser: Parser, white: set<char>, line: string): Result<seq<string>, Refusal> {
    match parser
    case Glib(shlex) =>
      var words := shlex(Uncommented(white, line, START));
      if words.Some? then Ok(words.value) else Failed(Unbalanced)
    case Words => Ok(Runs(line[..UpTo(line, '#')], ""))
    case Line =>
      var first := FirstInk(line);
      Ok(if first.Some? && first.value != '#' then [line] else [])
  }

  function Lines(parser: Parser, text: string): seq<string> {
    if parser.Glib? then SplitLines(text) else Split(text, '\n')
  }

  function Together(a: Result<seq<string>, Refusal>, b: Result<seq<string>, Refusal>): Result<seq<string>, Refusal> {
    if a.Failed? then a else if b.Failed? then b else Ok(a.value + b.value)
  }

  function LinesTokens(parser: Parser, white: set<char>, lines: seq<string>): Result<seq<string>, Refusal> {
    if lines == [] then Ok([])
    else Together(LineTokens(parser, white, lines[0]), LinesTokens(parser, white, lines[1..]))
  }

  /** The arguments a flags file supplies, as its wrapper parses it. */
  function Tokens(parser: Parser, white: set<char>, text: string): Result<seq<string>, Refusal> {
    LinesTokens(parser, white, Lines(parser, text))
  }

  lemma {:induction false} TokensOfBoth(parser: Parser, white: set<char>, a: seq<string>, b: seq<string>)
    ensures LinesTokens(parser, white, a + b) == Together(LinesTokens(parser, white, a), LinesTokens(parser, white, b))
  {
    var x, y := LinesTokens(parser, white, a), LinesTokens(parser, white, b);
    if a == [] {
      assert a + b == b;
      assert y.Ok? ==> [] + y.value == y.value;
    } else {
      assert (a + b)[1..] == a[1..] + b;
      TokensOfBoth(parser, white, a[1..], b);
      var first, rest := LineTokens(parser, white, a[0]), LinesTokens(parser, white, a[1..]);
      if first.Ok? && rest.Ok? && y.Ok? {
        Assoc(first.value, rest.value, y.value);
      }
    }
  }

  /** A line feed between two texts keeps their arguments apart, whatever the first one ends with. */
  lemma TokensAppend(parser: Parser, white: set<char>, a: string, b: string)
    requires Splits(parser)
    ensures Tokens(parser, white, a + "\n" + b) == Together(Tokens(parser, white, a), Tokens(parser, white, b))
  {
    if parser.Glib? {
      SplitLinesAppend(parser, white, a, b);
    } else {
      SplitAppend(a, b, '\n');
      TokensOfBoth(parser, white, Split(a, '\n'), Split(b, '\n'));
    }
  }

  lemma {:induction false} LineLengthIs(a: string, b: string)
    requires forall i :: 0 <= i < |a| ==> !LineBreak(a[i])
    requires b != [] && LineBreak(b[0])
    ensures LineLength(a + b) == |a|
  {
    if a == [] {
      assert a + b == b;
    } else {
      assert (a + b)[1..] == a[1..] + b;
      LineLengthIs(a[1..], b);
    }
  }

  /** An empty line supplies nothing. */
  lemma EmptyLine(parser: Parser, white: set<char>)
    requires Splits(parser)
    ensures LineTokens(parser, white, "") == Ok([])
  {
  }

  lemma LinesCons(parser: Parser, white: set<char>, line: string, rest: seq<string>)
    ensures LinesTokens(parser, white, [line] + rest)
      == Together(LineTokens(parser, white, line), LinesTokens(parser, white, rest))
  {
    assert ([line] + rest)[1..] == rest;
  }

  lemma TogetherTwice(a: Result<seq<string>, Refusal>, b: Result<seq<string>, Refusal>, c: Result<seq<string>, Refusal>)
    ensures Together(Together(a, b), c) == Together(a, Together(b, c))
    ensures Together(Ok([]), c) == c && Together(c, Ok([])) == c
  {
    if a.Ok? && b.Ok? && c.Ok? {
      Assoc(a.value, b.value, c.value);
    }
    if c.Ok? {
      assert [] + c.value == c.value && c.value + [] == c.value;
    }
  }

  lemma LinesBegin(s: string, n: nat)
    requires n == LineLength(s)
    ensures SplitLines(s) ==
      if s == "" then [] else if n == |s| then [s] else [s[..n]] + SplitLines(AfterBreak(s, n))
  {
    hide LineLength, AfterBreak;
  }

  /** The first line of two texts with a line feed between them is that of the first text. */
  lemma FirstLine(a: string, b: string)
    ensures var s, n := a + "\n" + b, LineLength(a);
      if n == |a| then SplitLines(s) == [a] + SplitLines(b) && SplitLines(a) == if a == "" then [] else [a]
      else if a[n] == '\r' && n + 1 == |a| then SplitLines(s) == [a[..n]] + SplitLines(b) && SplitLines(a) == [a[..n]]
      else
        var k := BreakLength(a, n);
        SplitLines(s) == [a[..n]] + SplitLines(a[n + k..] + "\n" + b) && SplitLines(a) == [a[..n]] + SplitLines(a[n + k..])
  {
    hide LineLength, SplitLines, LineBreak;
    var s, n := a + "\n" + b, LineLength(a);
    BothLineLength(a, b);
    LinesBegin(s, n);
    LinesBegin(a, n);
    Beginning(a, b, n);
    if n < |a| {
      if a[n] == '\r' && n + 1 == |a| {
        Ending(a, b, n + 2);
        LinesBegin("", 0);
        assert a[n + 1..] == "" && [a[..n]] + [] == [a[..n]];
      } else {
        Ending(a, b, n + BreakLength(a, n));
      }
    } else {
      Ending(a, b, n + 1);
      assert a[..n] == a;
    }
  }

  lemma BothLineLength(a: string, b: string)
    ensures LineLength(a + "\n" + b) == LineLength(a)
  {
    var n := LineLength(a);
    LineFeedBreaks();
    LineLengthIs(a[..n], a[n..] + "\n" + b);
    assert a + "\n" + b == a[..n] + (a[n..] + "\n" + b);
  }

  lemma Beginning(a: string, b: string, n: nat)
    requires n <= |a|
    ensures var s := a + "\n" + b;
      s[..n] == a[..n] && (n < |a| ==> s[n] == a[n]) && (n + 1 < |a| ==> s[n + 1] == a[n + 1]) && s[|a|] == '\n'
  {
  }

  lemma Ending(a: string, b: string, n: nat)
    requires n <= |a| + 1
    ensures (a + "\n" + b)[n..] == if n <= |a| then a[n..] + "\n" + b else b
  {
  }

  lemma LineFeedBreaks()
    ensures LineBreak('\n')
  {
  }

  lemma {:induction false} SplitLinesAppend(parser: Parser, white: set<char>, a: string, b: string)
    requires parser.Glib? && Splits(parser)
    ensures LinesTokens(parser, white, SplitLines(a + "\n" + b))
      == Together(LinesTokens(parser, white, SplitLines(a)), LinesTokens(parser, white, SplitLines(b)))
    decreases |a|
  {
    hide LinesTokens, LineTokens, Together, LineLength, SplitLines;
    var n := LineLength(a);
    var line, rest := a[..n], SplitLines(b);
    var first, ends := LineTokens(parser, white, line), LinesTokens(parser, white, rest);
    FirstLine(a, b);
    EmptyLine(parser, white);
    NoLines(parser, white);
    LinesCons(parser, white, line, rest);
    LinesCons(parser, white, line, []);
    assert [line] + [] == [line];
    TogetherTwice(first, Ok([]), ends);
    TogetherTwice(Ok([]), Ok([]), first);
    if n == |a| {
      assert line == a;
    } else if !(a[n] == '\r' && n + 1 == |a|) {
      var k := BreakLength(a, n);
      SplitLinesAppend(parser, white, a[n + k..], b);
      LinesCons(parser, white, line, SplitLines(a[n + k..] + "\n" + b));
      LinesCons(parser, white, line, SplitLines(a[n + k..]));
      TogetherTwice(first, LinesTokens(parser, white, SplitLines(a[n + k..])), ends);
    }
  }

  lemma NoLines(parser: Parser, white: set<char>)
    ensures LinesTokens(parser, white, []) == Ok([])
  {
  }

  // ---------------------------------------------------------------- flags files

  /** The part of an argument before its value. */
  function Name(token: string): string {
    token[..UpTo(token, '=')]
  }

  predicate Complete(token: string) {
    token == Switch() || token == Flag()
  }

  predicate Names(tokens: seq<string>, name: string) {
    exists token :: token in tokens && Name(token) == name
  }

  predicate AllComplete(tokens: seq<string>, name: string) {
    forall token :: token in tokens && Name(token) == name ==> Complete(token)
  }

  function Extended(text: string): string {
    text + (if text != "" && text[|text| - 1] != '\n' then "\n" else "") + Remark() + "\n" + Flag() + "\n"
  }

  /** The text with the switch added, nothing when it already is in effect, or why the user must look. */
  function ObservedFlags(parser: Parser, white: set<char>, text: string): Result<Option<string>, Refusal> {
    var tokens := Tokens(parser, white, text);
    if tokens.Failed? then Failed(tokens.reason)
    else if Names(tokens.value, Disable()) then Failed(Conflict)
    else if !AllComplete(tokens.value, Switch()) then Failed(Conflict)
    else if Names(tokens.value, Switch()) then Ok(None)
    else Ok(Some(Extended(text)))
  }

  predicate Ordinary(c: char) {
    'a' <= c <= 'z' || c == '-' || c == '='
  }

  lemma FlagCharacters()
    ensures (forall i :: 0 <= i < |Flag()| ==> Ordinary(Flag()[i])) && Flag() != "" && Flag()[0] == '-'
  {
  }

  lemma RemarkCharacters()
    ensures Remark() != "" && Remark()[0] == '#'
    ensures forall i :: 0 <= i < |Remark()| ==> ' ' <= Remark()[i] <= 'z'
  {
  }

  lemma FlagParts()
    ensures Flag() == Switch() + ['='] + "complete"
    ensures forall i :: 0 <= i < |Switch()| ==> Switch()[i] != '='
  {
  }

  lemma SwitchesDiffer()
    ensures Switch() != Disable()
  {
    assert Switch()[2] == 'f' && Disable()[2] == 'd';
  }

  lemma Literals()
    ensures forall c :: c in Flag() ==> !Blank(c) && !LineBreak(c) && c != '#'
    ensures (forall c :: c in Remark() ==> !LineBreak(c)) && Remark() != "" && Remark()[0] == '#'
    ensures Flag() != "" && Flag()[0] == '-'
    ensures Name(Flag()) == Switch() != Disable()
  {
    hide Flag, Remark, Switch, Disable, UpTo;
    FlagCharacters();
    RemarkCharacters();
    FlagParts();
    SwitchesDiffer();
    UpToIs(Switch(), "complete", '=');
  }

  /** The two added lines supply the flag and nothing else. */
  lemma AddedTokens(parser: Parser, white: set<char>)
    requires Splits(parser)
    ensures Tokens(parser, white, Remark() + "\n" + Flag() + "\n") == Ok([Flag()])
    ensures Tokens(parser, white, "") == Ok([])
  {
    hide Runs, UpTo, Name, Flag, Remark, Switch, Tokens, LineTokens, Runs;
    Literals();
    LineAlone(parser, white, "");
    LineAlone(parser, white, Remark());
    LineAlone(parser, white, Flag());
    TokensAppend(parser, white, Flag(), "");
    TokensAppend(parser, white, Remark(), Flag() + "\n");
    assert Flag() + "\n" + "" == Flag() + "\n";
    assert Remark() + "\n" + (Flag() + "\n") == Remark() + "\n" + Flag() + "\n";
    FlagLine(parser, white);
    RemarkLine(parser, white);
    EmptyLine(parser, white);
    TogetherTwice(Ok([]), Ok([]), Ok([Flag()]));
  }

  lemma {:induction false} NoBreak(line: string)
    requires forall c :: c in line ==> !LineBreak(c)
    ensures LineLength(line) == |line|
  {
    if line != "" {
      assert line[0] in line;
      NoBreak(line[1..]);
    }
  }

  /** A text without a line break is one line. */
  lemma LineAlone(parser: Parser, white: set<char>, line: string)
    requires Splits(parser) && forall c :: c in line ==> !LineBreak(c)
    ensures Tokens(parser, white, line) == LineTokens(parser, white, line)
  {
    NoLines(parser, white);
    TogetherTwice(Ok([]), Ok([]), LineTokens(parser, white, line));
    EmptyLine(parser, white);
    if parser.Glib? {
      NoBreak(line);
      if line != "" {
        LinesCons(parser, white, line, []);
        assert [line] + [] == [line];
      }
    } else {
      SplitWhole(line, '\n');
      LinesCons(parser, white, line, []);
      assert [line] + [] == [line];
    }
  }

  lemma FlagLine(parser: Parser, white: set<char>)
    requires Splits(parser)
    ensures LineTokens(parser, white, Flag()) == Ok([Flag()])
  {
    hide Flag, UpTo, Runs, Name;
    Literals();
    match parser
    case Glib(_) =>
      NoHashUncommented(white, Flag(), START);
    case Words =>
      SplitWhole(Flag(), '#');
      assert UpTo(Flag(), '#') == |Flag()| && Flag()[..|Flag()|] == Flag();
      OneRun(Flag(), "");
      assert "" + Flag() == Flag();
    case Line =>
  }

  lemma RemarkLine(parser: Parser, white: set<char>)
    requires Splits(parser)
    ensures LineTokens(parser, white, Remark()) == Ok([])
  {
    hide Remark, Flag, Name;
    Literals();
    assert UpTo(Remark(), '#') == 0;
  }

  /** An edit keeps the whole text, adds exactly the flag to what the wrapper parses, and is made once. */
  lemma FlagsExtend(parser: Parser, white: set<char>, text: string)
    requires Splits(parser) && ObservedFlags(parser, white, text).Ok? && ObservedFlags(parser, white, text).value.Some?
    ensures var edited := ObservedFlags(parser, white, text).value.value;
      && text <= edited && Tokens(parser, white, text).Ok?
      && Tokens(parser, white, edited) == Ok(Tokens(parser, white, text).value + [Flag()])
      && ObservedFlags(parser, white, edited) == Ok(None)
  {
    hide Tokens, UpTo, Flag, Remark, Switch, Disable, Names, AllComplete;
    var added := Remark() + "\n" + Flag() + "\n";
    var edited, tokens := Extended(text), Tokens(parser, white, text);
    AddedTokens(parser, white);
    TogetherTwice(Ok([]), Ok([]), Ok([Flag()]));
    if text == "" {
      assert edited == added;
    } else if text[|text| - 1] == '\n' {
      var a := text[..|text| - 1];
      assert edited == a + "\n" + added && text == a + "\n" + "";
      TokensAppend(parser, white, a, added);
      TokensAppend(parser, white, a, "");
      TogetherTwice(Ok([]), Ok([]), Tokens(parser, white, a));
    } else {
      assert edited == text + "\n" + added;
      TokensAppend(parser, white, text, added);
    }
    assert text <= edited;
    assert Tokens(parser, white, edited) == Ok(tokens.value + [Flag()]);
    OneMoreFlag(tokens.value);
  }

  lemma OneMoreFlag(tokens: seq<string>)
    requires !Names(tokens, Disable()) && AllComplete(tokens, Switch())
    ensures !Names(tokens + [Flag()], Disable()) && AllComplete(tokens + [Flag()], Switch()) && Names(tokens + [Flag()], Switch())
  {
    hide Name, Flag, Switch, Disable;
    Literals();
    assert Flag() in tokens + [Flag()];
    forall token | token in tokens + [Flag()]
      ensures Name(token) != Disable() && (Name(token) == Switch() ==> Complete(token))
    {
      assert token in tokens || token == Flag();
    }
  }

  /** The argument is this switch, with or without a value. */
  predicate Chooses(token: string, switch: string) {
    token == switch || switch + "=" <= token
  }

  lemma NameIs(token: string, name: string)
    requires '=' !in name
    ensures Name(token) == name <==> Chooses(token, name)
  {
    var n := UpTo(token, '=');
    if Name(token) == name {
      assert token[..n] == name;
      if n < |token| {
        assert token[..n + 1] == name + "=";
      }
    }
    if name + "=" <= token {
      var rest := token[|name| + 1..];
      assert token == name + "=" + rest && name + "=" + rest == name + ['='] + rest;
      UpToIs(name, rest, '=');
    }
  }

  /** An argument that disables renderer accessibility, or chooses another mode of it than the complete one. */
  predicate Opposes(token: string) {
    || Chooses(token, Disable())
    || (Chooses(token, Switch()) && token != Switch() && token != Switch() + "=complete")
  }

  /** An edit is refused exactly for such an argument, or when the text cannot be parsed, and not made exactly for a switch in effect. */
  lemma FlagsDecide(parser: Parser, white: set<char>, text: string)
    ensures var r, tokens := ObservedFlags(parser, white, text), Tokens(parser, white, text);
      && (tokens.Failed? ==> r == Failed(tokens.reason))
      && (tokens.Ok? ==>
           && (r.Failed? <==> exists token :: token in tokens.value && Opposes(token))
           && (r.Failed? ==> r.reason == Conflict)
           && (r.Ok? && r.value.None? <==> r.Ok? && exists token :: token in tokens.value && Chooses(token, Switch())))
  {
    hide Name, Tokens, Chooses, Extended, Switch, Flag, Disable;
    SwitchesHaveNoValue();
    FlagIs();
    forall token: string
      ensures Name(token) == Switch() <==> Chooses(token, Switch())
      ensures Name(token) == Disable() <==> Chooses(token, Disable())
    {
      NameIs(token, Switch());
      NameIs(token, Disable());
    }
  }

  lemma FlagIs()
    ensures Flag() == Switch() + "=complete"
  {
  }

  lemma SwitchesHaveNoValue()
    ensures '=' !in Switch() && '=' !in Disable()
  {
  }
}
