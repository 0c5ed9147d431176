/**
 Text for the Fcitx addon (field.py): format characters deleted, control characters and embedded
 objects turned into spaces, spacing collapsed. Its results are exactly the texts it leaves alone.
 */
module Displayed {
  import opened Common

  const EMBEDDED_OBJECT: char := '\U{FFFC}'
  const ZERO_WIDTH_NON_JOINER: char := '\U{200C}'

  /** The Unicode tables: categories Cc and Cf, and what `str.split` takes for white space. */
  datatype Unicode = Unicode(control: set<char>, format: set<char>, blank: set<char>)

  predicate Between(low: char, c: char, high: char) {
    low <= c <= high
  }

  /** The Arabic-script letters. */
  predicate ArabicLetter(c: char) {
    || Between('\U{0620}', c, '\U{063F}') || Between('\U{0641}', c, '\U{064A}') || Between('\U{066E}', c, '\U{066F}')
    || Between('\U{0671}', c, '\U{06D3}') || c == '\U{06D5}' || Between('\U{06E5}', c, '\U{06E6}')
    || Between('\U{06EE}', c, '\U{06EF}') || Between('\U{06FA}', c, '\U{06FC}') || c == '\U{06FF}'
  }

  /** What the tables say of the characters that matter here. */
  ghost predicate Tables(u: Unicode) {
    && ' ' in u.blank && ' ' !in u.control && ' ' !in u.format
    && EMBEDDED_OBJECT !in u.blank && EMBEDDED_OBJECT !in u.format
    && ZERO_WIDTH_NON_JOINER in u.format && ZERO_WIDTH_NON_JOINER !in u.blank
    && u.control !! u.format
    && forall c: char :: ArabicLetter(c) ==> c !in u.control && c !in u.format && c !in u.blank && c != EMBEDDED_OBJECT
  }

  /** A joiner that has an Arabic letter on each side. */
  predicate ArabicJoiner(text: string, index: nat)
    requires index < |text|
  {
    text[index] == ZERO_WIDTH_NON_JOINER && 0 < index < |text| - 1 && ArabicLetter(text[index - 1]) && ArabicLetter(text[index + 1])
  }

  /** What one character leaves behind. */
  function KeptOf(u: Unicode, value: string, index: nat): string
    requires index < |value|
  {
    var c := value[index];
    if c == EMBEDDED_OBJECT || c in u.control then " "
    else if c !in u.format || ArabicJoiner(value, index) then [c]
    else ""
  }

  function Kept(u: Unicode, value: string, n: nat): string
    requires n <= |value|
  {
    if n == 0 then "" else Kept(u, value, n - 1) + KeptOf(u, value, n - 1)
  }

  /** How many characters of `s` come before its first white space. */
  function Run(u: Unicode, s: string): (n: nat)
    ensures n <= |s| && (n < |s| ==> s[n] in u.blank) && forall i :: 0 <= i < n ==> s[i] !in u.blank
  {
    if s == [] || s[0] in u.blank then 0 else 1 + Run(u, s[1..])
  }

  /** The words of `s`, as `str.split` finds them. */
  function Split(u: Unicode, s: string): seq<string>
    decreases |s|
  {
    if s == [] then []
    else if s[0] in u.blank then Split(u, s[1..])
    else [s[..Run(u, s)]] + Split(u, s[Run(u, s)..])
  }

  function Join(words: seq<string>): string {
    if words == [] then "" else if |words| == 1 then words[0] else words[0] + " " + Join(words[1..])
  }

  function Displayed(u: Unicode, value: string): string {
    Join(Split(u, Kept(u, value, |value|)))
  }

  method DisplayedText(u: Unicode, value: string) returns (r: string)
    ensures r == Displayed(u, value)
  {
    var kept := "";
    for index := 0 to |value|
      invariant kept == Kept(u, value, index)
    {
      var character := value[index];
      if character == EMBEDDED_OBJECT || character in u.control {
        kept := kept + " ";
      } else if character !in u.format || ArabicJoiner(value, index) {
        kept := kept + [character];
      }
    }
    r := Join(Split(u, kept));
  }

  // ---------------------------------------------------------------- the normal form

  /** Nothing to replace or delete. */
  ghost predicate Clean(u: Unicode, s: string) {
    forall i :: 0 <= i < |s| ==>
      s[i] != EMBEDDED_OBJECT && s[i] !in u.control && (s[i] in u.format ==> ArabicJoiner(s, i))
  }

  /** White space is single spaces between other characters. */
  ghost predicate Spaced(u: Unicode, s: string) {
    forall i :: 0 <= i < |s| && s[i] in u.blank ==>
      s[i] == ' ' && 0 < i < |s| - 1 && s[i - 1] !in u.blank && s[i + 1] !in u.blank
  }

  ghost predicate Normal(u: Unicode, s: string) {
    Clean(u, s) && Spaced(u, s)
  }

  /** A text is left alone exactly when it is in the normal form. */
  lemma UnchangedIffNormal(u: Unicode, value: string)
    requires Tables(u)
    ensures Displayed(u, value) == value <==> Normal(u, value)
  {
    if Normal(u, value) {
      CleanIsKept(u, value, |value|);
      assert value[..|value|] == value;
      SpacedIsJoined(u, value);
    }
    DisplayedIsNormal(u, value);
  }

  /** Displaying again changes nothing. */
  lemma DisplayedTwice(u: Unicode, value: string)
    requires Tables(u)
    ensures Normal(u, Displayed(u, value)) && Displayed(u, Displayed(u, value)) == Displayed(u, value)
  {
    DisplayedIsNormal(u, value);
    UnchangedIffNormal(u, Displayed(u, value));
  }

  lemma {:induction false} CleanIsKept(u: Unicode, value: string, n: nat)
    requires n <= |value| && Clean(u, value)
    ensures Kept(u, value, n) == value[..n]
  {
    if n > 0 {
      CleanIsKept(u, value, n - 1);
      assert value[..n] == value[..n - 1] + [value[n - 1]];
    }
  }

  lemma {:induction false} SpacedIsJoined(u: Unicode, s: string)
    requires Spaced(u, s)
    ensures Join(Split(u, s)) == s
    decreases |s|
  {
    if s != [] {
      var n := Run(u, s);
      assert s[0] !in u.blank;
      if n == |s| {
        assert s[n..] == [] && s[..n] == s;
      } else {
        var rest := s[n + 1..];
        assert s[n] in u.blank && s[n] == ' ' && rest[0] == s[n + 1];
        assert Spaced(u, rest) by {
          forall i | 0 <= i < |rest| && rest[i] in u.blank
            ensures rest[i] == ' ' && 0 < i < |rest| - 1 && rest[i - 1] !in u.blank && rest[i + 1] !in u.blank
          {
            assert rest[i] == s[n + 1 + i];
          }
        }
        SpacedIsJoined(u, rest);
        assert s[n..][1..] == rest;
        assert Split(u, s) == [s[..n]] + Split(u, rest);
        assert s == s[..n] + " " + rest;
      }
    }
  }

  // ---------------------------------------------------------------- every result is normal

  /** A kept format character sits between two Arabic letters; the last one kept may still wait for its second. */
  ghost predicate JoinersSoFar(u: Unicode, kept: string, letterNext: bool) {
    forall i :: 0 <= i < |kept| && kept[i] in u.format ==> JoinerAt(kept, i, letterNext)
  }

  predicate JoinerAt(kept: string, i: nat, letterNext: bool)
    requires i < |kept|
  {
    && kept[i] == ZERO_WIDTH_NON_JOINER && 0 < i && ArabicLetter(kept[i - 1])
    && if i < |kept| - 1 then ArabicLetter(kept[i + 1]) else letterNext
  }

  predicate LetterAt(s: string, i: int) {
    0 <= i < |s| && ArabicLetter(s[i])
  }

  /** A letter just kept may be the second one that the last format character waits for. */
  lemma {:induction false} KeptIsClean(u: Unicode, value: string, n: nat)
    requires Tables(u) && n <= |value|
    ensures var kept := Kept(u, value, n);
      && JoinersSoFar(u, kept, LetterAt(value, n))
      && (LetterAt(value, n - 1) ==> kept != [] && kept[|kept| - 1] == value[n - 1])
      && forall i :: 0 <= i < |kept| ==> kept[i] != EMBEDDED_OBJECT && kept[i] !in u.control
  {
    hide ArabicLetter;
    if n > 0 {
      KeptIsClean(u, value, n - 1);
      var before, kept := Kept(u, value, n - 1), Kept(u, value, n);
      forall i | 0 <= i < |kept| && kept[i] in u.format
        ensures JoinerAt(kept, i, LetterAt(value, n))
      {
        if i < |before| {
          assert kept[i] == before[i] && JoinerAt(before, i, LetterAt(value, n - 1));
        }
      }
    }
  }

  /** A word without white space whose format characters are joiners within it. */
  ghost predicate Word(u: Unicode, w: string) {
    w != [] && Clean(u, w) && forall i :: 0 <= i < |w| ==> w[i] !in u.blank
  }

  lemma {:induction false} WordsOf(u: Unicode, s: string)
    requires Tables(u) && Clean(u, s)
    ensures forall w :: w in Split(u, s) ==> Word(u, w)
    decreases |s|
  {
    if s != [] {
      if s[0] in u.blank {
        CleanAfterBlank(u, s, 1);
        WordsOf(u, s[1..]);
      } else {
        var n := Run(u, s);
        CleanRun(u, s, n);
        if n < |s| {
          CleanAfterBlank(u, s, n + 1);
          WordsOf(u, s[n + 1..]);
          assert s[n..][1..] == s[n + 1..];
          assert Split(u, s[n..]) == Split(u, s[n + 1..]);
        }
      }
    }
  }

  /** A joiner next to white space would not be between Arabic letters. */
  lemma CleanAfterBlank(u: Unicode, s: string, n: nat)
    requires Tables(u) && Clean(u, s) && 0 < n <= |s| && s[n - 1] in u.blank
    ensures Clean(u, s[n..])
  {
    forall i | 0 <= i < |s[n..]|
      ensures s[n..][i] != EMBEDDED_OBJECT && s[n..][i] !in u.control && (s[n..][i] in u.format ==> ArabicJoiner(s[n..], i))
    {
      assert s[n..][i] == s[n + i];
    }
  }

  lemma CleanRun(u: Unicode, s: string, n: nat)
    requires Tables(u) && Clean(u, s) && 0 < n <= |s| && (n < |s| ==> s[n] in u.blank)
    requires forall i :: 0 <= i < n ==> s[i] !in u.blank
    ensures Word(u, s[..n])
  {
    forall i | 0 <= i < n
      ensures s[..n][i] != EMBEDDED_OBJECT && s[..n][i] !in u.control && (s[..n][i] in u.format ==> ArabicJoiner(s[..n], i))
    {
      assert s[..n][i] == s[i];
    }
  }

  lemma {:induction false} JoinedIsNormal(u: Unicode, words: seq<string>)
    requires Tables(u) && forall w :: w in words ==> Word(u, w)
    ensures Normal(u, Join(words)) && (words != [] ==> Join(words) != [] && Join(words)[0] !in u.blank)
  {
    if |words| == 1 {
      assert words[0] in words;
    } else if words != [] {
      JoinedIsNormal(u, words[1..]);
      assert words[0] in words;
      JoinTwo(u, words[0], Join(words[1..]));
    }
  }

  lemma JoinTwo(u: Unicode, w: string, rest: string)
    requires Tables(u) && Word(u, w) && Normal(u, rest) && rest != [] && rest[0] !in u.blank
    ensures Normal(u, w + " " + rest)
  {
    var s := w + " " + rest;
    forall i | 0 <= i < |s|
      ensures s[i] != EMBEDDED_OBJECT && s[i] !in u.control && (s[i] in u.format ==> ArabicJoiner(s, i))
      ensures s[i] in u.blank ==> s[i] == ' ' && 0 < i < |s| - 1 && s[i - 1] !in u.blank && s[i + 1] !in u.blank
    {
      if i < |w| {
        assert s[i] == w[i];
      } else if i > |w| {
        assert s[i] == rest[i - |w| - 1];
      }
    }
  }

  lemma DisplayedIsNormal(u: Unicode, value: string)
    requires Tables(u)
    ensures Normal(u, Displayed(u, value))
  {
    var kept := Kept(u, value, |value|);
    KeptIsClean(u, value, |value|);
    assert Clean(u, kept) by {
      hide ArabicLetter;
      assert forall i :: 0 <= i < |kept| && kept[i] in u.format ==> JoinerAt(kept, i, false);
    }
    WordsOf(u, kept);
    JoinedIsNormal(u, Split(u, kept));
  }

  // ---------------------------------------------------------------- nothing visible is lost

  predicate Visible(u: Unicode, c: char) {
    c != EMBEDDED_OBJECT && c !in u.control && c !in u.format && c !in u.blank
  }

  /** The visible characters, in order. */
  function Ink(u: Unicode, s: string): string {
    if s == [] then "" else (if Visible(u, s[0]) then [s[0]] else "") + Ink(u, s[1..])
  }

  lemma {:induction false} InkAppend(u: Unicode, a: string, b: string)
    ensures Ink(u, a + b) == Ink(u, a) + Ink(u, b)
  {
    if a == [] {
      assert a + b == b;
    } else {
      assert (a + b)[1..] == a[1..] + b;
      InkAppend(u, a[1..], b);
    }
  }

  lemma {:induction false} KeptKeepsInk(u: Unicode, value: string, n: nat)
    requires Tables(u) && n <= |value|
    ensures Ink(u, Kept(u, value, n)) == Ink(u, value[..n])
  {
    if n > 0 {
      KeptKeepsInk(u, value, n - 1);
      var c := value[n - 1];
      InkAppend(u, Kept(u, value, n - 1), KeptOf(u, value, n - 1));
      InkAppend(u, value[..n - 1], [c]);
      assert value[..n] == value[..n - 1] + [c];
      assert [c][1..] == "" && " "[1..] == "" && !Visible(u, ' ');
    }
  }

  lemma {:induction false} WordsKeepInk(u: Unicode, s: string)
    requires Tables(u)
    ensures Ink(u, Join(Split(u, s))) == Ink(u, s)
    decreases |s|
  {
    if s != [] {
      if s[0] in u.blank {
        WordsKeepInk(u, s[1..]);
      } else {
        var n := Run(u, s);
        var rest := Split(u, s[n..]);
        WordsKeepInk(u, s[n..]);
        assert s == s[..n] + s[n..];
        InkAppend(u, s[..n], s[n..]);
        assert Split(u, s)[1..] == rest;
        if rest != [] {
          InkAppend(u, s[..n] + " ", Join(rest));
          InkAppend(u, s[..n], " ");
          assert Ink(u, " ") == Ink(u, " "[1..]) == "";
        }
      }
    }
  }

  /** Every visible character stays, in order, and none is added. */
  lemma DisplayedKeepsInk(u: Unicode, value: string)
    requires Tables(u)
    ensures Ink(u, Displayed(u, value)) == Ink(u, value)
  {
    KeptKeepsInk(u, value, |value|);
    assert value[..|value|] == value;
    WordsKeepInk(u, Kept(u, value, |value|));
  }

  // ---------------------------------------------------------------- what separates words

  /** White space, a control character or an embedded object. */
  predicate Separates(u: Unicode, c: char) {
    c == EMBEDDED_OBJECT || c in u.control || (c in u.blank && c !in u.format)
  }

  /** Two displayed texts next to each other. */
  function Beside(a: string, b: string): string {
    if a == "" then b else if b == "" then a else a + " " + b
  }

  /** A separator parts the text: its two sides are displayed on their own, one space between them. */
  lemma SeparatorsPart(u: Unicode, a: string, c: char, b: string)
    requires Tables(u) && Separates(u, c)
    ensures Displayed(u, a + [c] + b) == Beside(Displayed(u, a), Displayed(u, b))
  {
    var s, blank := a + [c] + b, KeptOf(u, a + [c] + b, |a|);
    assert s[|a|] == c;
    KeptBefore(u, a, c, b, |a|);
    KeptAfter(u, a, c, b, |b|);
    var x, y := Kept(u, a, |a|), Kept(u, b, |b|);
    assert Kept(u, s, |s|) == x + blank + y && |blank| == 1 && blank[0] in u.blank;
    assert blank == [blank[0]];
    SplitAtBlank(u, x, blank[0], y);
    WordsAreNotEmpty(u, x);
    WordsAreNotEmpty(u, y);
    JoinAppend(Split(u, x), Split(u, y));
  }

  lemma {:induction false} KeptBefore(u: Unicode, a: string, c: char, b: string, n: nat)
    requires Tables(u) && Separates(u, c) && n <= |a|
    ensures Kept(u, a + [c] + b, n) == Kept(u, a, n)
  {
    hide ArabicLetter;
    if n > 0 {
      KeptBefore(u, a, c, b, n - 1);
      var s := a + [c] + b;
      assert s[n - 1] == a[n - 1] && s[|a|] == c && !ArabicLetter(c);
      assert n < |a| ==> s[n] == a[n];
      assert n > 1 ==> s[n - 2] == a[n - 2];
    }
  }

  lemma NotALetter(u: Unicode, c: char)
    requires Tables(u) && Separates(u, c)
    ensures !ArabicLetter(c)
  {
    hide ArabicLetter;
  }

  lemma KeptOfAfter(u: Unicode, a: string, c: char, b: string, k: nat)
    requires Tables(u) && Separates(u, c) && k < |b|
    ensures KeptOf(u, a + [c] + b, |a| + 1 + k) == KeptOf(u, b, k)
  {
    NotALetter(u, c);
    hide ArabicLetter, Tables;
    var s, i := a + [c] + b, |a| + 1 + k;
    assert s[|a|] == c && s[i] == b[k];
    assert k > 0 ==> s[i - 1] == b[k - 1];
    assert k + 1 < |b| ==> s[i + 1] == b[k + 1];
  }

  lemma {:induction false} KeptAfter(u: Unicode, a: string, c: char, b: string, n: nat)
    requires Tables(u) && Separates(u, c) && n <= |b|
    ensures var s := a + [c] + b;
      Kept(u, s, |a| + 1 + n) == Kept(u, a, |a|) + KeptOf(u, s, |a|) + Kept(u, b, n)
  {
    hide ArabicLetter, Tables, KeptOf;
    var s := a + [c] + b;
    if n == 0 {
      KeptBefore(u, a, c, b, |a|);
    } else {
      KeptAfter(u, a, c, b, n - 1);
      KeptOfAfter(u, a, c, b, n - 1);
      Assoc(Kept(u, a, |a|) + KeptOf(u, s, |a|), Kept(u, b, n - 1), KeptOf(u, b, n - 1));
    }
  }

  lemma {:induction false} RunStops(u: Unicode, x: string, c: char, y: string)
    requires c in u.blank
    ensures Run(u, x + [c] + y) == Run(u, x)
  {
    if x != "" {
      assert (x + [c] + y)[1..] == x[1..] + [c] + y;
      RunStops(u, x[1..], c, y);
    }
  }

  lemma {:induction false} SplitAtBlank(u: Unicode, x: string, c: char, y: string)
    requires c in u.blank
    ensures Split(u, x + [c] + y) == Split(u, x) + Split(u, y)
    decreases |x|
  {
    var s := x + [c] + y;
    if x == "" {
      assert s[1..] == y;
    } else if x[0] in u.blank {
      assert s[1..] == x[1..] + [c] + y;
      SplitAtBlank(u, x[1..], c, y);
    } else {
      var n := Run(u, x);
      RunStops(u, x, c, y);
      assert s[..n] == x[..n] && s[n..] == x[n..] + [c] + y;
      SplitAtBlank(u, x[n..], c, y);
      Assoc([x[..n]], Split(u, x[n..]), Split(u, y));
    }
  }

  lemma {:induction false} WordsAreNotEmpty(u: Unicode, s: string)
    ensures forall w :: w in Split(u, s) ==> w != ""
    decreases |s|
  {
    if s != "" {
      WordsAreNotEmpty(u, if s[0] in u.blank then s[1..] else s[Run(u, s)..]);
    }
  }

  lemma {:induction false} JoinAppend(a: seq<string>, b: seq<string>)
    requires forall w :: w in a || w in b ==> w != ""
    ensures Join(a + b) == Beside(Join(a), Join(b))
    ensures (a == [] <==> Join(a) == "") && (b == [] <==> Join(b) == "")
  {
    if a == [] {
      assert a + b == b;
      assert b != [] ==> b[0] in b;
    } else {
      assert a[0] in a && (a + b)[1..] == a[1..] + b;
      assert forall w :: w in a[1..] ==> w in a;
      JoinAppend(a[1..], b);
      if |a| > 1 && b != [] {
        Assoc(a[0] + " ", Join(a[1..]) + " ", Join(b));
      }
    }
  }

  // ---------------------------------------------------------------- format characters

  /** A joiner at `k` between two Arabic letters. */
  ghost predicate Joins(s: string, k: int) {
    && 0 < k < |s| - 1 && s[k] == '\U{200C}' && ArabicLetter(s[k - 1]) && ArabicLetter(s[k + 1])
  }

  /** The text holds `part` somewhere. */
  ghost predicate Holds(s: string, part: string) {
    exists k :: 0 <= k <= |s| && HoldsAt(s, part, k)
  }

  predicate HoldsAt(s: string, part: string, k: nat)
    requires k <= |s|
  {
    part <= s[k..]
  }

  /** A joiner that is displayed joins two Arabic letters. */
  lemma JoinersJoin(u: Unicode, value: string, k: nat)
    requires Tables(u) && k < |Displayed(u, value)| && Displayed(u, value)[k] == '\U{200C}'
    ensures Joins(Displayed(u, value), k)
  {
    hide ArabicLetter, Displayed;
    DisplayedIsNormal(u, value);
  }

  /** A joiner between two Arabic letters is displayed, still between them. */
  lemma JoinersStay(u: Unicode, value: string, k: nat)
    requires Tables(u) && Joins(value, k)
    ensures Holds(Displayed(u, value), value[k - 1..k + 2])
  {
    hide Kept, Split, Join, Holds;
    var part := value[k - 1..k + 2];
    JoinerKept(u, value, k);
    KeptGrows(u, value, k + 2, |value|);
    var before := Kept(u, value, k - 1);
    var after := Kept(u, value, |value|)[|before + part|..];
    assert Kept(u, value, |value|) == before + part + after;
    WordStays(u, before, part, after);
  }

  lemma JoinerKept(u: Unicode, value: string, k: nat)
    requires Tables(u) && Joins(value, k)
    ensures Kept(u, value, k + 2) == Kept(u, value, k - 1) + value[k - 1..k + 2]
    ensures forall c :: c in value[k - 1..k + 2] ==> c !in u.blank
  {
    hide ArabicLetter;
    assert KeptOf(u, value, k - 1) == [value[k - 1]] && KeptOf(u, value, k) == [value[k]] && KeptOf(u, value, k + 1) == [value[k + 1]];
    assert value[k - 1..k + 2] == [value[k - 1]] + [value[k]] + [value[k + 1]];
    assert Kept(u, value, k) == Kept(u, value, k - 1) + [value[k - 1]];
    assert Kept(u, value, k + 1) == Kept(u, value, k) + [value[k]];
    assert Kept(u, value, k + 2) == Kept(u, value, k + 1) + [value[k + 1]];
  }

  lemma {:induction false} KeptGrows(u: Unicode, value: string, n: nat, m: nat)
    requires n <= m <= |value|
    ensures Kept(u, value, n) <= Kept(u, value, m)
  {
    hide KeptOf;
    if n < m {
      KeptGrows(u, value, n, m - 1);
    }
  }

  /** Characters without white space between them stay together. */
  lemma {:induction false} WordStays(u: Unicode, before: string, part: string, after: string)
    requires part != "" && forall c :: c in part ==> c !in u.blank
    ensures Holds(Join(Split(u, before + part + after)), part)
    decreases |before|
  {
    var s := before + part + after;
    var n := Run(u, s);
    if before != "" && before[0] in u.blank {
      assert s[1..] == before[1..] + part + after;
      WordStays(u, before[1..], part, after);
    } else if n < |before| {
      assert before[..n] == s[..n] && s[n..] == before[n..] + part + after && n > 0;
      WordStays(u, before[n..], part, after);
      FirstWord(s[..n], Split(u, s[n..]), part);
    } else {
      RunCovers(u, before, part, after);
      assert s[|before|..|before| + |part|] == part;
      InnerRange(s, 0, n, |before|, |before| + |part|);
      FirstHolds(s[..n], Split(u, s[n..]), part, |before|);
    }
  }

  lemma RunCovers(u: Unicode, before: string, part: string, after: string)
    requires part != "" && (forall c :: c in part ==> c !in u.blank) && (before == "" || before[0] !in u.blank)
    requires Run(u, before + part + after) >= |before|
    ensures Run(u, before + part + after) >= |before| + |part|
    ensures (before + part + after)[0] !in u.blank
  {
    var s, n := before + part + after, Run(u, before + part + after);
    forall j | |before| <= j < |before| + |part|
      ensures s[j] !in u.blank
    {
      assert s[j] == part[j - |before|] && part[j - |before|] in part;
    }
    assert before == "" ==> s[0] == part[0] && part[0] in part;
  }

  /** What the first word holds, the joined words hold. */
  lemma FirstHolds(word: string, rest: seq<string>, part: string, k: nat)
    requires k + |part| <= |word| && word[k..k + |part|] == part
    ensures Holds(Join([word] + rest), part)
  {
    var all := Join([word] + rest);
    assert ([word] + rest)[1..] == rest && word <= all;
    assert all[k..][..|part|] == word[k..k + |part|];
    assert HoldsAt(all, part, k);
  }

  lemma FirstWord(word: string, rest: seq<string>, part: string)
    requires Holds(Join(rest), part) && part != ""
    ensures Holds(Join([word] + rest), part)
  {
    var k :| 0 <= k <= |Join(rest)| && HoldsAt(Join(rest), part, k);
    assert rest != [] && ([word] + rest)[1..] == rest;
    var all, at := Join([word] + rest), |word| + 1 + k;
    assert all == word + " " + Join(rest);
    assert all[at..] == Join(rest)[k..];
    assert HoldsAt(all, part, at);
  }

  /** Any other format character goes without a trace; next to it no joiner may stand, which it would part from its letter. */
  lemma FormatVanishes(u: Unicode, a: string, c: char, b: string)
    requires Tables(u) && c in u.format && !Joins(a + [c] + b, |a|)
    requires (a != "" ==> a[|a| - 1] != '\U{200C}') && (b != "" ==> b[0] != '\U{200C}')
    ensures Displayed(u, a + [c] + b) == Displayed(u, a + b)
  {
    hide ArabicLetter, Split, Join;
    VanishBefore(u, a, c, b, |a|);
    VanishAfter(u, a, c, b, |b|);
    assert |a + [c] + b| == |a| + 1 + |b| && |a + b| == |a| + |b|;
  }

  lemma {:induction false} VanishBefore(u: Unicode, a: string, c: char, b: string, n: nat)
    requires (a != "" ==> a[|a| - 1] != '\U{200C}') && n <= |a|
    ensures Kept(u, a + [c] + b, n) == Kept(u, a + b, n)
  {
    hide ArabicLetter;
    if n > 0 {
      VanishBefore(u, a, c, b, n - 1);
      var s, t := a + [c] + b, a + b;
      assert s[n - 1] == t[n - 1] == a[n - 1];
      assert n < |a| ==> s[n] == t[n];
      assert n > 1 ==> s[n - 2] == t[n - 2];
      assert KeptOf(u, s, n - 1) == KeptOf(u, t, n - 1);
    }
  }

  lemma {:induction false} VanishAfter(u: Unicode, a: string, c: char, b: string, n: nat)
    requires Tables(u) && c in u.format && !Joins(a + [c] + b, |a|) && n <= |b|
    requires (a != "" ==> a[|a| - 1] != '\U{200C}') && (b != "" ==> b[0] != '\U{200C}')
    ensures Kept(u, a + [c] + b, |a| + 1 + n) == Kept(u, a + b, |a| + n)
  {
    hide ArabicLetter;
    var s, t := a + [c] + b, a + b;
    if n == 0 {
      VanishBefore(u, a, c, b, |a|);
      assert s[|a|] == c;
      assert KeptOf(u, s, |a|) == "";
    } else {
      VanishAfter(u, a, c, b, n - 1);
      assert s[|a| + n] == t[|a| + n - 1] == b[n - 1];
      assert n < |b| ==> s[|a| + n + 1] == t[|a| + n];
      assert n > 1 ==> s[|a| + n - 1] == t[|a| + n - 2];
      assert KeptOf(u, s, |a| + n) == KeptOf(u, t, |a| + n - 1);
    }
  }
}
