/** The renderer switch in a desktop entry's Exec lines (badi_install.py): one word each, and only once. */
module Launcher {
  import opened Common
  import opened Flags

  const EXEC := "Exec="

  /** The words of an Exec line that choose renderer accessibility. */
  predicate Choice(word: string) {
    Name(word) == Switch() || Name(word) == Disable()
  }

  predicate Chosen(words: seq<string>) {
    exists word :: word in words && Choice(word)
  }

  predicate Conflicting(words: seq<string>) {
    exists word :: word in words && Choice(word) && !Complete(word)
  }

  /** Past `env`'s assignments, from `k` on. */
  function AfterAssignments(words: seq<string>, k: nat): (r: nat)
    requires k <= |words|
    ensures k <= r <= |words|
    ensures forall i :: k <= i < r ==> '=' in words[i] && words[i][0] != '-'
    ensures r < |words| ==> '=' !in words[r] || words[r][0] == '-'
    decreases |words| - k
  {
    if k < |words| && '=' in words[k] && words[k][0] != '-' then AfterAssignments(words, k + 1) else k
  }

  function Program(words: seq<string>): nat
    requires words != []
  {
    if words[0] == "env" then AfterAssignments(words, 1) else 0
  }

  /** The words of an Exec line. */
  function WordsOf(line: string): seq<string>
    requires EXEC <= line
  {
    Split(line[|EXEC|..], ' ')
  }

  function Inserted(words: seq<string>, k: nat): seq<string>
    requires k < |words|
  {
    words[..k + 1] + [Flag()] + words[k + 1..]
  }

  /** What one line becomes. */
  function Edited(line: string): Result<string, Refusal> {
    if !(EXEC <= line) then Ok(line)
    else
      var words := WordsOf(line);
      if Conflicting(words) then Failed(Conflict)
      else if Chosen(words) then Ok(line)
      else
        var k := Program(words);
        if k >= |words| || words[k] == "" || words[k][0] == '"' then Failed(NoProgram)
        else Ok(EXEC + Join(Inserted(words, k), ' '))
  }

  /** What the lines become, unless one has to be inspected first. */
  function EditedLines(lines: seq<string>): Result<seq<string>, Refusal> {
    if lines == [] then Ok([])
    else
      var before, last := EditedLines(lines[..|lines| - 1]), Edited(lines[|lines| - 1]);
      if before.Failed? then before
      else if last.Failed? then Failed(last.reason)
      else Ok(before.value + [last.value])
  }

  /** The edited text, or nothing when no line changes. */
  function LauncherEdit(text: string): Result<Option<string>, Refusal> {
    var lines := Split(text, '\n');
    var edited := EditedLines(lines);
    if edited.Failed? then Failed(edited.reason)
    else Ok(if edited.value == lines then None else Some(Join(edited.value, '\n')))
  }

  method ObservedLauncher(text: string) returns (r: Result<Option<string>, Refusal>)
    ensures r == LauncherEdit(text)
  {
    hide Edited;
    var source := Split(text, '\n');
    var lines: seq<string>, changed := [], false;
    for i := 0 to |source|
      invariant EditedLines(source[..i]) == Ok(lines) && |lines| == i
      invariant changed <==> lines != source[..i]
    {
      var line := source[i];
      assert source[..i + 1][..i] == source[..i];
      var edited := ObservedLine(line);
      if edited.Failed? {
        PrefixFails(source, i + 1);
        return Failed(edited.reason);
      }
      if edited.value != line {
        changed := true;
      }
      assert source[..i + 1] == source[..i] + [line];
      lines := lines + [edited.value];
    }
    assert source[..|source|] == source;
    return Ok(if changed then Some(Join(lines, '\n')) else None);
  }

  method ObservedLine(line: string) returns (r: Result<string, Refusal>)
    ensures r == Edited(line)
  {
    hide Flag, Name, Switch, Disable, Split, Join, Complete;
    if !(EXEC <= line) {
      return Ok(line);
    }
    var words := Split(line[|EXEC|..], ' ');
    if exists word :: word in words && Choice(word) && !Complete(word) {
      return Failed(Conflict);
    }
    if exists word :: word in words && Choice(word) {
      return Ok(line);
    }
    var program := 0;
    if words[0] == "env" {
      program := 1;
      while program < |words| && '=' in words[program] && words[program][0] != '-'
        invariant 1 <= program <= |words|
        invariant AfterAssignments(words, program) == AfterAssignments(words, 1)
      {
        program := program + 1;
      }
    }
    if program >= |words| || words[program] == "" || words[program][0] == '"' {
      return Failed(NoProgram);
    }
    return Ok(EXEC + Join(words[..program + 1] + [Flag()] + words[program + 1..], ' '));
  }

  lemma {:induction false} PrefixFails(lines: seq<string>, n: nat)
    requires n <= |lines| && EditedLines(lines[..n]).Failed?
    ensures EditedLines(lines) == EditedLines(lines[..n])
    decreases |lines| - n
  {
    if n == |lines| {
      assert lines[..n] == lines;
    } else {
      assert lines[..n + 1][..n] == lines[..n];
      PrefixFails(lines, n + 1);
    }
  }

  // ---------------------------------------------------------------- what an edit means

  /** An Exec line got the flag as one more word, right after its program; any other line is as it was. */
  ghost predicate OneWordMore(line: string, now: string) {
    if !(EXEC <= line) || Chosen(WordsOf(line)) then now == line
    else
      var words := WordsOf(line);
      && Program(words) < |words| && EXEC <= now && WordsOf(now) == Inserted(words, Program(words))
  }

  /** No Exec line is left without a choice, and every choice is the complete mode. */
  ghost predicate Observed(line: string) {
    EXEC <= line ==> Chosen(WordsOf(line)) && !Conflicting(WordsOf(line))
  }

  lemma EditedMeans(line: string)
    requires Edited(line).Ok? && '\n' !in line
    ensures var now := Edited(line).value;
      OneWordMore(line, now) && Observed(now) && '\n' !in now && (now == line <==> Observed(line))
  {
    hide Flag, Name, Switch, Disable, Split, Join, Program, Complete;
    if EXEC <= line && !Chosen(WordsOf(line)) {
      var words := WordsOf(line);
      var k := Program(words);
      var more := Inserted(words, k);
      FlagIsOneWord();
      forall word | word in more
        ensures ' ' !in word && (Choice(word) ==> word == Flag())
      {
        assert word in words || word == Flag();
      }
      SplitJoin(more, ' ');
      var now := EXEC + Join(more, ' ');
      assert now[|EXEC|..] == Join(more, ' ');
      assert more[k + 1] == Flag() && Chosen(more);
      NoLineFeed(words, k, line);
    }
  }

  lemma FlagIsOneWord()
    ensures ' ' !in Flag() && '\n' !in Flag() && Choice(Flag()) && Complete(Flag())
  {
    hide Name, Flag, Switch, Disable;
    Literals();
  }

  lemma NoLineFeed(words: seq<string>, k: nat, line: string)
    requires EXEC <= line && words == WordsOf(line) && k < |words| && '\n' !in line
    ensures '\n' !in EXEC + Join(Inserted(words, k), ' ')
  {
    hide Flag, Switch, Disable, Name;
    FlagIsOneWord();
    forall word | word in words
      ensures '\n' !in word
    {
      PartInside(line[|EXEC|..], ' ', word);
    }
    JoinLacks(Inserted(words, k), ' ', '\n');
  }

  lemma {:induction false} PartInside(s: string, sep: char, part: string)
    requires part in Split(s, sep)
    ensures forall c :: c in part ==> c in s
    decreases |s|
  {
    var n := UpTo(s, sep);
    if n < |s| && part != s[..n] {
      PartInside(s[n + 1..], sep, part);
    }
  }

  lemma {:induction false} JoinLacks(parts: seq<string>, sep: char, c: char)
    requires c != sep && forall part :: part in parts ==> c !in part
    ensures c !in Join(parts, sep)
  {
    if |parts| >= 1 {
      assert parts[0] in parts;
      JoinLacks(parts[1..], sep, c);
    }
  }

  lemma {:induction false} EditedLinesAre(lines: seq<string>)
    requires EditedLines(lines).Ok?
    ensures var now := EditedLines(lines).value;
      |now| == |lines| && forall i :: 0 <= i < |lines| ==> Edited(lines[i]) == Ok(now[i])
  {
    if lines != [] {
      EditedLinesAre(lines[..|lines| - 1]);
    }
  }

  lemma {:induction false} ObservedStays(lines: seq<string>)
    requires forall i :: 0 <= i < |lines| ==> Edited(lines[i]) == Ok(lines[i])
    ensures EditedLines(lines) == Ok(lines)
  {
    if lines != [] {
      ObservedStays(lines[..|lines| - 1]);
      assert lines == lines[..|lines| - 1] + [lines[|lines| - 1]];
    }
  }

  /** An observed line is left alone. */
  lemma ObservedUnedited(line: string)
    requires Observed(line)
    ensures Edited(line) == Ok(line)
  {
  }

  /** An edit changes only Exec lines without the switch, each by one word, and a second one finds nothing to do. */
  lemma LauncherExtends(text: string)
    requires LauncherEdit(text).Ok? && LauncherEdit(text).value.Some?
    ensures var now := LauncherEdit(text).value.value;
      var before, after := Split(text, '\n'), Split(now, '\n');
      && |before| == |after| && text != now
      && (forall i :: 0 <= i < |before| ==> OneWordMore(before[i], after[i]) && Observed(after[i]))
      && LauncherEdit(now) == Ok(None)
  {
    hide OneWordMore, Observed, Edited, EditedLines;
    var before := Split(text, '\n');
    var after := EditedLines(before).value;
    EditedLinesAre(before);
    forall i | 0 <= i < |after|
      ensures OneWordMore(before[i], after[i]) && Observed(after[i]) && '\n' !in after[i] && Edited(after[i]) == Ok(after[i])
    {
      assert before[i] in before;
      EditedMeans(before[i]);
      ObservedUnedited(after[i]);
    }
    SplitJoin(after, '\n');
    ObservedStays(after);
  }

  /** Nothing is done exactly when every Exec line already has the complete mode and no other choice. */
  lemma NothingToDoIff(text: string)
    ensures LauncherEdit(text) == Ok(None) <==> forall line :: line in Split(text, '\n') ==> Observed(line)
  {
    hide OneWordMore, Observed, Edited, EditedLines;
    var lines := Split(text, '\n');
    if LauncherEdit(text) == Ok(None) {
      EditedLinesAre(lines);
      forall line | line in lines
        ensures Observed(line)
      {
        var i :| 0 <= i < |lines| && lines[i] == line;
        EditedMeans(line);
      }
    } else if forall line :: line in lines ==> Observed(line) {
      forall i | 0 <= i < |lines|
        ensures Edited(lines[i]) == Ok(lines[i])
      {
        assert lines[i] in lines;
        ObservedUnedited(lines[i]);
      }
      ObservedStays(lines);
    }
  }

  // ---------------------------------------------------------------- where the word goes

  /** A word of an Exec line that is not a renderer choice of any kind. */
  ghost predicate Neutral(words: seq<string>) {
    forall word :: word in words ==> ' ' !in word && !Chooses(word, Switch()) && !Chooses(word, Disable())
  }

  /** `env` and its assignments. */
  ghost predicate Environment(words: seq<string>) {
    words != [] && words[0] == "env" && forall i :: 1 <= i < |words| ==> '=' in words[i] && words[i][0] != '-'
  }

  /** The word that the assignments end before. */
  ghost predicate NoAssignment(word: string) {
    '=' !in word || word[0] == '-'
  }

  lemma {:induction false} AssignmentsEnd(front: seq<string>, program: string, rest: seq<string>, k: nat)
    requires Environment(front) && NoAssignment(program) && 1 <= k <= |front|
    ensures AfterAssignments(front + [program] + rest, k) == |front|
    decreases |front| - k
  {
    var words := front + [program] + rest;
    if k < |front| {
      assert words[k] == front[k];
      AssignmentsEnd(front, program, rest, k + 1);
    } else {
      assert words[k] == program;
    }
  }

  /** The flag goes right after the program, which is the first word or, after `env`, the first that assigns nothing. */
  lemma FlagFollowsProgram(front: seq<string>, program: string, rest: seq<string>)
    requires if front == [] then program != "env" else Environment(front) && NoAssignment(program)
    requires Neutral(front + [program] + rest)
    ensures Edited("Exec=" + Join(front + [program] + rest, ' ')) ==
      if program == "" || program[0] == '"' then Failed(NoProgram)
      else Ok("Exec=" + Join(front + [program, Flag()] + rest, ' '))
  {
    hide Flag, Switch, Disable, Join, Split, Chooses, Name;
    var words := front + [program] + rest;
    var line := "Exec=" + Join(words, ' ');
    assert line[|EXEC|..] == Join(words, ' ');
    SplitJoin(words, ' ');
    NeutralIsUnchosen(words);
    if front != [] {
      assert words[0] == front[0];
      AssignmentsEnd(front, program, rest, 1);
    } else {
      assert words[0] == program;
    }
    assert Program(words) == |front| && words[|front|] == program;
    assert words[..|front| + 1] + [Flag()] + words[|front| + 1..] == front + [program, Flag()] + rest;
  }

  lemma NeutralIsUnchosen(words: seq<string>)
    requires Neutral(words)
    ensures !Chosen(words) && !Conflicting(words)
  {
    hide Name, Chooses, Switch, Disable;
    SwitchesHaveNoValue();
    forall word | word in words
      ensures !Choice(word)
    {
      NameIs(word, Switch());
      NameIs(word, Disable());
    }
  }

  /** A line is refused for a choice other than the complete mode, whatever else it holds. */
  lemma OpposingLine(words: seq<string>)
    requires words != [] && forall word :: word in words ==> ' ' !in word
    ensures Edited("Exec=" + Join(words, ' ')) == Failed(Conflict) <==> exists word :: word in words && Opposes(word)
  {
    hide Flag, Switch, Disable, Join, Split, Chooses, Name, Program;
    var line := "Exec=" + Join(words, ' ');
    assert line[|EXEC|..] == Join(words, ' ');
    SplitJoin(words, ' ');
    SwitchesHaveNoValue();
    FlagIs();
    forall word | word in words
      ensures Choice(word) && !Complete(word) <==> Opposes(word)
    {
      NameIs(word, Switch());
      NameIs(word, Disable());
      if Complete(word) {
        CompleteIsNoDisable(word);
      }
    }
  }

  lemma CompleteIsNoDisable(word: string)
    requires Complete(word)
    ensures !Chooses(word, Disable())
  {
    hide Name, Flag, Switch, Disable;
    Literals();
    SwitchesHaveNoValue();
    NameIs(word, Disable());
    NameIs(word, Switch());
    FlagIs();
    assert Chooses(word, Switch()) by {
      assert Switch() + "=" <= Switch() + "=complete";
    }
  }
}
