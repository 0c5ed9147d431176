/**
 A backup keeps one saved copy for each path, and a copy that is a link is written through. This is
 exactly when restoring still inverts an installation that changed one path more than once.
 */
module RepeatedChanges {
  import opened Common
  import opened Backup
  import opened RestoreProofs

  /** One change of a path: what it held before and after. */
  datatype Step = Step(before: Option<Node>, after: Option<Node>)

  /** What a run does to `p` itself, in order. */
  function StepsOf(d: Disk, run: seq<Change>, p: Path): seq<Step>
    decreases run
  {
    if run == [] then []
    else (if run[0].path == p then [Step(At(d.files, p), run[0].target)] else []) + StepsOf(Changed(d, run[0]), run[1..], p)
  }

  /** What undoing a step puts back, or takes for the original if it is there already. */
  function PutBack(step: Step, copy: Option<Node>): Option<Node> {
    if step.before.Some? then copy else None
  }

  // ---------------------------------------------------------------- the condition

  /** What is there now is what the last of these steps left, or what undoing it would put back. */
  predicate Recognised(steps: seq<Step>, copy: Option<Node>, now: Option<Node>)
    requires steps != []
  {
    var last := steps[|steps| - 1];
    SameContent(now, last.after) || SameContent(now, PutBack(last, copy))
  }

  /** Undoing a step leaves what the step before it left, or what that one puts back. */
  ghost predicate Linked(steps: seq<Step>, copy: Option<Node>) {
    forall i, next :: 0 <= i < |steps| && next == i + 1 && next < |steps| ==>
      || SameContent(PutBack(steps[next], copy), steps[i].after)
      || SameContent(PutBack(steps[next], copy), PutBack(steps[i], copy))
  }

  /** Whatever a creation left and the next change saved is what the copy holds. */
  ghost predicate CreationsKept(steps: seq<Step>, copy: Option<Node>) {
    forall i, next :: 0 <= i < |steps| && next == i + 1 && next < |steps| && steps[i].before.None? && steps[next].before.Some? ==>
      SameContent(copy, steps[i].after)
  }

  /**
   The one saved copy serves: what is there now is recognised, whatever a creation left and a later change
   saved is what the copy holds, and so is the original, if there was one.
   */
  ghost predicate CopyServes(steps: seq<Step>, copy: Option<Node>, origin: Option<Node>, now: Option<Node>) {
    if steps == [] then SameContent(now, origin)
    else
      && Recognised(steps, copy, now)
      && CreationsKept(steps, copy)
      && SameContent(PutBack(steps[0], copy), origin)
  }

  // ---------------------------------------------------------------- undoing the steps

  /** The entry records this step. */
  ghost predicate Records(e: Entry, step: Step) {
    e.saved == step.before.Some? && forall now: Option<Node> :: LeftByInstallation(now, e) <==> SameContent(now, step.after)
  }

  /** The entries for `p` record these steps. */
  ghost predicate AllRecord(entries: seq<Entry>, p: Path, steps: seq<Step>) {
    if entries == [] then steps == []
    else
      var e, rest := entries[|entries| - 1], entries[..|entries| - 1];
      if e.path != p then AllRecord(rest, p, steps)
      else steps != [] && Records(e, steps[|steps| - 1]) && AllRecord(rest, p, steps[..|steps| - 1])
  }

  /** Undoing these entries gives back `origin` and reports nothing. */
  ghost predicate Returns(entries: seq<Entry>, copies: Copies, p: Path, origin: Option<Node>, now: Option<Node>)
    requires Complete(entries, copies)
  {
    var (after, reported) := UndoneAt(entries, copies, [], p, now);
    !reported && SameContent(after, origin)
  }

  lemma SameForAll(a: Option<Node>, b: Option<Node>)
    requires SameContent(a, b)
    ensures SameContent(b, a) && forall x :: SameContent(a, x) <==> SameContent(b, x)
  {
  }

  /** The last step undone: unreported exactly when the content is recognised, and then what it puts back is there. */
  lemma UndoneStep(e: Entry, copies: Copies, step: Step, now: Option<Node>)
    requires Records(e, step) && (e.saved ==> e.path in copies && !copies[e.path].Other?)
    ensures var (after, reported) := UndoneNode(now, e, copies);
      && (!reported <==> SameContent(now, step.after) || SameContent(now, PutBack(step, At(copies, e.path))))
      && (!reported ==> SameContent(after, PutBack(step, At(copies, e.path))))
  {
  }

  /** Undoing `p`'s entries from the newest on. */
  lemma {:induction false} UndoneIff(entries: seq<Entry>, copies: Copies, p: Path, steps: seq<Step>, origin: Option<Node>,
                                     now: Option<Node>)
    requires Complete(entries, copies) && AllRecord(entries, p, steps)
    ensures Returns(entries, copies, p, origin, now) <==>
      if steps == [] then SameContent(now, origin)
      else Recognised(steps, At(copies, p), now) && Linked(steps, At(copies, p))
           && SameContent(PutBack(steps[0], At(copies, p)), origin)
    decreases entries
  {
    hide UndoneNode, SameContent, Records, PutBack;
    if entries != [] {
      var e, rest, copy := entries[|entries| - 1], entries[..|entries| - 1], At(copies, p);
      assert e in entries;
      if e.path != p {
        UndoneIff(rest, copies, p, steps, origin, now);
      } else {
        var last, init := steps[|steps| - 1], steps[..|steps| - 1];
        UndoneStep(e, copies, last, now);
        var next := UndoneNode(now, e, copies).0;
        UndoneIff(rest, copies, p, init, origin, next);
        if !UndoneNode(now, e, copies).1 {
          SameForAll(next, PutBack(last, copy));
          LinkedInit(steps, copy);
        }
      }
    }
  }

  lemma LinkedInit(steps: seq<Step>, copy: Option<Node>)
    requires steps != []
    ensures var last, init := steps[|steps| - 1], steps[..|steps| - 1];
      Linked(steps, copy) <==> Linked(init, copy) && (init == [] || Recognised(init, copy, PutBack(last, copy)))
  {
    hide SameContent, PutBack;
    var init := steps[..|steps| - 1];
    if Linked(init, copy) && (init == [] || Recognised(init, copy, PutBack(steps[|steps| - 1], copy))) {
      forall i, next | 0 <= i < |steps| && next == i + 1 && next < |steps|
        ensures SameContent(PutBack(steps[next], copy), steps[i].after)
          || SameContent(PutBack(steps[next], copy), PutBack(steps[i], copy))
      {
        if next < |init| {
          assert init[i] == steps[i] && init[next] == steps[next];
        }
      }
    }
  }

  // ---------------------------------------------------------------- the steps of a real run

  /** The entries a run records. */
  function Recorded(d: Disk, run: seq<Change>): seq<Entry>
    decreases run
  {
    if run == [] then []
    else [EntryFor(At(d.files, run[0].path), run[0])] + Recorded(Changed(d, run[0]), run[1..])
  }

  lemma EntryRecords(before: Option<Node>, c: Change)
    requires c.target != Some(Other)
    ensures Records(EntryFor(before, c), Step(before, c.target))
  {
  }

  /** One more entry and its step at the front. */
  lemma {:induction false} RecordsFront(e: Entry, entries: seq<Entry>, p: Path, first: seq<Step>, steps: seq<Step>)
    requires AllRecord(entries, p, steps)
    requires if e.path == p then |first| == 1 && Records(e, first[0]) else first == []
    ensures AllRecord([e] + entries, p, first + steps)
    decreases entries
  {
    hide Records;
    var all, more := [e] + entries, first + steps;
    if entries == [] {
      assert all[..0] == [] && more == first;
      assert AllRecord([], p, []);
    } else {
      var last, rest := entries[|entries| - 1], entries[..|entries| - 1];
      assert all[|all| - 1] == last && all[..|all| - 1] == [e] + rest;
      if last.path != p {
        RecordsFront(e, rest, p, first, steps);
      } else {
        assert more[|more| - 1] == steps[|steps| - 1] && more[..|more| - 1] == first + steps[..|steps| - 1];
        RecordsFront(e, rest, p, first, steps[..|steps| - 1]);
      }
    }
  }

  lemma StepComplete(d: Disk, c: Change)
    requires Possible(d, c) && Complete(d.entries, d.copies)
    ensures Complete(Changed(d, c).entries, Changed(d, c).copies)
  {
  }

  lemma {:induction false} RunRecords(d: Disk, run: seq<Change>, p: Path)
    requires PossibleRun(d, run) && Complete(d.entries, d.copies)
    ensures Finished(d, run).entries == d.entries + Recorded(d, run) && |Recorded(d, run)| == |run|
    ensures Complete(Finished(d, run).entries, Finished(d, run).copies)
    ensures AllRecord(Recorded(d, run), p, StepsOf(d, run, p))
    decreases run
  {
    hide Changed, Records, Complete, EntryFor;
    if run != [] {
      var c, next := run[0], Changed(d, run[0]);
      var e := EntryFor(At(d.files, c.path), c);
      StepComplete(d, c);
      RunRecords(next, run[1..], p);
      EntryAdded(d, c);
      Assoc(d.entries, [e], Recorded(next, run[1..]));
      EntryRecords(At(d.files, c.path), c);
      RecordsFront(e, Recorded(next, run[1..]), p, if c.path == p then [Step(At(d.files, p), c.target)] else [],
                   StepsOf(next, run[1..], p));
    }
  }

  lemma EntryAdded(d: Disk, c: Change)
    ensures Changed(d, c).entries == d.entries + [EntryFor(At(d.files, c.path), c)]
    ensures EntryFor(At(d.files, c.path), c).path == c.path
  {
  }

  /** What a step left is there before the next one, perhaps rewritten; no other path's change takes it away. */
  lemma {:induction false} NextFinds(d: Disk, run: seq<Change>, p: Path)
    requires PossibleRun(d, run) && At(d.files, p).Some? && StepsOf(d, run, p) != []
    ensures StepsOf(d, run, p)[0].before.Some?
    decreases run
  {
    if run[0].path != p {
      NextFinds(Changed(d, run[0]), run[1..], p);
    }
  }

  lemma {:induction false} StepsMeet(d: Disk, run: seq<Change>, p: Path, i: nat, next: nat)
    requires PossibleRun(d, run) && next == i + 1 < |StepsOf(d, run, p)| && StepsOf(d, run, p)[i].after.Some?
    ensures StepsOf(d, run, p)[next].before.Some?
    decreases run
  {
    hide Possible;
    var later := Changed(d, run[0]);
    if run[0].path != p {
      StepsMeet(later, run[1..], p, i, next);
    } else if i > 0 {
      StepsMeet(later, run[1..], p, i - 1, next - 1);
    } else {
      NextFinds(later, run[1..], p);
    }
  }

  /** Every saved change has the copy. */
  lemma {:induction false} SavedHasCopy(entries: seq<Entry>, copies: Copies, p: Path, steps: seq<Step>, i: nat)
    requires Complete(entries, copies) && AllRecord(entries, p, steps) && i < |steps| && steps[i].before.Some?
    ensures p in copies
    decreases entries
  {
    var e, rest := entries[|entries| - 1], entries[..|entries| - 1];
    assert e in entries;
    if e.path != p {
      SavedHasCopy(rest, copies, p, steps, i);
    } else if i < |steps| - 1 {
      SavedHasCopy(rest, copies, p, steps[..|steps| - 1], i);
    }
  }

  lemma SameAsItself(a: Option<Node>)
    ensures SameContent(a, a)
  {
  }

  /** Undoing a change that saved something needs the copy to be what a creation before it left; the rest follows. */
  lemma RealStepsLinked(d: Disk, run: seq<Change>, p: Path, copy: Option<Node>)
    requires PossibleRun(d, run)
    requires forall i :: 0 <= i < |StepsOf(d, run, p)| && StepsOf(d, run, p)[i].before.Some? ==> copy.Some?
    ensures var steps := StepsOf(d, run, p);
      Linked(steps, copy) <==> CreationsKept(steps, copy)
  {
    hide StepsOf, PossibleRun;
    var steps := StepsOf(d, run, p);
    forall i: nat, next: nat | next == i + 1 && next < |steps|
      ensures steps[next].before.Some? || steps[i].after.None?
    {
      if steps[i].after.Some? {
        StepsMeet(d, run, p, i, next);
      }
    }
    SameAsItself(copy);
  }

  /**
   After any run, however often it changed each path, restoring brings `p` back and does not report it
   exactly when the one saved copy of `p` serves for every version it has to stand for.
   */
  lemma RestoreInvertsIff(files: Files, run: seq<Change>, p: Path)
    requires PossibleRun(Disk(files, map[], []), run) && Apart(run, run)
    ensures var start := Disk(files, map[], []); var d := Finished(start, run);
      && |d.entries| == |run| && Complete(d.entries, d.copies)
      && var (after, reported) := UndoneAt(d.entries, d.copies, [], p, At(d.files, p));
         (!reported && SameContent(after, At(files, p))) <==>
           CopyServes(StepsOf(start, run, p), At(d.copies, p), At(files, p), At(d.files, p))
  {
    hide SameContent, AllRecord, PutBack, StepsOf;
    var start := Disk(files, map[], []);
    var d, steps := Finished(start, run), StepsOf(start, run, p);
    RunRecords(start, run, p);
    assert d.entries == Recorded(start, run);
    UndoneIff(d.entries, d.copies, p, steps, At(files, p), At(d.files, p));
    forall i | 0 <= i < |steps| && steps[i].before.Some?
      ensures p in d.copies
    {
      SavedHasCopy(d.entries, d.copies, p, steps, i);
    }
    RealStepsLinked(start, run, p, At(d.copies, p));
  }

  // ---------------------------------------------------------------- a path that no other path's copy reaches

  /** Copying originals ends neither at `p` nor at its copy, unless it is `p`'s own. */
  ghost predicate Undisturbed(run: seq<Change>, p: Path) {
    forall c :: c in run ==> c.place != Some(AmongFiles(p)) && c.place != Some(AmongCopies(p))
  }

  /** The copy after these steps: the last version that was saved, but a link, once saved, stays. */
  function KeptCopy(copy: Option<Node>, steps: seq<Step>): Option<Node>
    decreases steps
  {
    if steps == [] then copy
    else if steps[0].before.None? || (copy.Some? && copy.value.Link?) then KeptCopy(copy, steps[1..])
    else KeptCopy(steps[0].before, steps[1..])
  }

  lemma UndisturbedStep(d: Disk, c: Change, p: Path)
    requires Possible(d, c) && Undisturbed([c], p)
    ensures var next := Changed(d, c);
      && At(next.files, p) == (if c.path == p then c.target else At(d.files, p))
      && At(next.copies, p) == (if c.path == p then KeptCopy(At(d.copies, p), [Step(At(d.files, p), c.target)]) else At(d.copies, p))
  {
    assert c in [c];
  }

  lemma {:induction false} UndisturbedEnds(d: Disk, run: seq<Change>, p: Path)
    requires PossibleRun(d, run) && Undisturbed(run, p)
    ensures var steps, end := StepsOf(d, run, p), Finished(d, run);
      && At(end.files, p) == (if steps == [] then At(d.files, p) else steps[|steps| - 1].after)
      && At(end.copies, p) == KeptCopy(At(d.copies, p), steps)
      && (steps != [] ==> steps[0].before == At(d.files, p))
    decreases run
  {
    hide Changed, Possible, KeptCopy;
    NothingKept(At(d.copies, p));
    if run != [] {
      var c, next := run[0], Changed(d, run[0]);
      var rest, step := StepsOf(next, run[1..], p), Step(At(d.files, p), c.target);
      UndisturbedEnds(next, run[1..], p);
      UndisturbedStep(d, c, p);
      if c.path == p {
        assert StepsOf(d, run, p) == [step] + rest;
        KeptFirst(At(d.copies, p), step, rest);
      } else {
        assert StepsOf(d, run, p) == rest;
      }
    }
  }

  lemma NothingKept(copy: Option<Node>)
    ensures KeptCopy(copy, []) == copy
  {
  }

  lemma KeptFirst(copy: Option<Node>, step: Step, rest: seq<Step>)
    ensures KeptCopy(copy, [step] + rest) == KeptCopy(KeptCopy(copy, [step]), rest)
  {
    assert ([step] + rest)[1..] == rest;
  }

  /**
   For a path that no other path's copy reaches, what was changed decides: the version that the copy keeps is
   the original, if there was one, and whatever a creation left and a later change saved.
   */
  lemma UndisturbedInvertsIff(files: Files, run: seq<Change>, p: Path)
    requires PossibleRun(Disk(files, map[], []), run) && Apart(run, run) && Undisturbed(run, p)
    ensures var start := Disk(files, map[], []); var d, steps := Finished(start, run), StepsOf(start, run, p);
      && Complete(d.entries, d.copies)
      && var (after, reported) := UndoneAt(d.entries, d.copies, [], p, At(d.files, p));
         (!reported && SameContent(after, At(files, p))) <==>
           && (steps != [] && At(files, p).Some? ==> SameContent(KeptCopy(None, steps), At(files, p)))
           && CreationsKept(steps, KeptCopy(None, steps))
  {
    hide StepsOf, UndoneAt, KeptCopy;
    RestoreInvertsIff(files, run, p);
    UndisturbedEnds(Disk(files, map[], []), run, p);
    SameAsItself(At(Finished(Disk(files, map[], []), run).files, p));
  }

  // ---------------------------------------------------------------- runs that lose something

  /** Writing one file twice in a run is enough to lose its original. */
  lemma SecondWriteLosesOriginal()
    ensures var files: Files := map["f" := File("old", 0)];
      var run := [Change("f", Some(File("a", 0)), Some(OwnPlace)), Change("f", Some(File("b", 0)), Some(OwnPlace))];
      var d := Finished(Disk(files, map[], []), run);
      && PossibleRun(Disk(files, map[], []), run)
      && Complete(d.entries, d.copies)
      && UndoneAt(d.entries, d.copies, [], "f", At(d.files, "f")) == (Some(File("a", 0)), false)
  {
    var files: Files := map["f" := File("old", 0)];
    var one, two := Change("f", Some(File("a", 0)), Some(OwnPlace)), Change("f", Some(File("b", 0)), Some(OwnPlace));
    var d0 := Disk(files, map[], []);
    var d2 := TwoChanges(d0, one, two);
    var e1, e2 := EntryFor(At(files, "f"), one), EntryFor(At(Changed(d0, one).files, "f"), two);
    assert d2.entries == [e1, e2];
    assert d2.copies == map["f" := File("a", 0)];
    TwoEntries(e1, e2, d2.copies, "f", At(d2.files, "f"));
  }

  /**
   Writing twice where a link was is enough to lose what the link led to: the second save goes through the
   saved link, and nothing records the file it overwrites. The link itself comes back.
   */
  lemma SecondWriteOverwritesLinked()
    ensures var files: Files := map["f" := Link("/d"), "/d" := File("old", 0)];
      var run := [Change("f", Some(File("a", 0)), Some(OwnPlace)), Change("f", Some(File("b", 0)), Some(AmongFiles("/d")))];
      var d := Finished(Disk(files, map[], []), run);
      && PossibleRun(Disk(files, map[], []), run)
      && Complete(d.entries, d.copies)
      && UndoneAt(d.entries, d.copies, [], "f", At(d.files, "f")) == (Some(Link("/d")), false)
      && UndoneAt(d.entries, d.copies, [], "/d", At(d.files, "/d")) == (Some(File("a", 0)), false)
  {
    var files: Files := map["f" := Link("/d"), "/d" := File("old", 0)];
    var one := Change("f", Some(File("a", 0)), Some(OwnPlace));
    var two := Change("f", Some(File("b", 0)), Some(AmongFiles("/d")));
    var d0 := Disk(files, map[], []);
    var d2 := TwoChanges(d0, one, two);
    var e1, e2 := EntryFor(At(files, "f"), one), EntryFor(At(Changed(d0, one).files, "f"), two);
    assert d2.entries == [e1, e2];
    assert d2.copies == map["f" := Link("/d")];
    TwoEntries(e1, e2, d2.copies, "f", At(d2.files, "f"));
    TwoEntries(e1, e2, d2.copies, "/d", At(d2.files, "/d"));
  }

  /** Through a relative link the second save can overwrite another path's saved copy, and with it that path's original. */
  lemma SecondWriteOverwritesCopy()
    ensures var files: Files := map["f" := Link("g"), "g" := File("old", 0)];
      var run := [Change("g", Some(File("new", 0)), Some(OwnPlace)), Change("f", Some(File("a", 0)), Some(OwnPlace)),
                  Change("f", Some(File("b", 0)), Some(AmongCopies("g")))];
      var d := Finished(Disk(files, map[], []), run);
      PossibleRun(Disk(files, map[], []), run) && d.copies == map["f" := Link("g"), "g" := File("a", 0)]
  {
    var files: Files := map["f" := Link("g"), "g" := File("old", 0)];
    var first := Change("g", Some(File("new", 0)), Some(OwnPlace));
    var one, two := Change("f", Some(File("a", 0)), Some(OwnPlace)), Change("f", Some(File("b", 0)), Some(AmongCopies("g")));
    var d0 := Disk(files, map[], []);
    var d1 := Changed(d0, first);
    assert d1.copies == map["g" := File("old", 0)] && d1.files["f"] == Link("g");
    var d2 := TwoChanges(d1, one, two);
    var run := [first, one, two];
    assert run[1..] == [one, two];
    assert Finished(d0, run) == d2;
  }

  /** A link that replaced a file cannot be saved in the same run, whatever the operating system answers. */
  lemma LinkOverCopyRefused(node: Option<Node>, place: Option<Place>)
    ensures var start := Disk(map["f" := File("old", 0)], map[], []);
      var first := Change("f", Some(Link("/d")), Some(OwnPlace));
      PossibleRun(start, [first]) && !Possible(Finished(start, [first]), Change("f", node, place))
  {
    var start := Disk(map["f" := File("old", 0)], map[], []);
    var first := Change("f", Some(Link("/d")), Some(OwnPlace));
    var d := Changed(start, first);
    assert [first][1..] == [] && PossibleRun(d, []) && Finished(d, []) == d;
    assert At(d.copies, "f") == Some(File("old", 0)) && d.files["f"] == Link("/d");
  }

  lemma TwoChanges(d: Disk, one: Change, two: Change) returns (end: Disk)
    requires Possible(d, one) && Possible(Changed(d, one), two)
    ensures PossibleRun(d, [one, two]) && end == Finished(d, [one, two]) == Changed(Changed(d, one), two)
  {
    hide Changed, Possible;
    end := Changed(Changed(d, one), two);
    assert [one, two][1..] == [two] && [two][1..] == [];
    assert PossibleRun(end, []) && PossibleRun(Changed(d, one), [two]);
    assert Finished(Changed(d, one), [two]) == Finished(end, []) == end;
  }

  lemma TwoEntries(e1: Entry, e2: Entry, copies: Copies, p: Path, now: Option<Node>)
    requires Complete([e1, e2], copies)
    ensures e1 in [e1, e2] && e2 in [e1, e2]
    ensures e1.path == p == e2.path ==>
      var (next, reported) := UndoneNode(now, e2, copies);
      var (last, again) := UndoneNode(next, e1, copies);
      UndoneAt([e1, e2], copies, [], p, now) == (last, reported || again)
    ensures e1.path != p && e2.path != p ==> UndoneAt([e1, e2], copies, [], p, now) == (now, false)
  {
    hide UndoneNode;
    assert e1 in [e1, e2] && e2 in [e1, e2];
    assert [e1, e2][..1] == [e1] && [e1][..0] == [];
    var next := if e2.path == p then UndoneNode(now, e2, copies).0 else now;
    assert UndoneAt([], copies, [], p, next) == (next, false);
    if e1.path == p {
      var last := UndoneNode(next, e1, copies);
      assert UndoneAt([], copies, [], p, last.0) == (last.0, false);
      assert UndoneAt([e1], copies, [], p, next) == last;
    } else {
      assert UndoneAt([e1], copies, [], p, next) == (next, false);
    }
  }
}
