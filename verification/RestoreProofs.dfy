/**
 What one restore guarantees: against arbitrary later edits, at every crash point of an
 installation, over several installations, and exactly when a path was changed repeatedly.
 */
module RestoreProofs {
  import opened Common
  import opened Backup

  ghost predicate DistinctPaths(entries: seq<Entry>) {
    forall i, j :: 0 <= i < j < |entries| ==> entries[i].path != entries[j].path
  }

  lemma {:induction false} UntouchedPath(entries: seq<Entry>, copies: Copies, only: seq<string>, p: Path, now: Option<Node>)
    requires Complete(entries, copies) && forall e :: e in entries ==> e.path != p
    ensures UndoneAt(entries, copies, only, p, now) == (now, false)
  {
    if entries != [] {
      assert entries[|entries| - 1] in entries;
      UntouchedPath(entries[..|entries| - 1], copies, only, p, now);
    }
  }

  /** When each path was changed once, restoring looks at one entry for it. */
  lemma {:induction false} OneEntry(entries: seq<Entry>, copies: Copies, only: seq<string>, i: nat, now: Option<Node>)
    requires Complete(entries, copies) && DistinctPaths(entries) && i < |entries|
    ensures UndoneAt(entries, copies, only, entries[i].path, now)
      == if Selected(entries[i].path, only) then UndoneNode(now, entries[i], copies) else (now, false)
  {
    hide UndoneNode, Selected;
    var rest := entries[..|entries| - 1];
    if i == |entries| - 1 {
      forall e | e in rest
        ensures e.path != entries[i].path
      {
      }
      assert entries[i] in entries;
      if Selected(entries[i].path, only) {
        UntouchedPath(rest, copies, only, entries[i].path, UndoneNode(now, entries[i], copies).0);
      } else {
        UntouchedPath(rest, copies, only, entries[i].path, now);
      }
    } else {
      assert rest[i] == entries[i];
      OneEntry(rest, copies, only, i, now);
    }
  }

  /** The newest entry for a path. */
  function Named(entries: seq<Entry>, p: Path): (r: Option<Entry>)
    ensures r.Some? ==> r.value in entries && r.value.path == p
    ensures r.None? ==> forall e :: e in entries ==> e.path != p
  {
    if entries == [] then None
    else if entries[|entries| - 1].path == p then Some(entries[|entries| - 1])
    else Named(entries[..|entries| - 1], p)
  }

  /**
   Later edits: a path is modified only if it still is what the installation left, is reported
   exactly when it is neither that nor its original, and otherwise holds its original.
   */
  lemma LaterEditsSurvive(entries: seq<Entry>, copies: Copies, only: seq<string>, p: Path, now: Option<Node>)
    requires Complete(entries, copies) && DistinctPaths(entries)
    ensures var (after, reported) := UndoneAt(entries, copies, only, p, now);
      var named := Named(entries, p);
      if named.None? || !Selected(p, only) then after == now && !reported
      else
        && (after != now ==> LeftByInstallation(now, named.value) && after == Original(named.value, copies))
        && (reported <==> !LeftByInstallation(now, named.value) && !HoldsOriginal(now, named.value, copies))
        && (!reported ==> HoldsOriginal(after, named.value, copies))
  {
    var named := Named(entries, p);
    if named.Some? {
      var i :| 0 <= i < |entries| && entries[i] == named.value;
      OneEntry(entries, copies, only, i, now);
    } else {
      UntouchedPath(entries, copies, only, p, now);
    }
  }

  /** Restoring a second time changes nothing and reports the same paths. */
  lemma RestoreIsIdempotent(entries: seq<Entry>, copies: Copies, only: seq<string>, p: Path, now: Option<Node>)
    requires Complete(entries, copies) && DistinctPaths(entries)
    ensures var (after, reported) := UndoneAt(entries, copies, only, p, now);
      UndoneAt(entries, copies, only, p, after) == (after, reported)
  {
    var after := UndoneAt(entries, copies, only, p, now).0;
    if i :| 0 <= i < |entries| && entries[i].path == p {
      OneEntry(entries, copies, only, i, now);
      OneEntry(entries, copies, only, i, after);
      assert entries[i] in entries;
    } else {
      UntouchedPath(entries, copies, only, p, now);
    }
  }

  /** `--only` leaves every path outside the named ones alone and unreported. */
  lemma {:induction false} OnlySelectedPaths(entries: seq<Entry>, copies: Copies, only: seq<string>, p: Path, now: Option<Node>)
    requires Complete(entries, copies) && !Selected(p, only)
    ensures UndoneAt(entries, copies, only, p, now) == (now, false)
  {
    if entries != [] {
      OnlySelectedPaths(entries[..|entries| - 1], copies, only, p, now);
    }
  }

  /** Without the slashes it ends in, `item` is the path or the beginning of it up to some slash. */
  ghost predicate Names(item: string, p: Path) {
    exists n :: 0 <= n <= |item| && EndsSlashes(item, n) && (p == item[..n] || item[..n] + "/" <= p)
  }

  /** What `item` has from `n` on are all the slashes it ends in. */
  ghost predicate EndsSlashes(item: string, n: nat)
    requires n <= |item|
  {
    (forall k :: n <= k < |item| ==> item[k] == '/') && (n > 0 ==> item[n - 1] != '/')
  }

  lemma {:induction false} StrippedIs(item: string, n: nat)
    requires n <= |item|
    ensures EndsSlashes(item, n) <==> |WithoutSlashes(item)| == n
    ensures WithoutSlashes(item) <= item
  {
    if item != "" && item[|item| - 1] == '/' {
      var shorter := item[..|item| - 1];
      if n < |item| {
        StrippedIs(shorter, n);
        assert forall k :: 0 <= k < |shorter| ==> shorter[k] == item[k];
      } else {
        StrippedIs(shorter, 0);
      }
    }
  }

  lemma NamesIff(item: string, p: Path)
    ensures Below(p, WithoutSlashes(item)) <==> Names(item, p)
  {
    hide WithoutSlashes, EndsSlashes;
    var stem := WithoutSlashes(item);
    StrippedIs(item, 0);
    StrippedIs(item, |stem|);
    assert item[..|stem|] == stem;
    if n :| 0 <= n <= |item| && EndsSlashes(item, n) && (p == item[..n] || item[..n] + "/" <= p) {
      StrippedIs(item, n);
    }
  }

  lemma SelectedIff(p: Path, only: seq<string>)
    ensures Selected(p, only) <==> only == [] || exists i :: 0 <= i < |only| && Names(only[i], p)
  {
    hide WithoutSlashes, Names, Below;
    forall i | 0 <= i < |only|
      ensures Below(p, WithoutSlashes(only[i])) <==> Names(only[i], p)
    {
      NamesIff(only[i], p);
    }
  }

  /** What the selection names, or has below it, is undone as without a selection; every other path is left alone. */
  lemma SelectionDecides(entries: seq<Entry>, copies: Copies, only: seq<string>, p: Path, now: Option<Node>)
    requires Complete(entries, copies)
    ensures UndoneAt(entries, copies, only, p, now) ==
      if only == [] || exists i :: 0 <= i < |only| && Names(only[i], p) then UndoneAt(entries, copies, [], p, now) else (now, false)
  {
    SelectedIff(p, only);
    if Selected(p, only) {
      AllSelected(entries, copies, only, p, now);
    } else {
      OnlySelectedPaths(entries, copies, only, p, now);
    }
  }

  lemma {:induction false} AllSelected(entries: seq<Entry>, copies: Copies, only: seq<string>, p: Path, now: Option<Node>)
    requires Complete(entries, copies) && Selected(p, only)
    ensures UndoneAt(entries, copies, only, p, now) == UndoneAt(entries, copies, [], p, now)
  {
    hide UndoneNode;
    if entries != [] {
      var e, rest := entries[|entries| - 1], entries[..|entries| - 1];
      AllSelected(rest, copies, only, p, now);
      if e.path == p {
        AllSelected(rest, copies, only, p, UndoneNode(now, e, copies).0);
      }
    }
  }

  /** A restore cannot tell files of equal content apart. */
  lemma {:induction false} ContentDecides(entries: seq<Entry>, copies: Copies, only: seq<string>, p: Path,
                                          a: Option<Node>, b: Option<Node>)
    requires Complete(entries, copies) && SameContent(a, b)
    ensures var x, y := UndoneAt(entries, copies, only, p, a), UndoneAt(entries, copies, only, p, b);
      SameContent(x.0, y.0) && x.1 == y.1
  {
    if entries != [] {
      var e, rest := entries[|entries| - 1], entries[..|entries| - 1];
      if e.path != p || !Selected(p, only) {
        ContentDecides(rest, copies, only, p, a, b);
      } else {
        ContentDecides(rest, copies, only, p, UndoneNode(a, e, copies).0, UndoneNode(b, e, copies).0);
      }
    }
  }

  // ---------------------------------------------------------------- an installation as crash points

  /** Where the copy of an original ends up: in its own place, or where the link that is there leads. */
  datatype Place = OwnPlace | AmongFiles(path: Path) | AmongCopies(path: Path)

  /**
   What a run does to one path: new content, a link, or removal. The operating system decides where the
   copy of the original goes, if it lets it be written at all.
   */
  datatype Change = Change(path: Path, target: Option<Node>, place: Option<Place>)

  /** The files, the saved originals and the change map as they are on disk. */
  datatype Disk = Disk(files: Files, copies: Copies, entries: seq<Entry>)

  /** What is copied fits there: a file over nothing or a file, a link over nothing. */
  predicate Accepts(there: Option<Node>, node: Node) {
    there.None? || (there.value.File? && node.File?)
  }

  /**
   Copying what is at `p` can end at this place: its own, while nothing is copied there or a file goes over a
   file; a copy that is a link is followed, and stays. A link replaces nothing.
   */
  predicate Admits(d: Disk, p: Path, place: Place)
    requires p in d.files
  {
    var copy, node := At(d.copies, p), d.files[p];
    match place
    case OwnPlace => Accepts(copy, node)
    case AmongFiles(q) => copy.Some? && copy.value.Link? && q != p && Accepts(At(d.files, q), node)
    case AmongCopies(q) => copy.Some? && copy.value.Link? && q != p && Accepts(At(d.copies, q), node)
  }

  /** What is at `p`, if anything, can be saved. */
  predicate Savable(d: Disk, p: Path, place: Option<Place>) {
    p in d.files ==> place.Some? && Admits(d, p, place.value)
  }

  predicate Possible(d: Disk, c: Change) {
    && At(d.files, c.path) != Some(Other) && c.target != Some(Other)
    && (c.target.None? ==> c.path in d.files) && Savable(d, c.path, c.place)
  }

  function EntryFor(before: Option<Node>, c: Change): Entry {
    Entry(c.path, if c.target.None? then Remove else if before.Some? then Replace else Create, before.Some?,
          match c.target
          case Some(File(bytes, _)) => LeftBytes(bytes)
          case Some(Link(d)) => LeftLink(d)
          case _ => LeftNothing)
  }

  function WithNode(files: Files, p: Path, node: Option<Node>): Files {
    if node.Some? then files[p := node.value] else files - {p}
  }

  /** The original is saved before the map names it. */
  function Saved(d: Disk, c: Change): Disk {
    if c.path !in d.files then d
    else match c.place
      case None => d
      case Some(OwnPlace) => d.(copies := d.copies[c.path := d.files[c.path]])
      case Some(AmongFiles(q)) => d.(files := d.files[q := d.files[c.path]])
      case Some(AmongCopies(q)) => d.(copies := d.copies[q := d.files[c.path]])
  }

  /** The map names the change before the path changes. */
  function Stored(d: Disk, c: Change): Disk {
    Saved(d, c).(entries := d.entries + [EntryFor(At(d.files, c.path), c)])
  }

  function Changed(d: Disk, c: Change): Disk {
    Stored(d, c).(files := WithNode(Saved(d, c).files, c.path, c.target))
  }

  /** Every state the disk passes through on its way to the end of the run. */
  function Passed(d: Disk, run: seq<Change>): seq<Disk>
    decreases run
  {
    if run == [] then [] else [d, Saved(d, run[0]), Stored(d, run[0])] + Passed(Changed(d, run[0]), run[1..])
  }

  /** Every state in which the run can be interrupted. */
  function CrashPoints(d: Disk, run: seq<Change>): seq<Disk> {
    Passed(d, run) + [Finished(d, run)]
  }

  function Finished(d: Disk, run: seq<Change>): Disk
    decreases run
  {
    if run == [] then d else Finished(Changed(d, run[0]), run[1..])
  }

  ghost predicate PossibleRun(d: Disk, run: seq<Change>)
    decreases run
  {
    run == [] || (Possible(d, run[0]) && PossibleRun(Changed(d, run[0]), run[1..]))
  }

  /** Each path is changed once, and none lies below another. */
  ghost predicate DistinctChanges(run: seq<Change>) {
    forall i, j :: 0 <= i < j < |run| ==> !Below(run[i].path, run[j].path) && !Below(run[j].path, run[i].path)
  }

  /** No path that one of these changes lies below a path that another changes. */
  ghost predicate Apart(a: seq<Change>, b: seq<Change>) {
    forall c, e :: c in a && e in b && Below(c.path, e.path) ==> c.path == e.path
  }

  /** Every recorded path is original or as left, with its original saved; every other path is untouched. */
  ghost predicate Recoverable(d: Disk, origin: Files) {
    && DistinctPaths(d.entries) && Complete(d.entries, d.copies)
    && (forall p :: (forall e :: e in d.entries ==> e.path != p) ==> At(d.files, p) == At(origin, p))
    && forall e :: e in d.entries ==> RecoverableEntry(d, origin, e)
  }

  ghost predicate RecoverableEntry(d: Disk, origin: Files, e: Entry) {
    && e.saved == (e.path in origin)
    && (e.saved ==> e.path in d.copies && d.copies[e.path] == origin[e.path])
    && (At(d.files, e.path) == At(origin, e.path) || LeftByInstallation(At(d.files, e.path), e))
  }

  /** Nothing was recorded or saved for the path. */
  ghost predicate Fresh(d: Disk, p: Path) {
    p !in d.copies && forall e :: e in d.entries ==> e.path != p
  }

  lemma SavedStaysRecoverable(d: Disk, origin: Files, c: Change)
    requires Recoverable(d, origin) && Possible(d, c) && Fresh(d, c.path)
    ensures Recoverable(Saved(d, c), origin)
  {
    forall e | e in d.entries
      ensures RecoverableEntry(Saved(d, c), origin, e)
    {
      assert RecoverableEntry(d, origin, e);
    }
  }

  lemma StoredStaysRecoverable(d: Disk, origin: Files, c: Change)
    requires Recoverable(d, origin) && Possible(d, c) && Fresh(d, c.path)
    ensures Recoverable(Stored(d, c), origin)
  {
    SavedStaysRecoverable(d, origin, c);
    var next, e := Stored(d, c), EntryFor(At(d.files, c.path), c);
    assert At(d.files, c.path) == At(origin, c.path);
    forall x | x in next.entries
      ensures RecoverableEntry(next, origin, x)
      ensures x.saved ==> x.path in next.copies && !next.copies[x.path].Other?
    {
      if x != e {
        assert RecoverableEntry(Saved(d, c), origin, x);
      }
    }
    forall p | forall x :: x in next.entries ==> x.path != p
      ensures At(next.files, p) == At(origin, p)
    {
      assert forall x :: x in d.entries ==> x in next.entries;
    }
  }

  lemma ChangedStaysRecoverable(d: Disk, origin: Files, c: Change)
    requires Recoverable(d, origin) && Possible(d, c) && Fresh(d, c.path)
    ensures Recoverable(Changed(d, c), origin)
  {
    StoredStaysRecoverable(d, origin, c);
    var before, next, e := Stored(d, c), Changed(d, c), EntryFor(At(d.files, c.path), c);
    forall x | x in next.entries
      ensures RecoverableEntry(next, origin, x)
    {
      assert RecoverableEntry(before, origin, x);
      if x.path == c.path {
        assert x == e;
      }
    }
    forall p | forall x :: x in next.entries ==> x.path != p
      ensures At(next.files, p) == At(origin, p)
    {
      assert e in next.entries;
    }
  }

  lemma {:induction false} FinishedRecoverable(d: Disk, origin: Files, run: seq<Change>)
    requires Recoverable(d, origin) && PossibleRun(d, run) && DistinctChanges(run)
    requires forall i :: 0 <= i < |run| ==> Fresh(d, run[i].path)
    ensures Recoverable(Finished(d, run), origin)
    decreases run
  {
    hide Recoverable;
    if run != [] {
      ChangedStaysRecoverable(d, origin, run[0]);
      FinishedRecoverable(Changed(d, run[0]), origin, run[1..]);
    }
  }

  /** Every crash point of a run that changes each path once is recoverable. */
  lemma {:induction false} PassedRecoverable(d: Disk, origin: Files, run: seq<Change>, k: nat)
    requires Recoverable(d, origin) && PossibleRun(d, run) && DistinctChanges(run)
    requires forall i :: 0 <= i < |run| ==> Fresh(d, run[i].path)
    requires k < |Passed(d, run)|
    ensures Recoverable(Passed(d, run)[k], origin)
    decreases run
  {
    hide Recoverable;
    var c := run[0];
    SavedStaysRecoverable(d, origin, c);
    StoredStaysRecoverable(d, origin, c);
    ChangedStaysRecoverable(d, origin, c);
    if k >= 3 {
      PassedRecoverable(Changed(d, c), origin, run[1..], k - 3);
    }
  }

  /**
   Restoring a recoverable disk brings every path back and reports nothing. A path whose bytes never
   differed from its original keeps the mode the run gave it.
   */
  lemma RecoverableRestores(d: Disk, origin: Files, p: Path)
    requires Recoverable(d, origin)
    ensures Complete(d.entries, d.copies)
    ensures var (after, reported) := UndoneAt(d.entries, d.copies, [], p, At(d.files, p));
      && !reported && SameContent(after, At(origin, p))
      && after == if SameContent(At(d.files, p), At(origin, p)) then At(d.files, p) else At(origin, p)
  {
    if i :| 0 <= i < |d.entries| && d.entries[i].path == p {
      var e := d.entries[i];
      assert e in d.entries;
      assert RecoverableEntry(d, origin, e);
      OneEntry(d.entries, d.copies, [], i, At(d.files, p));
    } else {
      UntouchedPath(d.entries, d.copies, [], p, At(d.files, p));
    }
  }

  /** From any crash point of any run, restoring returns every path to its original and reports none. */
  lemma RestoreInvertsAtEveryCrash(files: Files, run: seq<Change>, k: nat, p: Path)
    requires var start := Disk(files, map[], []);
      PossibleRun(start, run) && DistinctChanges(run) && k < |CrashPoints(start, run)|
    ensures var crash := CrashPoints(Disk(files, map[], []), run)[k];
      && Complete(crash.entries, crash.copies)
      && var (after, reported) := UndoneAt(crash.entries, crash.copies, [], p, At(crash.files, p));
         !reported && SameContent(after, At(files, p))
  {
    var start := Disk(files, map[], []);
    if k < |Passed(start, run)| {
      PassedRecoverable(start, files, run, k);
    } else {
      FinishedRecoverable(start, files, run);
    }
    RecoverableRestores(CrashPoints(start, run)[k], files, p);
  }

  // ---------------------------------------------------------------- several installations

  /** Each run starts its own backup on the files the one before left. */
  function AfterRuns(files: Files, runs: seq<seq<Change>>): Files {
    if runs == [] then files
    else Finished(Disk(AfterRuns(files, runs[..|runs| - 1]), map[], []), runs[|runs| - 1]).files
  }

  ghost predicate PossibleRuns(files: Files, runs: seq<seq<Change>>) {
    runs == [] || (
      var earlier, last := runs[..|runs| - 1], runs[|runs| - 1];
      && PossibleRuns(files, earlier) && DistinctChanges(last)
      && (forall r :: r in earlier ==> Apart(r, last) && Apart(last, r))
      && PossibleRun(Disk(AfterRuns(files, earlier), map[], []), last))
  }

  /** The backup that the last of these runs leaves. */
  function LastBackup(files: Files, runs: seq<seq<Change>>): Disk
    requires runs != []
  {
    Finished(Disk(AfterRuns(files, runs[..|runs| - 1]), map[], []), runs[|runs| - 1])
  }

  lemma LastBackupComplete(files: Files, runs: seq<seq<Change>>)
    requires runs != [] && PossibleRuns(files, runs)
    ensures Recoverable(LastBackup(files, runs), AfterRuns(files, runs[..|runs| - 1]))
  {
    var before := AfterRuns(files, runs[..|runs| - 1]);
    FinishedRecoverable(Disk(before, map[], []), before, runs[|runs| - 1]);
  }

  /** One path after restoring every backup, newest first: its node and whether any restore reported it. */
  ghost function RestoredAll(files: Files, runs: seq<seq<Change>>, p: Path, now: Option<Node>): (Option<Node>, bool)
    requires PossibleRuns(files, runs)
    decreases |runs|
  {
    if runs == [] then (now, false)
    else
      LastBackupComplete(files, runs);
      var backup := LastBackup(files, runs);
      var (next, reported) := UndoneAt(backup.entries, backup.copies, [], p, now);
      var (last, again) := RestoredAll(files, runs[..|runs| - 1], p, next);
      (last, reported || again)
  }

  /** Restoring all backups newest first returns to the files before the first installation. */
  lemma {:induction false} NewestFirstReturnsToStart(files: Files, runs: seq<seq<Change>>, p: Path, now: Option<Node>)
    requires PossibleRuns(files, runs) && SameContent(now, At(AfterRuns(files, runs), p))
    ensures var (after, reported) := RestoredAll(files, runs, p, now);
      !reported && SameContent(after, At(files, p))
    decreases |runs|
  {
    if runs != [] {
      var backup, before := LastBackup(files, runs), AfterRuns(files, runs[..|runs| - 1]);
      LastBackupComplete(files, runs);
      RecoverableRestores(backup, before, p);
      ContentDecides(backup.entries, backup.copies, [], p, now, At(backup.files, p));
      NewestFirstReturnsToStart(files, runs[..|runs| - 1], p,
                                UndoneAt(backup.entries, backup.copies, [], p, now).0);
    }
  }
}
