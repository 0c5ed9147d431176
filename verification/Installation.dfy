/** The installer as an object whose history is the crash points of its run. */
module Installation {
  import opened Common
  import opened Backup
  import opened RestoreProofs

  datatype Problem = UnexpectedType | ExistingLink | NoSuchPath | Unsaved

  class Installation {
    var files: Files
    var copies: Copies
    var changes: seq<Entry>
    /** The targets of all writes so far, also of those that changed nothing. */
    var current: seq<Path>
    /** The changes made so far, and every state the disk went through. */
    ghost var run: seq<Change>
    ghost var past: seq<Disk>
    ghost const origin: Files

    /** The disk as it is now. */
    ghost function Now(): Disk
      reads this
    {
      Disk(files, copies, changes)
    }

    /** The object has done exactly the steps of its run, from the files it began with. */
    ghost predicate Valid()
      reads this
    {
      var start := Disk(origin, map[], []);
      PossibleRun(start, run) && Finished(start, run) == Now() && past == Passed(start, run)
    }

    constructor (initial: Files)
      ensures Valid() && run == [] && files == origin == initial && changes == [] && current == []
    {
      files, copies, changes, current := initial, map[], [], [];
      run, past, origin := [], [], initial;
      new;
      assert Now() == Disk(origin, map[], []);
    }

    /** Copy what is at the target over the copy that is there, or to where that one leads. */
    method Save(target: Path, place: Place)
      requires target in files && Admits(Now(), target, place)
      modifies this`files, this`copies
      ensures Disk(files, copies, old(changes)) == Saved(old(Now()), Change(target, None, Some(place)))
    {
      match place
      case OwnPlace => copies := copies[target := files[target]];
      case AmongFiles(q) => files := files[q := files[target]];
      case AmongCopies(q) => copies := copies[q := files[target]];
    }

    /** Save the original, then write the map, before the target changes; nothing is recorded that cannot be saved. */
    method Record(target: Path, action: Action, left: Left, place: Option<Place>) returns (done: bool)
      modifies this`files, this`copies, this`changes, this`past
      ensures done <==> Savable(old(Now()), target, place)
      ensures !done ==> unchanged(this)
      ensures done ==> Disk(files, copies, old(changes)) == Saved(old(Now()), Change(target, None, place))
      ensures done ==> changes == old(changes) + [Entry(target, action, target in old(files), left)]
      ensures done ==> past == old(past + [Now()]) + [Disk(files, copies, old(changes))]
    {
      if target in files && (place.None? || !Admits(Disk(files, copies, changes), target, place.value)) {
        return false;
      }
      var there := target in files;
      past := past + [Now()];
      if there {
        Save(target, place.value);
      }
      past := past + [Now()];
      changes := changes + [Entry(target, action, there, left)];
      return true;
    }

    /** Put `node` (or nothing) at the target, after the change is on record. */
    method Apply(target: Path, node: Option<Node>)
      modifies this`files, this`past
      ensures files == WithNode(old(files), target, node) && past == old(past + [Now()])
    {
      past := past + [Now()];
      files := WithNode(files, target, node);
    }

    /** One change, from saving the original to changing the target. */
    method Perform(target: Path, action: Action, left: Left, node: Option<Node>, place: Option<Place>) returns (done: bool)
      requires Valid() && At(files, target) != Some(Other) && node != Some(Other) && (node.None? ==> target in files)
      requires Entry(target, action, target in files, left) == EntryFor(At(files, target), Change(target, node, place))
      modifies this`files, this`copies, this`changes, this`past, this`run
      ensures Valid()
      ensures done <==> Savable(old(Now()), target, place)
      ensures if done then Made(Change(target, node, place)) else unchanged(this)
    {
      ghost var c := Change(target, node, place);
      done := Record(target, action, left, place);
      if done {
        Apply(target, node);
        RunExtends(Disk(origin, map[], []), run, c);
        assert past == old(past) + [old(Now()), Saved(old(Now()), c), Stored(old(Now()), c)];
        run := run + [c];
        assert Now() == Changed(old(Now()), c);
      }
    }

    /** The run is one change longer, and the disk is as that change leaves it. */
    twostate predicate Made(c: Change)
      reads this
    {
      run == old(run) + [c] && Now() == Changed(old(Now()), c)
    }

    /** The target holds `node`; no other path changed, unless the original's copy went there. */
    twostate predicate Puts(target: Path, node: Option<Node>, place: Option<Place>)
      reads this`files
    {
      && At(files, target) == node
      && forall q :: q != target && place != Some(AmongFiles(q)) ==> At(files, q) == At(old(files), q)
    }

    /** The error for a target that may not be replaced, or what is there now. */
    function Existing(target: Path, replaceLink: bool): Result<Option<Node>, Problem>
      reads this
    {
      match At(files, target)
      case None => Ok(None)
      case Some(Link(_)) => if replaceLink then Ok(At(files, target)) else Failed(ExistingLink)
      case Some(Other) => Failed(UnexpectedType)
      case Some(File(_, _)) => Ok(At(files, target))
    }

    /** What was at a target that must not be replaced: a link, unless that is allowed, or anything unexpected. */
    ghost predicate Forbidden(there: Option<Node>, replaceLink: bool, problem: Problem) {
      && there.Some?
      && ((there.value.Link? && !replaceLink && problem == ExistingLink) || (there.value.Other? && problem == UnexpectedType))
    }

    /**
     The target holds `data` afterwards, and the run is one change longer exactly when it did not before; its
     original is saved first, and when that fails nothing changes.
     */
    method Write(target: Path, data: string, mode: nat, replaceLink: bool, place: Option<Place>) returns (r: Result<bool, Problem>)
      requires Valid()
      modifies this
      ensures Valid()
      ensures forall problem :: problem != Unsaved ==>
        (r == Failed(problem) <==> Forbidden(At(old(files), target), replaceLink, problem))
      ensures var found, current := old(Existing(target, replaceLink)), At(old(files), target) == Some(File(data, mode));
        r == if found.Failed? then Failed(found.reason)
             else if current then Ok(false)
             else if Savable(old(Now()), target, place) then Ok(true) else Failed(Unsaved)
      ensures current == if old(Existing(target, replaceLink)).Failed? then old(current) else old(current) + [target]
      ensures r.Ok? ==> Puts(target, Some(File(data, mode)), if r.value then place else None)
      ensures if r == Ok(true) then Made(Change(target, Some(File(data, mode)), place)) else run == old(run) && Now() == old(Now())
    {
      var info := Existing(target, replaceLink);
      if info.Failed? {
        return Failed(info.reason);
      }
      current := current + [target];
      if info.value == Some(File(data, mode)) {
        return Ok(false);
      }
      var done := Perform(target, if info.value.Some? then Replace else Create, LeftBytes(data), Some(File(data, mode)), place);
      return if done then Ok(true) else Failed(Unsaved);
    }

    /** The target is the link afterwards, and the run is one change longer exactly when it was not before. */
    method MakeLink(target: Path, destination: string, replaceLink: bool, place: Option<Place>) returns (r: Result<bool, Problem>)
      requires Valid()
      modifies this`files, this`copies, this`changes, this`past, this`run
      ensures Valid()
      ensures forall problem :: problem != Unsaved ==>
        (r == Failed(problem) <==> Forbidden(At(old(files), target), replaceLink, problem) && At(old(files), target) != Some(Link(destination)))
      ensures var found, current := old(Existing(target, replaceLink)), At(old(files), target) == Some(Link(destination));
        r == if current then Ok(false)
             else if found.Failed? then Failed(found.reason)
             else if Savable(old(Now()), target, place) then Ok(true) else Failed(Unsaved)
      ensures r.Ok? ==> Puts(target, Some(Link(destination)), if r.value then place else None)
      ensures if r == Ok(true) then Made(Change(target, Some(Link(destination)), place)) else unchanged(this)
    {
      if At(files, target) == Some(Link(destination)) {
        return Ok(false);
      }
      var info := Existing(target, replaceLink);
      if info.Failed? {
        return Failed(info.reason);
      }
      var done := Perform(target, if info.value.Some? then Replace else Create, LeftLink(destination), Some(Link(destination)), place);
      return if done then Ok(true) else Failed(Unsaved);
    }

    /** The target goes, after what it was is saved. */
    method Delete(target: Path, place: Option<Place>) returns (r: Result<bool, Problem>)
      requires Valid()
      modifies this`files, this`copies, this`changes, this`past, this`run
      ensures Valid()
      ensures r == if target !in old(files) then Failed(NoSuchPath)
                   else if old(files)[target].Other? then Failed(UnexpectedType)
                   else if Savable(old(Now()), target, place) then Ok(true) else Failed(Unsaved)
      ensures r.Ok? ==> Puts(target, None, place)
      ensures if r.Ok? then Made(Change(target, None, place)) else unchanged(this)
    {
      if target !in files {
        return Failed(NoSuchPath);
      }
      if files[target].Other? {
        return Failed(UnexpectedType);
      }
      var done := Perform(target, Remove, LeftNothing, None, place);
      return if done then Ok(true) else Failed(Unsaved);
    }
  }

  /** With `past`, the current state is every state in which the run so far could be interrupted. */
  lemma ObjectAtCrashPoints(i: Installation)
    requires i.Valid()
    ensures i.past + [i.Now()] == CrashPoints(Disk(i.origin, map[], []), i.run)
  {
  }

  /** One more change passes through three more states. */
  lemma {:induction false} RunExtends(d: Disk, run: seq<Change>, c: Change)
    requires PossibleRun(d, run) && Possible(Finished(d, run), c)
    ensures PossibleRun(d, run + [c])
    ensures Finished(d, run + [c]) == Changed(Finished(d, run), c)
    ensures Passed(d, run + [c])
      == Passed(d, run) + [Finished(d, run), Saved(Finished(d, run), c), Stored(Finished(d, run), c)]
    decreases run
  {
    hide Changed, Stored, Saved, Possible;
    if run == [] {
      assert run + [c] == [c] && [c][1..] == [];
      assert PossibleRun(Changed(d, c), []);
    } else {
      assert (run + [c])[0] == run[0] && (run + [c])[1..] == run[1..] + [c];
      RunExtends(Changed(d, run[0]), run[1..], c);
    }
  }
}
