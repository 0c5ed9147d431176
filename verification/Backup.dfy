/**
 One installation backup: the saved originals, the change map, and undoing it. Contents are
 compared as bytes, links by destination; a file's mode is kept but never compared.
 */
module Backup {
  import opened Common

  type Path = string

  /** What a path can hold; Other is anything an installer refuses to replace. */
  datatype Node = File(bytes: string, mode: nat) | Link(destination: string) | Other

  type Files = map<Path, Node>

  function At(files: Files, p: Path): Option<Node> {
    if p in files then Some(files[p]) else None
  }

  /** The same bytes, the same link or both absent. */
  predicate SameContent(a: Option<Node>, b: Option<Node>) {
    match (a, b)
    case (None, None) => true
    case (Some(File(x, _)), Some(File(y, _))) => x == y
    case (Some(Link(x)), Some(Link(y))) => x == y
    case (Some(Other), Some(Other)) => true
    case _ => false
  }

  datatype Action = Create | Replace | Remove

  /** What a change left at its path. */
  datatype Left = LeftBytes(bytes: string) | LeftLink(destination: string) | LeftNothing

  /** One recorded change; a saved original is kept under the path itself, one per backup. */
  datatype Entry = Entry(path: Path, action: Action, saved: bool, left: Left)

  type Copies = map<Path, Node>

  ghost predicate Complete(entries: seq<Entry>, copies: Copies) {
    forall e :: e in entries && e.saved ==> e.path in copies && !copies[e.path].Other?
  }

  // ---------------------------------------------------------------- undoing one change

  /** The path has the content of the entry's saved copy; for an entry without a copy, nothing is there. */
  predicate HoldsOriginal(now: Option<Node>, e: Entry, copies: Copies)
    requires e.saved ==> e.path in copies
  {
    if !e.saved then now.None?
    else match copies[e.path]
      case Link(d) => now == Some(Link(d))
      case File(bytes, _) => now.Some? && now.value.File? && now.value.bytes == bytes
      case Other => false
  }

  /** Whether the path still is exactly what the installation left there. */
  predicate LeftByInstallation(now: Option<Node>, e: Entry) {
    if e.action == Remove then now.None?
    else match e.left
      case LeftLink(d) => now == Some(Link(d))
      case LeftBytes(bytes) => now.Some? && now.value.File? && now.value.bytes == bytes
      case LeftNothing => false
  }

  function Original(e: Entry, copies: Copies): Option<Node>
    requires e.saved ==> e.path in copies
  {
    if e.saved then Some(copies[e.path]) else None
  }

  /** The path after undoing `e`, and whether it is reported as changed since. */
  function UndoneNode(now: Option<Node>, e: Entry, copies: Copies): (Option<Node>, bool)
    requires e.saved ==> e.path in copies
  {
    if HoldsOriginal(now, e, copies) then (now, false)
    else if !LeftByInstallation(now, e) then (now, true)
    else (Original(e, copies), false)
  }

  // ---------------------------------------------------------------- which paths

  /** `s` without trailing slashes. */
  function WithoutSlashes(s: string): string {
    if s != "" && s[|s| - 1] == '/' then WithoutSlashes(s[..|s| - 1]) else s
  }

  /** Whether `only` is empty or names the path or a directory above it. */
  predicate Selected(p: Path, only: seq<string>) {
    only == [] || exists i :: 0 <= i < |only| && Below(p, WithoutSlashes(only[i]))
  }

  predicate Below(p: Path, prefix: string) {
    p == prefix || prefix + "/" <= p
  }

  // ---------------------------------------------------------------- undoing a backup

  /** One path through all entries, newest first: what it holds in the end, and whether it was reported. */
  function UndoneAt(entries: seq<Entry>, copies: Copies, only: seq<string>, p: Path, now: Option<Node>)
    : (Option<Node>, bool)
    requires Complete(entries, copies)
  {
    if entries == [] then (now, false)
    else
      var e, rest := entries[|entries| - 1], entries[..|entries| - 1];
      if e.path != p || !Selected(p, only) then UndoneAt(rest, copies, only, p, now)
      else
        var (next, reported) := UndoneNode(now, e, copies);
        var (last, again) := UndoneAt(rest, copies, only, p, next);
        (last, reported || again)
  }

  /** The files a restore works on. */
  class Home {
    var files: Files

    constructor (initial: Files)
      ensures files == initial
    {
      files := initial;
    }

    /**
     Undo a backup's changes, newest first; the paths left unrestored are returned. Every path ends
     as its own entries, taken alone, leave it.
     */
    method Restore(entries: seq<Entry>, copies: Copies, only: seq<string>) returns (changed: seq<Path>)
      requires Complete(entries, copies)
      modifies this
      ensures forall p :: At(files, p) == UndoneAt(entries, copies, only, p, At(old(files), p)).0
      ensures forall p :: p in changed <==> UndoneAt(entries, copies, only, p, At(old(files), p)).1
    {
      hide HoldsOriginal, LeftByInstallation, Selected;
      changed := [];
      var n := |entries|;
      assert entries[..n] == entries;
      while n > 0
        invariant n <= |entries|
        invariant forall p :: (
          var whole := UndoneAt(entries, copies, only, p, At(old(files), p));
          var left := UndoneAt(entries[..n], copies, only, p, At(files, p));
          whole == (left.0, p in changed || left.1))
      {
        n := n - 1;
        var e := entries[n];
        assert entries[..n + 1][..n] == entries[..n] && e in entries;
        if Selected(e.path, only) {
          var now := At(files, e.path);
          if !HoldsOriginal(now, e, copies) {
            if !LeftByInstallation(now, e) {
              changed := changed + [e.path];
            } else if !e.saved {
              files := files - {e.path};
            } else {
              files := files[e.path := copies[e.path]];
            }
          }
        }
      }
    }
  }
}
