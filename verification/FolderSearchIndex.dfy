/** The filename index of a folder session: a temporary file that a builder goroutine fills while
    requests read it. `internal/app/folder_search.go`. */
module FolderSearchIndex {
  import opened Wrappers

  /** The fields of the index that decide about its files. A temporary file goes by a number, as its
      name is fresh; `cancel` names the builder whose context the stored cancel function ends. */
  datatype Index = Index(rootKey: string, path: Option<nat>, complete: bool, building: bool, failed: bool,
                         cancel: Option<nat>, readers: nat, retired: seq<nat>)

  // ------------------------------------------------------ the locked sections, as functions of the index

  /** What becomes of a path the index no longer needs: kept for the last reader, or to be removed now. */
  function Retire(x: Index, path: Option<nat>): (Index, Option<nat>) {
    if path.None? || path.value in x.retired then (x, None)
    else if x.readers > 0 then (x.(retired := x.retired + [path.value]), None)
    else (x, path)
  }

  function Invalidated(x: Index): (Index, Option<nat>) {
    var done := x.path.Some? && !x.building;
    (Index("", None, false, false, false, None, x.readers,
       if done && x.readers != 0 then x.retired + [x.path.value] else x.retired),
     if done && x.readers == 0 then x.path else None)
  }

  function Released(x: Index): (Index, seq<nat>) {
    var readers := if x.readers > 0 then x.readers - 1 else 0;
    if readers == 0 then (x.(readers := 0, retired := []), x.retired) else (x.(readers := readers), [])
  }

  predicate UpToDate(x: Index, key: string) {
    x.rootKey == key && (x.building || x.complete)
  }

  /** A new build; `file` is the temporary file just created, None when that failed. */
  function Started(x: Index, key: string, file: Option<nat>): (Index, Option<nat>) {
    var (y, remove) := Retire(x, x.path);
    (Index(key, file, false, file.Some?, file.None?, file, y.readers, y.retired), remove)
  }

  predicate IsStale(x: Index, key: string, file: nat) {
    x.rootKey != key || x.path != Some(file)
  }

  /** A builder is done; `ok` without an error, `canceled` when its context ended. */
  function BuildFinished(x: Index, key: string, file: nat, ok: bool, canceled: bool): (Index, Option<nat>) {
    var stale := IsStale(x, key, file);
    var y := if stale then x
             else if ok && !canceled then x.(building := false, cancel := None, complete := true)
             else x.(building := false, cancel := None, failed := !ok);
    if stale || canceled then Retire(y, Some(file)) else (y, None)
  }

  // ------------------------------------------------------ what the sections are for

  function Just(path: Option<nat>): set<nat> {
    if path.Some? then {path.value} else {}
  }

  /** The files the index answers for: the current one and those kept for the last reader. */
  ghost function FilesOf(x: Index): set<nat> {
    Just(x.path) + (set f | f in x.retired)
  }

  ghost predicate IndexOk(x: Index) {
    && (x.readers == 0 ==> x.retired == [])
    && (x.building <==> x.cancel.Some?)
    && (x.building ==> x.cancel == x.path && !x.complete && !x.failed)
    && (x.complete ==> x.path.Some?)
  }

  // ------------------------------------------------------ the class

  class SearchIndex {
    var rootKey: string
    var path: Option<nat>
    var complete: bool
    var building: bool
    var failed: bool
    var cancel: Option<nat>
    var readers: nat
    var retired: seq<nat>

    ghost function View(): Index
      reads this
    {
      Index(rootKey, path, complete, building, failed, cancel, readers, retired)
    }

    ghost predicate Valid()
      reads this
    {
      IndexOk(View())
    }

    constructor ()
      ensures Valid() && View() == Index("", None, false, false, false, None, 0, [])
    {
      rootKey, path, complete, building, failed, cancel, readers, retired := "", None, false, false, false, None, 0, [];
    }

    method RetirePathLocked(gone: Option<nat>) returns (remove: Option<nat>)
      modifies this`retired
      ensures (View(), remove) == Retire(old(View()), gone)
    {
      if gone.None? { return None; }
      for i := 0 to |retired|
        invariant gone.value !in retired[..i] && retired == old(retired)
      {
        if retired[i] == gone.value { return None; }
      }
      assert retired[..|retired|] == retired;
      if readers > 0 {
        retired := retired + [gone.value];
        return None;
      }
      remove := gone;
    }

    /** Returns the file to remove after unlocking and the builder whose context ends. The next search builds
        anew whatever it asks for, every builder finds itself stale, and no file is lost: the old one is
        removed when nobody reads, kept for the last reader, or left to the builder that still writes it. */
    method InvalidateFileSearch() returns (remove: Option<nat>, canceled: Option<nat>)
      requires Valid()
      modifies this
      ensures Valid() && readers == old(readers)
      ensures forall key :: !UpToDate(View(), key)
      ensures forall key, file :: IsStale(View(), key, file)
      ensures FilesOf(View()) + Just(remove) + (if old(building) then Just(old(path)) else {}) == FilesOf(old(View()))
      ensures remove.Some? ==> readers == 0
      ensures (View(), remove) == Invalidated(old(View())) && canceled == old(cancel)
    {
      canceled := cancel;
      var removeNow := path.Some? && !building && readers == 0;
      remove := if removeNow then path else None;
      if path.Some? && !building && readers != 0 { retired := retired + [path.value]; }
      rootKey, path, complete, building, failed, cancel := "", None, false, false, false, None;
    }

    method Capture() returns (captured: Option<nat>)
      requires Valid()
      modifies this`readers
      ensures Valid() && readers > 0
      ensures View() == old(View()).(readers := old(readers) + 1) && captured == path
    {
      readers := readers + 1;
      captured := path;
    }

    /** Files are handed over for removal only when no reader is left, and then all that were kept. */
    method ReleaseFileSearchReader() returns (remove: seq<nat>)
      requires Valid()
      modifies this
      ensures Valid() && path == old(path)
      ensures FilesOf(View()) + (set f | f in remove) == FilesOf(old(View()))
      ensures remove != [] ==> readers == 0
      ensures readers == 0 ==> FilesOf(View()) == Just(path)
      ensures (View(), remove) == Released(old(View()))
    {
      remove := [];
      if readers > 0 { readers := readers - 1; }
      if readers == 0 && |retired| > 0 {
        remove := retired;
        retired := [];
      }
    }

    /** Afterwards the index is built or being built for this key, or the failure to create a file is
        recorded. The new builder is not stale, every other one is, and no file is lost or removed under
        a reader. */
    method StartFileSearchIndex(key: string, file: Option<nat>) returns (remove: Option<nat>, canceled: Option<nat>)
      requires Valid()
      modifies this
      ensures Valid() && readers == old(readers)
      ensures UpToDate(View(), key) || (failed && file.None?)
      ensures !UpToDate(old(View()), key) ==> path == file && (file.Some? ==> !IsStale(View(), key, file.value))
      ensures !UpToDate(old(View()), key) ==> forall k, other: nat :: Some(other) != file ==> IsStale(View(), k, other)
      ensures !UpToDate(old(View()), key) ==> FilesOf(View()) + Just(remove) == FilesOf(old(View())) + Just(file)
      ensures remove.Some? ==> readers == 0
      ensures UpToDate(old(View()), key) ==> View() == old(View()) && remove == canceled == None
      ensures !UpToDate(old(View()), key) ==> (View(), remove) == Started(old(View()), key, file) && canceled == old(cancel)
    {
      if rootKey == key && (building || complete) { return None, None; }
      canceled := cancel;
      remove := RetirePathLocked(path);
      rootKey, path, complete, building, failed, cancel := key, file, false, file.Some?, file.None?, file;
    }

    /** The builder's file stays known or is the one to remove, never under a reader. A stale builder changes
        nothing else; the current one is through, and has completed the index only if nothing went wrong. */
    method FinishBuild(key: string, file: nat, ok: bool, ended: bool) returns (remove: Option<nat>)
      requires Valid()
      modifies this
      ensures Valid() && readers == old(readers) && path == old(path)
      ensures FilesOf(View()) + Just(remove) == FilesOf(old(View())) + {file}
      ensures remove.Some? ==> remove == Some(file) && readers == 0
      ensures old(IsStale(View(), key, file)) ==> View() == old(View()).(retired := retired)
      ensures !old(IsStale(View(), key, file)) && ok && !ended ==> UpToDate(View(), key)
      ensures !old(IsStale(View(), key, file)) ==> !building && (complete <==> old(complete) || (ok && !ended))
      ensures (View(), remove) == BuildFinished(old(View()), key, file, ok, ended)
    {
      var stale := rootKey != key || path != Some(file);
      remove := None;
      if !stale {
        building, cancel := false, None;
        if ok && !ended { complete := true; } else { failed := !ok; }
      }
      if stale || ended { remove := RetirePathLocked(Some(file)); }
    }
  }
}
