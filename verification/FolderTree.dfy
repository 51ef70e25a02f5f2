/** A fixed folder tree as its directory listings, and which paths lie under which. */
module FolderTree {
  import opened Ordering
  import opened ByteStrings

  const GIT: Bytes := [46, 103, 105, 116]

  datatype Entry = Entry(name: Bytes, directory: bool)

  /** The immediate children of every directory, by slash-separated path; the root is the empty path. */
  type Tree = map<Bytes, set<Entry>>

  function Join(directory: Bytes, name: Bytes): Bytes {
    if directory == [] then name else directory + [SLASH] + name
  }

  predicate ValidName(name: Bytes) {
    name != [] && SLASH !in name && 0 !in name
  }

  ghost predicate WellFormed(tree: Tree) {
    && [] in tree
    && (forall d, e {:trigger e in tree[d]} :: d in tree && e in tree[d] ==>
          ValidName(e.name) && (e.directory ==> Join(d, e.name) in tree))
    && (forall d, e, f {:trigger e in tree[d], f in tree[d]} ::
          d in tree && e in tree[d] && f in tree[d] && e.name == f.name ==> e == f)
  }

  /** `path` is an entry that can be reached without entering anything called `.git`. */
  ghost predicate Listed(tree: Tree, path: Bytes, directory: bool)
    decreases |path|
  {
    exists d, e {:trigger e in tree[d]} ::
      && d in tree && e in tree[d] && e.name != GIT && e.directory == directory
      && path == Join(d, e.name) && |d| < |path|
      && (d == [] || Listed(tree, d, true))
  }

  ghost predicate Known(tree: Tree, path: Bytes) {
    Listed(tree, path, true) || Listed(tree, path, false)
  }

  ghost predicate IsFolder(tree: Tree, path: Bytes) {
    path == [] || Listed(tree, path, true)
  }

  /** `q` is `p` or lies under it. */
  predicate Below(p: Bytes, q: Bytes) {
    q == p || p + [SLASH] <= q
  }

  ghost function KnownPaths(tree: Tree): set<Bytes> {
    set d, e | d in tree && e in tree[d] && Known(tree, Join(d, e.name)) :: Join(d, e.name)
  }

  /** Every file outside `.git`. */
  ghost function Files(tree: Tree): set<Bytes> {
    set p | p in KnownPaths(tree) && Listed(tree, p, false)
  }

  ghost function FilesAfter(tree: Tree, after: Bytes): set<Bytes> {
    set p | p in Files(tree) && Less(after, p)
  }

  // ------------------------------------------------------ facts about paths

  lemma ParentOf(tree: Tree, path: Bytes, directory: bool) returns (d: Bytes, e: Entry)
    requires WellFormed(tree) && Listed(tree, path, directory)
    ensures d in tree && e in tree[d] && e.name != GIT && e.directory == directory
    ensures path == Join(d, e.name) && |d| < |path| && IsFolder(tree, d) && ValidName(e.name)
  {
    d, e :| && d in tree && e in tree[d] && e.name != GIT && e.directory == directory
            && path == Join(d, e.name) && |d| < |path| && (d == [] || Listed(tree, d, true));
  }

  lemma ChildIsListed(tree: Tree, d: Bytes, e: Entry)
    requires WellFormed(tree) && d in tree && IsFolder(tree, d) && e in tree[d] && e.name != GIT
    ensures Listed(tree, Join(d, e.name), e.directory)
  {
    assert |d| < |Join(d, e.name)|;
  }

  lemma FolderIsThere(tree: Tree, d: Bytes)
    requires WellFormed(tree) && IsFolder(tree, d)
    ensures d in tree
  {
    if d != [] { var parent, e := ParentOf(tree, d, true); }
  }

  lemma KnownIsCollected(tree: Tree, path: Bytes)
    requires WellFormed(tree)
    ensures Known(tree, path) <==> path in KnownPaths(tree)
    ensures Listed(tree, path, false) <==> path in Files(tree)
  {
    if Known(tree, path) {
      var d, e := ParentOf(tree, path, Listed(tree, path, true));
      assert path in KnownPaths(tree);
    }
  }

  lemma NameStart(d: Bytes, name: Bytes, d': Bytes, name': Bytes)
    requires Join(d, name) == Join(d', name') && SLASH !in name && SLASH !in name'
    ensures |name| == |name'|
  {
    var path := Join(d, name);
    assert d != [] ==> path[|path| - |name| - 1] == SLASH;
    assert d' != [] ==> path[|path| - |name'| - 1] == SLASH;
    assert forall i :: |path| - |name| <= i < |path| ==> path[i] == name[i - (|path| - |name|)];
    assert forall i :: |path| - |name'| <= i < |path| ==> path[i] == name'[i - (|path| - |name'|)];
  }

  lemma JoinIsInjective(d: Bytes, name: Bytes, d': Bytes, name': Bytes)
    requires Join(d, name) == Join(d', name') && ValidName(name) && ValidName(name')
    requires d == [] <==> d' == []
    ensures d == d' && name == name'
  {
    NameStart(d, name, d', name');
    var path := Join(d, name);
    assert name == path[|path| - |name|..] == name';
    if d != [] { assert d == path[..|path| - |name| - 1] == d'; }
  }

  lemma JoinTellsRoot(d: Bytes, name: Bytes, d': Bytes, name': Bytes)
    requires Join(d, name) == Join(d', name') && ValidName(name) && ValidName(name')
    ensures d == [] <==> d' == []
  {
    NameStart(d, name, d', name');
  }

  lemma KindIsUnique(tree: Tree, path: Bytes)
    requires WellFormed(tree)
    ensures !(Listed(tree, path, true) && Listed(tree, path, false))
  {
    if Listed(tree, path, true) && Listed(tree, path, false) {
      var d, e := ParentOf(tree, path, true);
      var d', e' := ParentOf(tree, path, false);
      JoinTellsRoot(d, e.name, d', e'.name);
      JoinIsInjective(d, e.name, d', e'.name);
    }
  }

  lemma {:induction false} ListedHasNoNul(tree: Tree, path: Bytes, directory: bool)
    requires WellFormed(tree) && Listed(tree, path, directory)
    ensures path != [] && 0 !in path
    decreases |path|
  {
    var d, e := ParentOf(tree, path, directory);
    if d != [] { ListedHasNoNul(tree, d, true); }
  }

  lemma UnderJoin(p: Bytes, d: Bytes, name: Bytes)
    requires p + [SLASH] <= Join(d, name) && SLASH !in name
    ensures d != [] && Below(p, d)
  {
    var path := Join(d, name);
    assert path[|p|] == SLASH;
    assert forall i :: |path| - |name| <= i < |path| ==> path[i] == name[i - (|path| - |name|)];
    assert d == path[..|d|];
    if |p| < |d| { assert p + [SLASH] == path[..|p| + 1] == d[..|p| + 1]; }
    else { assert p == path[..|p|]; }
  }

  lemma BelowIsTransitive(p: Bytes, q: Bytes, r: Bytes)
    requires Below(p, q) && Below(q, r)
    ensures Below(p, r)
  {
  }

  /** Every path under a folder goes through one of the folder's own entries. */
  lemma {:induction false} ThroughChild(tree: Tree, d: Bytes, q: Bytes, directory: bool) returns (e: Entry)
    requires WellFormed(tree) && IsFolder(tree, d) && Listed(tree, q, directory)
    requires d == [] || d + [SLASH] <= q
    ensures d in tree && e in tree[d] && e.name != GIT && Below(Join(d, e.name), q)
    decreases |q|
  {
    FolderIsThere(tree, d);
    var parent, last := ParentOf(tree, q, directory);
    if parent == d {
      e := last;
    } else {
      if d != [] { UnderJoin(d, parent, last.name); }
      e := ThroughChild(tree, d, parent, true);
      assert parent + [SLASH] <= q;
      BelowIsTransitive(Join(d, e.name), parent, q);
    }
  }

  lemma {:induction false} NothingBelowFile(tree: Tree, p: Bytes, q: Bytes, directory: bool)
    requires WellFormed(tree) && Listed(tree, p, false) && Listed(tree, q, directory) && Below(p, q)
    ensures q == p
    decreases |q|
  {
    if q != p {
      var parent, last := ParentOf(tree, q, directory);
      UnderJoin(p, parent, last.name);
      NothingBelowFile(tree, p, parent, true);
      KindIsUnique(tree, p);
      assert false;
    }
  }

  lemma FirstName(d: Bytes, name: Bytes, q: Bytes)
    requires name != [] && Below(Join(d, name), q)
    ensures var from := if d == [] then 0 else |d| + 1;
      && from <= |q|
      && var rest := q[from..];
         name <= rest && (|rest| == |name| || rest[|name|] == SLASH)
  {
    var from := if d == [] then 0 else |d| + 1;
    var p := Join(d, name);
    assert p == q[..|p|] && |p| == from + |name|;
    assert name == p[from..] == q[from..|p|] == q[from..][..|name|];
    if q != p { assert q[|p|] == (p + [SLASH])[|p|]; }
  }

  lemma NameEndsBeforeSlash(name: Bytes, rest: Bytes, at: nat)
    requires name <= rest && SLASH !in name && at < |rest| && rest[at] == SLASH
    ensures |name| <= at
  {
    assert forall i :: 0 <= i < |name| ==> rest[i] == name[i] && name[i] in name;
  }

  /** No path lies under two entries of one folder. */
  lemma SiblingsAreApart(d: Bytes, name: Bytes, name': Bytes, q: Bytes)
    requires SLASH !in name && SLASH !in name' && name != [] && name' != []
    requires Below(Join(d, name), q) && Below(Join(d, name'), q)
    ensures name == name'
  {
    FirstName(d, name, q);
    FirstName(d, name', q);
    var rest := q[if d == [] then 0 else |d| + 1..];
    if |name| < |rest| { NameEndsBeforeSlash(name', rest, |name|); }
    if |name'| < |rest| { NameEndsBeforeSlash(name, rest, |name'|); }
    assert name == rest[..|name|] && name' == rest[..|name'|];
  }

  lemma BelowIsNotLess(p: Bytes, q: Bytes)
    requires Below(p, q)
    ensures q == p || Less(p, q)
  {
    if q != p { PrefixIsLess(p, q); }
  }
}
