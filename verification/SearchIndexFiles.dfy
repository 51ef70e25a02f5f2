/** Every interleaving of searches, builders, invalidation and deferred removals over the index of a
    folder session: while the session lives, no file goes between its capture and its release, and no
    file is ever forgotten. */
module SearchIndexFiles {
  import opened Wrappers
  import opened FolderSearchIndex

  /** A search that took the index's path under the lock, until it releases it. */
  datatype Reader = Holding(path: Option<nat>) | Done

  datatype Builder = Builder(key: string, canceled: bool)

  /** `pending` are files that some goroutine removes once it has left the lock; `next` numbers the
      next temporary file; `live` is the session's context. `abandoned` records the files that their
      builder gave up although they were current. */
  datatype State = State(index: Index, files: set<nat>, next: nat, builders: map<nat, Builder>, pending: set<nat>,
                         readers: seq<Reader>, live: bool, abandoned: set<nat>)

  datatype Step =
    | Start(key: string) | CreateFails(key: string) | Finish(file: nat, ok: bool)
    | Capture | Release(r: nat) | Invalidate | Remove(file: nat) | Die

  const INITIAL := State(Index("", None, false, false, false, None, 0, []), {}, 0, map[], {}, [], true, {})

  function CancelBuilder(builders: map<nat, Builder>, which: Option<nat>): map<nat, Builder> {
    if which.Some? && which.value in builders
    then builders[which.value := builders[which.value].(canceled := true)] else builders
  }

  predicate Can(s: State, step: Step) {
    match step
    case Start(key) => !UpToDate(s.index, key)
    case CreateFails(key) => !UpToDate(s.index, key)
    case Finish(file, _) => file in s.builders
    case Release(r) => r < |s.readers| && s.readers[r].Holding?
    case Remove(file) => file in s.pending
    case _ => true
  }

  function AfterStart(s: State, key: string): State {
    var (index, remove) := Started(s.index, key, Some(s.next));
    s.(index := index, files := s.files + {s.next}, next := s.next + 1, pending := s.pending + Just(remove),
       builders := CancelBuilder(s.builders, s.index.cancel)[s.next := Builder(key, false)])
  }

  function AfterCreateFails(s: State, key: string): State {
    var (index, remove) := Started(s.index, key, None);
    s.(index := index, pending := s.pending + Just(remove), builders := CancelBuilder(s.builders, s.index.cancel))
  }

  function AfterFinish(s: State, file: nat, ok: bool): State
    requires file in s.builders
  {
    var b := s.builders[file];
    var (index, remove) := BuildFinished(s.index, b.key, file, ok, b.canceled || !s.live);
    s.(index := index, pending := s.pending + Just(remove), builders := s.builders - {file},
       abandoned := if !IsStale(s.index, b.key, file) && (b.canceled || !s.live) then s.abandoned + {file} else s.abandoned)
  }

  function AfterRelease(s: State, r: nat): State
    requires r < |s.readers|
  {
    var (index, remove) := Released(s.index);
    s.(index := index, readers := s.readers[r := Done], pending := s.pending + (set f | f in remove))
  }

  function AfterInvalidate(s: State): State {
    var (index, remove) := Invalidated(s.index);
    s.(index := index, pending := s.pending + Just(remove), builders := CancelBuilder(s.builders, s.index.cancel))
  }

  function After(s: State, step: Step): State
    requires Can(s, step)
  {
    match step
    case Start(key) => AfterStart(s, key)
    case CreateFails(key) => AfterCreateFails(s, key)
    case Finish(file, ok) => AfterFinish(s, file, ok)
    case Capture => s.(index := s.index.(readers := s.index.readers + 1), readers := s.readers + [Holding(s.index.path)])
    case Release(r) => AfterRelease(s, r)
    case Invalidate => AfterInvalidate(s)
    case Remove(file) => s.(files := s.files - {file}, pending := s.pending - {file})
    case Die => s.(live := false)
  }

  // ------------------------------------------------------ what every run keeps

  function Active(readers: seq<Reader>): nat {
    if readers == [] then 0
    else Active(readers[..|readers| - 1]) + (if readers[|readers| - 1].Holding? then 1 else 0)
  }

  /** The index and its builders agree. */
  ghost predicate Coherent(s: State) {
    && IndexOk(s.index) && s.index.readers == Active(s.readers)
    && (s.index.path.Some? ==> s.index.path.value < s.next)
    && (s.index.building ==> s.index.path.value in s.builders && s.builders[s.index.path.value].key == s.index.rootKey
                             && !s.builders[s.index.path.value].canceled)
    && (forall f :: f in s.builders ==> f < s.next)
  }

  /** A builder at work on the current file is the one the index is building with. */
  ghost predicate BuildersKnown(s: State) {
    forall f :: f in s.builders && s.index.path == Some(f) ==> s.index.building
  }

  /** No temporary file is forgotten. */
  ghost predicate NothingLost(s: State) {
    forall f :: f in s.files ==>
      f < s.next && (s.index.path == Some(f) || f in s.index.retired || f in s.pending || f in s.builders)
  }

  /** There, and nobody is about to remove it. */
  ghost predicate Intact(s: State, f: nat) {
    f in s.files && f !in s.pending
  }

  /** The current file is intact and nobody plans to remove it, unless its builder gave it up: then it
      stays only until the last reader goes. */
  ghost predicate CurrentStays(s: State) {
    s.index.path.Some? ==>
      var f := s.index.path.value;
      if f in s.abandoned then Intact(s, f) <==> f in s.index.retired else Intact(s, f) && f !in s.index.retired
  }

  /** Only after the session has ended does a builder give up a current file. */
  ghost predicate AbandonedLate(s: State) {
    && (s.live ==> s.abandoned == {})
    && (forall f :: f in s.abandoned ==> f < s.next && f !in s.builders)
  }

  ghost predicate Numbered(s: State) {
    && (forall f :: f in s.index.retired ==> f < s.next)
    && (forall f :: f in s.pending ==> f < s.next)
  }

  /** What a search holds is there and is not about to go. */
  ghost predicate HeldStays(s: State) {
    forall r :: 0 <= r < |s.readers| && s.readers[r].Holding? && s.readers[r].path.Some? ==> Intact(s, s.readers[r].path.value)
  }

  ghost predicate Inv(s: State) {
    && Coherent(s) && BuildersKnown(s) && NothingLost(s) && Numbered(s) && CurrentStays(s) && AbandonedLate(s)
    && (s.live ==> HeldStays(s))
  }

  lemma {:induction false} ActiveAfter(readers: seq<Reader>, r: nat)
    requires r < |readers| && readers[r].Holding?
    ensures Active(readers) == Active(readers[r := Done]) + 1
  {
    var n := |readers| - 1;
    if r < n {
      ActiveAfter(readers[..n], r);
      assert readers[r := Done][..n] == readers[..n][r := Done];
    } else {
      assert readers[r := Done][..n] == readers[..n];
    }
  }

  lemma {:induction false} NobodyHolds(readers: seq<Reader>)
    requires Active(readers) == 0
    ensures forall r :: 0 <= r < |readers| ==> readers[r].Done?
  {
    if readers != [] {
      var n := |readers| - 1;
      NobodyHolds(readers[..n]);
      assert forall r :: 0 <= r < n ==> readers[..n][r] == readers[r];
    }
  }

  lemma StartKeeps(s: State, key: string)
    requires Inv(s) && Can(s, Start(key))
    ensures Inv(AfterStart(s, key))
  {
    if s.index.readers == 0 { NobodyHolds(s.readers); }
  }

  lemma CreateFailsKeeps(s: State, key: string)
    requires Inv(s) && Can(s, CreateFails(key))
    ensures Inv(AfterCreateFails(s, key))
  {
    if s.index.readers == 0 { NobodyHolds(s.readers); }
  }

  lemma FinishKeeps(s: State, file: nat, ok: bool)
    requires Inv(s) && file in s.builders
    ensures Inv(AfterFinish(s, file, ok))
  {
    if s.index.readers == 0 { NobodyHolds(s.readers); }
  }

  lemma ReleaseKeeps(s: State, r: nat)
    requires Inv(s) && Can(s, Release(r))
    ensures Inv(AfterRelease(s, r))
  {
    ActiveAfter(s.readers, r);
    if s.index.readers == 1 { NobodyHolds(s.readers[r := Done]); }
  }

  lemma InvalidateKeeps(s: State)
    requires Inv(s)
    ensures Inv(AfterInvalidate(s))
  {
    if s.index.readers == 0 { NobodyHolds(s.readers); }
  }

  lemma OthersKeep(s: State, step: Step)
    requires Inv(s) && Can(s, step) && (step.Capture? || step.Remove? || step.Die?)
    ensures Inv(After(s, step))
  {
    if step.Capture? { assert After(s, step).readers[..|s.readers|] == s.readers; }
  }

  lemma StepKeepsInv(s: State, step: Step)
    requires Inv(s) && Can(s, step)
    ensures Inv(After(s, step))
  {
    hide Inv;
    match step {
      case Start(key) => StartKeeps(s, key);
      case CreateFails(key) => CreateFailsKeeps(s, key);
      case Finish(file, ok) => FinishKeeps(s, file, ok);
      case Release(r) => ReleaseKeeps(s, r);
      case Invalidate => InvalidateKeeps(s);
      case _ => OthersKeep(s, step);
    }
  }

  ghost predicate Run(states: seq<State>, steps: seq<Step>) {
    && |states| == |steps| + 1 && states[0] == INITIAL
    && forall n :: 0 <= n < |steps| ==> Can(states[n], steps[n]) && states[n + 1] == After(states[n], steps[n])
  }

  lemma InitialInv()
    ensures Inv(INITIAL)
  {
  }

  lemma {:induction false} EveryRunKeepsInv(states: seq<State>, steps: seq<Step>)
    requires Run(states, steps)
    ensures forall n :: 0 <= n < |states| ==> Inv(states[n])
  {
    hide Inv, Can, After;
    var m := |steps|;
    if m == 0 {
      InitialInv();
    } else {
      EveryRunKeepsInv(states[..m], steps[..m - 1]);
      assert Inv(states[..m][m - 1]);
      StepKeepsInv(states[m - 1], steps[m - 1]);
    }
  }

  /** While the session lives, the file a search captured is there until the search releases it. */
  lemma CapturedFilesStay(states: seq<State>, steps: seq<Step>, n: nat, r: nat)
    requires Run(states, steps) && n < |states| && states[n].live
    requires r < |states[n].readers| && states[n].readers[r].Holding? && states[n].readers[r].path.Some?
    ensures states[n].readers[r].path.value in states[n].files
  {
    EveryRunKeepsInv(states, steps);
    assert Inv(states[n]);
  }

  /** Every temporary file, in every run, is current, retired, about to be removed or a builder's. */
  lemma NoFileIsForgotten(states: seq<State>, steps: seq<Step>, n: nat, f: nat)
    requires Run(states, steps) && n < |states| && f in states[n].files
    ensures var s := states[n];
      s.index.path == Some(f) || f in s.index.retired || f in s.pending || f in s.builders
  {
    EveryRunKeepsInv(states, steps);
    assert Inv(states[n]);
  }

  /** With no search, builder or removal under way, at most the current file is left; after an
      invalidation, as when a session stops, none. */
  lemma AtRestOnlyTheCurrentFile(states: seq<State>, steps: seq<Step>, n: nat)
    requires Run(states, steps) && n < |states|
    requires states[n].builders == map[] && states[n].pending == {}
    requires forall r :: 0 <= r < |states[n].readers| ==> states[n].readers[r].Done?
    ensures states[n].files <= Just(states[n].index.path)
  {
    EveryRunKeepsInv(states, steps);
    assert Inv(states[n]);
    NobodyActive(states[n].readers);
  }

  lemma {:induction false} NobodyActive(readers: seq<Reader>)
    requires forall r :: 0 <= r < |readers| ==> readers[r].Done?
    ensures Active(readers) == 0
  {
    if readers != [] { NobodyActive(readers[..|readers| - 1]); }
  }

  /** A file can only be handed over for removal when no search is left. */
  lemma HeldStep(s: State, step: Step, r: nat, f: nat)
    requires Inv(s) && Can(s, step) && Intact(s, f)
    requires r < |s.readers| && s.readers[r] == Holding(Some(f)) && After(s, step).readers[r].Holding?
    ensures After(s, step).readers[r] == Holding(Some(f)) && Intact(After(s, step), f)
  {
    var t := After(s, step);
    StepKeepsInv(s, step);
    if t.index.readers == 0 { NobodyHolds(t.readers); }
  }

  /** Whether the session lives or not: a file that was intact when a search held it stays intact for as long
      as that search goes on. */
  lemma {:induction false} IntactWhileHeld(states: seq<State>, steps: seq<Step>, m: nat, n: nat, r: nat, f: nat)
    requires Run(states, steps) && m <= n < |states|
    requires r < |states[m].readers| && states[m].readers[r] == Holding(Some(f)) && Intact(states[m], f)
    ensures r < |states[n].readers|
    ensures states[n].readers[r].Holding? ==> states[n].readers[r] == Holding(Some(f)) && Intact(states[n], f)
    decreases n - m
  {
    hide Inv, Intact;
    if m < n {
      IntactWhileHeld(states, steps, m, n - 1, r, f);
      EveryRunKeepsInv(states, steps);
      var s, step := states[n - 1], steps[n - 1];
      assert Can(s, step) && states[n] == After(s, step) && Inv(s);
      ReadersOnlyEnd(s, step, r);
      if states[n].readers[r].Holding? { HeldStep(s, step, r, f); }
    }
  }

  lemma ReadersOnlyEnd(s: State, step: Step, r: nat)
    requires Can(s, step) && r < |s.readers|
    ensures r < |After(s, step).readers|
    ensures After(s, step).readers[r].Holding? ==> s.readers[r].Holding?
  {
  }

  /** So a search loses its file exactly when the current file was no longer intact as it captured it, and that
      is so exactly when the builder gave it up after the session had ended and no reader keeps it. */
  lemma CurrentIsIntactUnlessAbandoned(states: seq<State>, steps: seq<Step>, n: nat, f: nat)
    requires Run(states, steps) && n < |states| && states[n].index.path == Some(f)
    ensures Intact(states[n], f) <==> f !in states[n].abandoned || f in states[n].index.retired
    ensures f in states[n].abandoned ==> !states[n].live
  {
    EveryRunKeepsInv(states, steps);
    assert Inv(states[n]);
  }

  /** It happens: a builder that was not replaced gives up the current file as the session ends, a search
      that had found the index up to date captures it, and then it is removed under the search. */
  lemma DeadSessionRemovesACapturedFile() returns (states: seq<State>, steps: seq<Step>)
    ensures Run(states, steps)
    ensures var s := states[|states| - 1];
      s.readers == [Holding(Some(0))] && 0 !in s.files && !s.live && !s.index.failed && s.abandoned == {0}
  {
    steps := [Start("root"), Die, Finish(0, true), Capture, Remove(0)];
    var s1 := After(INITIAL, steps[0]);
    var s2 := After(s1, steps[1]);
    var s3 := After(s2, steps[2]);
    assert s3.pending == {0};
    var s4 := After(s3, steps[3]);
    var s5 := After(s4, steps[4]);
    states := [INITIAL, s1, s2, s3, s4, s5];
  }
}
