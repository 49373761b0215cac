/** The three-pane navigation state of the browser (`App` in src/main.rs) as a
    value, and every transition of it as a function of the old state, the key
    and the environment. The class in module Browser performs these
    transitions in place and is proved to agree with them. */
module Navigation {
  import opened Listing

  datatype KeyCode = Char(c: char) | Down | Up | Left | Right | OtherKey
  datatype KeyEventKind = Press | Repeat | Release
  datatype KeyEvent = KeyEvent(code: KeyCode, kind: KeyEventKind)

  /** Which slot (or which freshly read path) an update copies from. */
  datatype CopyDirType = Parent | Current | Child | Nothing | Path(path: string)

  /** What the navigator consults but does not own:
      - `readFs`, the filesystem's answer to listing a path;
      - `parentOf`, the lexical parent of a path (`Path::parent`), None at a root;
      - `selectPreviousFromNone`, the index the list widget selects when asked
        for the previous row while nothing is selected (library behaviour the
        program does not fix). */
  datatype Env = Env(
    readFs: string -> ReadOutcome,
    parentOf: string -> Option<string>,
    selectPreviousFromNone: nat)

  /** The fields of `App`. */
  datatype AppState = AppState(
    curr: DirList,
    parent: Option<DirList>,
    childDir: Option<DirList>,
    childFile: Option<File>,
    exit: bool)

  predicate HasValidSelection(d: DirList) {
    d.selected.Some? && d.selected.value < |d.entries|
  }

  function SelectedEntry(d: DirList): DirEntry
    requires HasValidSelection(d)
  {
    d.entries[d.selected.value]
  }

  /** The path of the selected entry: the listing's path, "/", the entry's name. */
  function ChildPath(d: DirList): string
    requires HasValidSelection(d)
  {
    d.path + "/" + SelectedEntry(d).name
  }

  /** The child slots show what the current selection points at: the listing
      of the selected directory, or the selected file. Without a valid
      selection nothing is required of them. */
  predicate ChildInSync(s: AppState, readFs: string -> ReadOutcome) {
    HasValidSelection(s.curr) ==>
      if SelectedEntry(s.curr).isDir then
        s.childDir == Some(ReadDir(ChildPath(s.curr), readFs)) && s.childFile == None
      else
        s.childFile == Some(File(ChildPath(s.curr))) && s.childDir == None
  }

  /** Shape invariants of the slots: a child listing is always a fresh read
      (so it has no selection), and at most one child slot is filled. */
  predicate SlotsWellFormed(s: AppState) {
    && (s.childDir.Some? ==> s.childDir.value.selected == None)
    && !(s.childDir.Some? && s.childFile.Some?)
  }

  // ---------------------------------------------------------------------------
  // Path helpers
  // ---------------------------------------------------------------------------

  /** `check_parent_is_root`: the path has no parent. */
  function CheckParentIsRoot(path: string, parentOf: string -> Option<string>): (isRoot: bool)
    ensures isRoot <==> parentOf(path) == None
  {
    parentOf(path).None?
  }

  /** `find_par_dir`: the parent of a path; the source panics when there is
      none, so callers must show that one exists. */
  function FindParDir(path: string, parentOf: string -> Option<string>): (parent: string)
    requires parentOf(path).Some?
    ensures parentOf(path) == Some(parent)
  {
    parentOf(path).value
  }

  // ---------------------------------------------------------------------------
  // Selection
  // ---------------------------------------------------------------------------

  /** `select_next`: selects the first row when nothing is selected, otherwise
      moves one row down unless the selection is already at or past the end. */
  function NextSelected(d: DirList): (r: DirList)
    ensures r.path == d.path && r.entries == d.entries && r.selected.Some?
    ensures d.selected == None ==> r.selected == Some(0)
    ensures d.selected.Some? && d.selected.value < |d.entries| ==> r.selected == Some(d.selected.value + 1)
    ensures d.selected.Some? && d.selected.value >= |d.entries| ==> r == d
    ensures d.selected.Some? ==> d.selected.value <= r.selected.value
    ensures d.selected == None || d.selected.value <= |d.entries| ==> r.selected.value <= |d.entries|
  {
    match d.selected
    case None => d.(selected := Some(0))
    case Some(i) => if i >= |d.entries| then d else d.(selected := Some(i + 1))
  }

  /** The list widget's `select_previous`: one row up, stopping at the first
      row; from no selection it selects `fromNone`. */
  function PreviousSelected(d: DirList, fromNone: nat): (r: DirList)
    ensures r.path == d.path && r.entries == d.entries && r.selected.Some?
    ensures d.selected.Some? ==> r.selected.value <= d.selected.value <= r.selected.value + 1
    ensures d.selected.Some? && d.selected.value > 0 ==> r.selected == Some(d.selected.value - 1)
    ensures d.selected == Some(0) ==> r == d
    ensures d.selected == None ==> r.selected == Some(fromNone)
  {
    match d.selected
    case None => d.(selected := Some(fromNone))
    case Some(i) => d.(selected := Some(if i == 0 then 0 else i - 1))
  }

  /** Down then Up returns to the row it started from, and so does Up then
      Down from any row but the first. */
  lemma NextPreviousRoundTrip(d: DirList, fromNone: nat)
    ensures HasValidSelection(d) ==> PreviousSelected(NextSelected(d), fromNone) == d
    ensures d.selected.Some? && 0 < d.selected.value <= |d.entries| ==>
      NextSelected(PreviousSelected(d, fromNone)) == d
  {
  }

  // ---------------------------------------------------------------------------
  // Slot updates
  // ---------------------------------------------------------------------------

  /** `update_child_dir`: with a valid selection, fills exactly one child slot
      from the selected entry; otherwise leaves both slots as they were. */
  function DeriveChild(s: AppState, readFs: string -> ReadOutcome): (r: AppState)
    ensures r.curr == s.curr && r.parent == s.parent && r.exit == s.exit
    ensures !HasValidSelection(s.curr) ==> r == s
    ensures HasValidSelection(s.curr) ==> (r.childDir.Some? <==> r.childFile.None?)
    ensures ChildInSync(r, readFs)
    ensures ChildInSync(s, readFs) ==> r == s
    ensures SlotsWellFormed(s) ==> SlotsWellFormed(r)
  {
    match s.curr.selected
    case None => s
    case Some(i) =>
      if i >= |s.curr.entries| then s
      else
        var entry := s.curr.entries[i];
        var path := s.curr.path + "/" + entry.name;
        if entry.isDir then s.(childDir := Some(ReadDir(path, readFs)), childFile := None)
        else s.(childFile := Some(File(path)), childDir := None)
  }

  /** Child derivation depends on the current listing alone: two states with
      the same current listing get the same child slots, whatever they held. */
  lemma DeriveChildDependsOnCurrentOnly(s: AppState, t: AppState, readFs: string -> ReadOutcome)
    requires s.curr == t.curr && HasValidSelection(s.curr)
    ensures DeriveChild(s, readFs).childDir == DeriveChild(t, readFs).childDir
    ensures DeriveChild(s, readFs).childFile == DeriveChild(t, readFs).childFile
  {
  }

  /** `update_curr_dir`: only the current slot changes. */
  function CopyIntoCurr(s: AppState, copy: CopyDirType, readFs: string -> ReadOutcome): (r: AppState)
    ensures r.parent == s.parent && r.childDir == s.childDir && r.childFile == s.childFile && r.exit == s.exit
    ensures copy.Path? ==> r.curr == ReadDir(copy.path, readFs)
    ensures copy.Parent? ==> r.curr == if s.parent.Some? then s.parent.value else s.curr
    ensures copy.Child? ==> r.curr == if s.childDir.Some? then s.childDir.value else s.curr
    ensures copy.Current? || copy.Nothing? ==> r == s
  {
    match copy
    case Path(path) => s.(curr := ReadDir(path, readFs))
    case Parent => if s.parent.Some? then s.(curr := s.parent.value) else s
    case Current => s
    case Child => if s.childDir.Some? then s.(curr := s.childDir.value) else s
    case Nothing => s
  }

  /** `update_parent_dir`: only the parent slot changes. */
  function CopyIntoParent(s: AppState, copy: CopyDirType, readFs: string -> ReadOutcome): (r: AppState)
    ensures r.curr == s.curr && r.childDir == s.childDir && r.childFile == s.childFile && r.exit == s.exit
    ensures copy.Nothing? ==> r.parent == None
    ensures copy.Path? ==> r.parent == Some(ReadDir(copy.path, readFs))
    ensures copy.Current? ==> r.parent == Some(s.curr)
    ensures copy.Parent? || copy.Child? ==> r == s
  {
    match copy
    case Nothing => s.(parent := None)
    case Path(path) => s.(parent := Some(ReadDir(path, readFs)))
    case Parent => s
    case Current => s.(parent := Some(s.curr))
    case Child => s
  }

  // ---------------------------------------------------------------------------
  // Key handling (`handle_events`)
  // ---------------------------------------------------------------------------

  /** Down: `select_next`, then `update_child_dir`. */
  function MoveDown(s: AppState, readFs: string -> ReadOutcome): (r: AppState)
    ensures r.curr == NextSelected(s.curr) && r.parent == s.parent && r.exit == s.exit
    ensures ChildInSync(r, readFs)
    ensures !HasValidSelection(r.curr) ==> r.childDir == s.childDir && r.childFile == s.childFile
  {
    DeriveChild(s.(curr := NextSelected(s.curr)), readFs)
  }

  /** Up: `select_previous`, then `update_child_dir`. */
  function MoveUp(s: AppState, env: Env): (r: AppState)
    ensures r.curr == PreviousSelected(s.curr, env.selectPreviousFromNone)
    ensures r.parent == s.parent && r.exit == s.exit
    ensures ChildInSync(r, env.readFs)
    ensures !HasValidSelection(r.curr) ==> r.childDir == s.childDir && r.childFile == s.childFile
  {
    DeriveChild(s.(curr := PreviousSelected(s.curr, env.selectPreviousFromNone)), env.readFs)
  }

  /** Left. Without a parent nothing happens. Otherwise the parent listing,
      selection included, becomes current; the new parent is a read of its
      parent path, or none at a root; the child slots are not touched. The
      parent lookup cannot fail: it runs only when the root check said the
      path has a parent. */
  function Ascend(s: AppState, env: Env): (r: AppState)
    ensures s.parent.None? ==> r == s
    ensures s.parent.Some? ==>
      var up := env.parentOf(s.parent.value.path);
      && r.curr == s.parent.value
      && (r.parent.None? <==> up.None?)
      && (up.Some? ==> r.parent == Some(ReadDir(up.value, env.readFs)))
      && r.childDir == s.childDir && r.childFile == s.childFile && r.exit == s.exit
  {
    match s.parent
    case None => s
    case Some(parentDir) =>
      if CheckParentIsRoot(parentDir.path, env.parentOf) then
        CopyIntoParent(CopyIntoCurr(s, Parent, env.readFs), Nothing, env.readFs)
      else
        var moved := CopyIntoCurr(s, Parent, env.readFs);
        CopyIntoParent(moved, Path(FindParDir(moved.curr.path, env.parentOf)), env.readFs)
  }

  /** Right. Without a valid selection nothing happens. On a file only the
      child is derived again. On a directory the current listing becomes the
      parent and the child listing (when there is one) becomes current, and
      then the child is derived again, which changes nothing when the new
      current listing is a fresh read. */
  function Descend(s: AppState, readFs: string -> ReadOutcome): (r: AppState)
    ensures !HasValidSelection(s.curr) ==> r == s
    ensures HasValidSelection(s.curr) ==> ChildInSync(r, readFs) && r.exit == s.exit
    ensures HasValidSelection(s.curr) && !SelectedEntry(s.curr).isDir ==>
      && r.curr == s.curr && r.parent == s.parent
      && r.childFile == Some(File(ChildPath(s.curr))) && r.childDir == None
    ensures HasValidSelection(s.curr) && SelectedEntry(s.curr).isDir ==>
      && r.parent == Some(s.curr)
      && r.curr == (if s.childDir.Some? then s.childDir.value else s.curr)
    ensures HasValidSelection(s.curr) && SelectedEntry(s.curr).isDir &&
            s.childDir.Some? && s.childDir.value.selected == None ==>
      r.childDir == s.childDir && r.childFile == s.childFile
  {
    match s.curr.selected
    case None => s
    case Some(i) =>
      if i >= |s.curr.entries| then s
      else if s.curr.entries[i].isDir then
        DeriveChild(CopyIntoCurr(CopyIntoParent(s, Current, readFs), Child, readFs), readFs)
      else
        DeriveChild(s, readFs)
  }

  /** `handle_events`: only presses act; `q` asks to exit and changes nothing
      else; the arrows navigate; every other key is ignored. */
  function Step(s: AppState, key: KeyEvent, env: Env): (r: AppState)
    ensures key.kind != Press ==> r == s
    ensures key.kind == Press && key.code.Char? ==> r == s.(exit := s.exit || key.code.c == 'q')
    ensures key.kind == Press && key.code.OtherKey? ==> r == s
    ensures r.exit == (s.exit || key == KeyEvent(Char('q'), Press))
    ensures SlotsWellFormed(s) ==> SlotsWellFormed(r)
  {
    if key.kind != Press then s
    else
      match key.code
      case Char(c) => if c == 'q' then s.(exit := true) else s
      case Down => MoveDown(s, env.readFs)
      case Up => MoveUp(s, env)
      case Left => Ascend(s, env)
      case Right => Descend(s, env.readFs)
      case OtherKey => s
  }

  /** The state `run` sets up before the event loop: the parent listing when
      the start directory has a parent, the start listing (with no selection),
      and a child derivation that therefore leaves both child slots empty. */
  function Initial(startDir: string, env: Env): (r: AppState)
    ensures r.curr == ReadDir(startDir, env.readFs) && r.curr.selected == None
    ensures env.parentOf(startDir).None? ==> r.parent == None
    ensures env.parentOf(startDir).Some? ==> r.parent == Some(ReadDir(env.parentOf(startDir).value, env.readFs))
    ensures r.childDir == None && r.childFile == None && !r.exit
    ensures SlotsWellFormed(r) && ChildInSync(r, env.readFs) && CurrUnderParent(r, env.readFs)
  {
    var empty := AppState(DirList("", [], None), None, None, None, false);
    var withParent :=
      match env.parentOf(startDir)
      case None => empty
      case Some(parentPath) => empty.(parent := Some(ReadDir(parentPath, env.readFs)));
    DeriveChild(withParent.(curr := ReadDir(startDir, env.readFs)), env.readFs)
  }

  // ---------------------------------------------------------------------------
  // Properties of the key handling
  // ---------------------------------------------------------------------------

  const DownPress := KeyEvent(Down, Press)
  const UpPress := KeyEvent(Up, Press)
  const LeftPress := KeyEvent(Left, Press)
  const RightPress := KeyEvent(Right, Press)

  /** The state after pressing the same key n times. */
  function Presses(s: AppState, key: KeyEvent, n: nat, env: Env): AppState
    decreases n
  {
    if n == 0 then s else Step(Presses(s, key, n - 1, env), key, env)
  }

  function Min(a: nat, b: nat): nat {
    if a <= b then a else b
  }

  /** From no selection, n presses of Down select row min(n - 1, len): the
      selection stops one past the last row, never further, and on an empty
      listing it stops at 0. */
  lemma {:induction false} DownPressesStopPastLastRow(s: AppState, n: nat, env: Env)
    requires s.curr.selected == None && n > 0
    ensures Presses(s, DownPress, n, env).curr == s.curr.(selected := Some(Min(n - 1, |s.curr.entries|)))
    decreases n
  {
    if n > 1 {
      DownPressesStopPastLastRow(s, n - 1, env);
    }
  }

  /** At a root repeated Left presses are no-ops: once the parent slot is
      empty, any number of further presses leave the state as it is. */
  lemma {:induction false} AscendAtRootIsIdempotent(s: AppState, n: nat, env: Env)
    requires s.parent == None
    ensures Presses(s, LeftPress, n, env) == s
    decreases n
  {
    if n > 0 {
      AscendAtRootIsIdempotent(s, n - 1, env);
    }
  }

  /** Reaching a root by Left empties the parent slot, so every further Left
      press is a no-op. */
  lemma AscendToRootThenStays(s: AppState, n: nat, env: Env)
    requires s.parent.Some? && env.parentOf(s.parent.value.path) == None
    ensures Presses(Step(s, LeftPress, env), LeftPress, n, env) == Step(s, LeftPress, env)
  {
  }

  /** Every key but Left keeps the child slots in step with the selection. */
  lemma StepKeepsChildInSyncExceptAscend(s: AppState, key: KeyEvent, env: Env)
    requires ChildInSync(s, env.readFs)
    requires key.code != Left
    ensures ChildInSync(Step(s, key, env), env.readFs)
  {
  }

  /** With the child slots in step, Right on a directory enters exactly the
      listing of that directory, and the listing it left becomes the parent. */
  lemma DescendEntersSelectedDirectory(s: AppState, readFs: string -> ReadOutcome)
    requires ChildInSync(s, readFs)
    requires HasValidSelection(s.curr) && SelectedEntry(s.curr).isDir
    ensures Descend(s, readFs).curr == ReadDir(ChildPath(s.curr), readFs)
    ensures Descend(s, readFs).parent == Some(s.curr)
  {
  }

  // ---------------------------------------------------------------------------
  // Left does not derive the child again
  // ---------------------------------------------------------------------------

  /** Left as evidently intended: the same slot moves, followed by a child
      derivation from the selection the promoted listing carries. */
  function AscendIntended(s: AppState, env: Env): (r: AppState)
    ensures r.curr == Ascend(s, env).curr && r.parent == Ascend(s, env).parent && r.exit == s.exit
    ensures s.parent.Some? ==> ChildInSync(r, env.readFs)
  {
    DeriveChild(Ascend(s, env), env.readFs)
  }

  /** Key handling with the intended Left: it differs from the code as
      written only in the child slots, and it keeps them in step. */
  function StepIntended(s: AppState, key: KeyEvent, env: Env): (r: AppState)
    ensures key != LeftPress ==> r == Step(s, key, env)
    ensures var w := Step(s, key, env); r.curr == w.curr && r.parent == w.parent && r.exit == w.exit
    ensures ChildInSync(s, env.readFs) ==> ChildInSync(r, env.readFs)
  {
    if key == LeftPress then AscendIntended(s, env) else Step(s, key, env)
  }

  /** The two upper panes agree: whenever the parent listing has a valid
      selection, it is a directory and the current listing is that
      directory's read (an error listing when the read failed), up to the
      current selection. */
  predicate CurrUnderParent(s: AppState, readFs: string -> ReadOutcome) {
    s.parent.Some? && HasValidSelection(s.parent.value) ==>
      && SelectedEntry(s.parent.value).isDir
      && s.curr.(selected := None) == ReadDir(ChildPath(s.parent.value), readFs)
  }

  /** With the intended Left every key keeps the child slots in step with the
      selection and the current listing under the parent's selection. */
  lemma IntendedStepKeepsPanesConsistent(s: AppState, key: KeyEvent, env: Env)
    requires ChildInSync(s, env.readFs) && CurrUnderParent(s, env.readFs)
    ensures ChildInSync(StepIntended(s, key, env), env.readFs)
    ensures CurrUnderParent(StepIntended(s, key, env), env.readFs)
  {
  }

  /** The pane invariants hold after any sequence of keys handled with the
      intended Left, from any state that satisfies them. */
  lemma {:induction false} IntendedRunKeepsPanesConsistent(s: AppState, keys: seq<KeyEvent>, env: Env)
    requires ChildInSync(s, env.readFs) && CurrUnderParent(s, env.readFs)
    ensures ChildInSync(RunIntended(s, keys, env), env.readFs)
    ensures CurrUnderParent(RunIntended(s, keys, env), env.readFs)
    decreases |keys|
  {
    if keys != [] {
      IntendedStepKeepsPanesConsistent(s, keys[0], env);
      IntendedRunKeepsPanesConsistent(StepIntended(s, keys[0], env), keys[1..], env);
    }
  }

  /** Every state the intended key handling reaches from the start satisfies
      the pane invariants. */
  lemma ReachableIntendedStatesConsistent(startDir: string, keys: seq<KeyEvent>, env: Env)
    ensures ChildInSync(RunIntended(Initial(startDir, env), keys, env), env.readFs)
    ensures CurrUnderParent(RunIntended(Initial(startDir, env), keys, env), env.readFs)
  {
    IntendedRunKeepsPanesConsistent(Initial(startDir, env), keys, env);
  }

  /** With the intended Left, Left then Right enters afresh the directory the
      parent listing has selected, and the listing left becomes the parent
      again. When the panes agree, as in every reachable state, the current
      listing comes back (without its selection). */
  lemma IntendedAscendDescendRoundTrip(s: AppState, env: Env)
    requires s.parent.Some? && HasValidSelection(s.parent.value) && SelectedEntry(s.parent.value).isDir
    ensures var t := StepIntended(StepIntended(s, LeftPress, env), RightPress, env);
      && t.curr == ReadDir(ChildPath(s.parent.value), env.readFs)
      && t.parent == Some(s.parent.value)
      && (CurrUnderParent(s, env.readFs) ==> t.curr == s.curr.(selected := None))
  {
  }

  /** A small tree: "/" holds directory "x", "/x" holds directory "y", and
      "/x/y" holds file "f". */
  function DemoFs(path: string): ReadOutcome {
    if path == "/" then Listed([DirEntry("x", true)])
    else if path == "/x" then Listed([DirEntry("y", true)])
    else if path == "/x/y" then Listed([DirEntry("f", false)])
    else Failed("No such file or directory (os error 2)")
  }

  function DemoParent(path: string): Option<string> {
    if path == "/x/y" then Some("/x")
    else if path == "/x" then Some("/")
    else None
  }

  const DemoEnv := Env(DemoFs, DemoParent, 0)

  /** The state after a sequence of key events, as written and as intended. */
  function Run(s: AppState, keys: seq<KeyEvent>, env: Env): AppState
    decreases |keys|
  {
    if keys == [] then s else Run(Step(s, keys[0], env), keys[1..], env)
  }

  function RunIntended(s: AppState, keys: seq<KeyEvent>, env: Env): AppState
    decreases |keys|
  {
    if keys == [] then s else RunIntended(StepIntended(s, keys[0], env), keys[1..], env)
  }

  /** As written, Left leaves the child slots stale, and the next Right
      promotes that stale slot instead of the selected directory. Starting in
      "/x": Down selects "y/", Right enters "/x/y", Down selects the file "f"
      (which empties the child listing slot), Left returns to "/x" with "y/"
      still selected, and Right then stays in "/x", with "/x" also shown as
      its own parent, so the panes no longer agree. The intended Left ends
      the same presses in "/x/y". */
  lemma AscendLeavesChildStale()
    ensures var t := Run(Initial("/x", DemoEnv), [DownPress, RightPress, DownPress, LeftPress, RightPress], DemoEnv);
      t.curr.path == "/x" && t.parent == Some(t.curr) && !CurrUnderParent(t, DemoFs)
    ensures RunIntended(Initial("/x", DemoEnv), [DownPress, RightPress, DownPress, LeftPress, RightPress], DemoEnv).curr.path == "/x/y"
  {
    var root := DirList("/", [DirEntry("x", true)], None);
    var x := DirList("/x", [DirEntry("y", true)], None);
    var xy := DirList("/x/y", [DirEntry("f", false)], None);
    var xAtY := x.(selected := Some(0));
    SortSingleton(DirEntry("x", true));
    SortSingleton(DirEntry("y", true));
    SortSingleton(DirEntry("f", false));
    assert ReadDir("/", DemoFs) == root;
    assert ReadDir("/x", DemoFs) == x;
    assert "/x" + "/" + "y" == "/x/y";
    assert ReadDir("/x/y", DemoFs) == xy;
    assert "/x/y" + "/" + "f" == "/x/y/f";

    var s0 := Initial("/x", DemoEnv);
    assert s0 == AppState(x, Some(root), None, None, false);
    var s1 := Step(s0, DownPress, DemoEnv);
    assert s1 == AppState(xAtY, Some(root), Some(xy), None, false);
    var s2 := Step(s1, RightPress, DemoEnv);
    assert s2 == AppState(xy, Some(xAtY), Some(xy), None, false);
    var s3 := Step(s2, DownPress, DemoEnv);
    assert s3 == AppState(xy.(selected := Some(0)), Some(xAtY), None, Some(File("/x/y/f")), false);
    var s4 := Step(s3, LeftPress, DemoEnv);
    assert s4 == AppState(xAtY, Some(root), None, Some(File("/x/y/f")), false);
    var s5 := Step(s4, RightPress, DemoEnv);
    assert s5 == AppState(xAtY, Some(xAtY), Some(xy), None, false);
    assert Run(s4, [RightPress], DemoEnv) == s5;
    assert Run(s3, [LeftPress, RightPress], DemoEnv) == s5;
    assert Run(s2, [DownPress, LeftPress, RightPress], DemoEnv) == s5;
    assert Run(s1, [RightPress, DownPress, LeftPress, RightPress], DemoEnv) == s5;

    var i4 := StepIntended(s3, LeftPress, DemoEnv);
    assert i4 == AppState(xAtY, Some(root), Some(xy), None, false);
    var i5 := StepIntended(i4, RightPress, DemoEnv);
    assert i5.curr == xy;
    assert RunIntended(i4, [RightPress], DemoEnv) == i5;
    assert RunIntended(s3, [LeftPress, RightPress], DemoEnv) == i5;
    assert RunIntended(s2, [DownPress, LeftPress, RightPress], DemoEnv) == i5;
    assert RunIntended(s1, [RightPress, DownPress, LeftPress, RightPress], DemoEnv) == i5;
  }
}
