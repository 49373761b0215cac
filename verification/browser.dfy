/** The application object: the fields of `App` updated in place by the key
    handler and its helpers, each method proved to perform the transition
    module Navigation defines for it. */
module Browser {
  import opened Listing
  import opened Navigation

  class App {
    var currDir: DirList
    var parentDir: Option<DirList>
    var childDir: Option<DirList>
    var childFile: Option<File>
    var exit: bool

    /** The fields as one value. */
    function State(): AppState
      reads this
    {
      AppState(currDir, parentDir, childDir, childFile, exit)
    }

    /** `App::default()` followed by the setup `run` performs before its loop:
        read the parent of the start directory if it has one, read the start
        directory, derive the child. */
    constructor (startDir: string, env: Env)
      ensures State() == Initial(startDir, env)
      ensures SlotsWellFormed(State()) && ChildInSync(State(), env.readFs)
    {
      currDir := DirList("", [], None);
      parentDir := None;
      childDir := None;
      childFile := None;
      exit := false;
      new;
      match env.parentOf(startDir) {
        case None =>
        case Some(parentPath) =>
          parentDir := Some(ReadDir(parentPath, env.readFs));
      }
      currDir := ReadDir(startDir, env.readFs);
      UpdateChildDir(env.readFs);
    }

    /** `handle_events`. */
    method HandleEvents(key: KeyEvent, env: Env)
      modifies this
      ensures State() == Step(old(State()), key, env)
      ensures SlotsWellFormed(old(State())) ==> SlotsWellFormed(State())
    {
      if key.kind != Press {
        return;
      }
      match key.code {
        case Char(c) =>
          if c == 'q' {
            exit := true;
          }
        case Down =>
          SelectNext();
          UpdateChildDir(env.readFs);
        case Up =>
          currDir := PreviousSelected(currDir, env.selectPreviousFromNone);
          UpdateChildDir(env.readFs);
        case Left =>
          if parentDir.Some? {
            var parentPath := parentDir.value.path;
            var parentIsRoot := CheckParentIsRoot(parentPath, env.parentOf);
            if parentIsRoot {
              UpdateCurrDir(Parent, env.readFs);
              UpdateParentDir(Nothing, env.readFs);
            } else {
              UpdateCurrDir(Parent, env.readFs);
              UpdateParentDir(Path(FindParDir(currDir.path, env.parentOf)), env.readFs);
            }
          }
        case Right =>
          match currDir.selected {
            case None =>
              return;
            case Some(selectedEntry) =>
              if selectedEntry >= |currDir.entries| {
                return;
              }
              if currDir.entries[selectedEntry].isDir {
                UpdateParentDir(Current, env.readFs);
                UpdateCurrDir(Child, env.readFs);
                UpdateChildDir(env.readFs);
              } else {
                UpdateChildDir(env.readFs);
              }
          }
        case OtherKey =>
      }
    }

    /** `select_next`. */
    method SelectNext()
      modifies this
      ensures State() == old(State()).(curr := NextSelected(old(currDir)))
    {
      match currDir.selected {
        case None =>
          currDir := currDir.(selected := Some(0));
        case Some(selectedEntry) =>
          if selectedEntry >= |currDir.entries| {
            return;
          }
          currDir := currDir.(selected := Some(selectedEntry + 1));
      }
    }

    /** `update_curr_dir`. */
    method UpdateCurrDir(copy: CopyDirType, readFs: string -> ReadOutcome)
      modifies this
      ensures State() == CopyIntoCurr(old(State()), copy, readFs)
    {
      match copy {
        case Path(path) =>
          currDir := ReadDir(path, readFs);
        case Parent =>
          if parentDir.Some? {
            currDir := parentDir.value;
          }
        case Current =>
          return;
        case Child =>
          if childDir.Some? {
            currDir := childDir.value;
          }
        case Nothing =>
      }
    }

    /** `update_parent_dir`. */
    method UpdateParentDir(copy: CopyDirType, readFs: string -> ReadOutcome)
      modifies this
      ensures State() == CopyIntoParent(old(State()), copy, readFs)
    {
      match copy {
        case Nothing =>
          parentDir := None;
        case Path(path) =>
          parentDir := Some(ReadDir(path, readFs));
        case Parent =>
          return;
        case Current =>
          parentDir := Some(currDir);
        case Child =>
          return;
      }
    }

    /** `update_child_dir`. */
    method UpdateChildDir(readFs: string -> ReadOutcome)
      modifies this
      ensures State() == DeriveChild(old(State()), readFs)
      ensures ChildInSync(State(), readFs)
    {
      match currDir.selected {
        case None =>
          return;
        case Some(selectedEntry) =>
          if selectedEntry >= |currDir.entries| {
            return;
          }
          var entry := currDir.entries[selectedEntry];
          if entry.isDir {
            var dir := currDir.path + "/" + entry.name;
            childDir := Some(ReadDir(dir, readFs));
            childFile := None;
          } else {
            childFile := Some(File(currDir.path + "/" + entry.name));
            childDir := None;
          }
      }
    }
  }
}
