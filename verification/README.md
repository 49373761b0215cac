# fex navigator in Dafny

fex is a three-pane terminal directory browser. This project models its
navigation state, the `App` struct in `src/main.rs`. The state has five parts:

- the current listing: a path, its entries and the list selection;
- an optional parent listing;
- an optional child listing or child file, which previews the selected entry;
- the exit flag.

Key presses move the selection (Down, Up), go to the parent directory (Left),
enter the selected directory (Right) or quit (`q`).

The project has three modules:

- `Listing` (listing.dfy) covers directory entries and listings. It defines
  the sort key `(!is_dir, name)` as a total order and sorts by it as a pure
  function. It also defines `read_dir`, with the filesystem as an oracle, and
  the row label that the panes show.
- `Navigation` (navigation.dfy) holds the `App` fields as a value, `AppState`.
  Each method of `App` becomes a function from the old state to the new one.
  The module also holds the lemmas about these functions.
- `Browser` (browser.dfy) holds the class `App`. Its fields are updated in
  place by methods that follow the source's statements. Each method is proved
  to produce the state the matching `Navigation` function gives.

The outside world is passed in as `Navigation.Env`:

- `readFs(path)` is the filesystem's answer to listing a path. It gives either
  the children, in any order, or an error message.
- `parentOf(path)` is `Path::parent`: the path's lexical parent, or none at a
  root.
- `selectPreviousFromNone` is the row that the list widget's `select_previous`
  picks when nothing is selected. The program does not decide this; the
  library does.

An `Env` is given with every event, so the filesystem may differ from one key
press to the next.

The model follows the code in these places, where a reader might expect otherwise:

- A fresh listing has no selection; it is not set to the first row. So the
  initial state has empty child slots (`Navigation.Initial`).
- Down stops one past the last row (`min(n - 1, len)` after n presses). The
  list widget draws such a selection on the last row (see "## Left out"). On
  an empty listing it selects row 0.
- Left keeps the selection that the parent listing carries, and it does not
  derive the child again.
- A failed read is not a separate error slot. It is a listing with path
  "Ciao matti" and one file entry named by the error message. That listing
  can be selected and navigated like any other.

## Model

| member | source | states |
|---|---|---|
| `Listing.NameLe` | src/main.rs:275 | byte-wise name order, walking both names from the front: a prefix of a name sorts before it |
| `Listing.NameLeIsLexicographic` | src/main.rs:275 | the name order is the lexicographic order: the first name is a prefix of the second, or it has the smaller character at the first position where they differ |
| `Listing.EntryLe` | src/main.rs:275 | the key `(!is_dir, name)` compared as a tuple: a directory comes before a file, and two entries of the same kind compare by name |
| `Listing.NameLeTotal` | src/main.rs:275 | any two names are comparable under byte-wise lexicographic order |
| `Listing.NameLeAntisymmetric` | src/main.rs:275 | names that are each at most the other are equal |
| `Listing.NameLeTransitive` | src/main.rs:275 | the name order is transitive |
| `Listing.EntryLeTotal` | src/main.rs:275 | the key order `(!is_dir, name)` is total |
| `Listing.EntryLeAntisymmetric` | src/main.rs:275 | entries with equal keys are the same entry, so the unstable sort has no ties to break |
| `Listing.EntryLeTransitive` | src/main.rs:275 | the key order is transitive |
| `Listing.Insert` | src/main.rs:275 | inserting into a sorted sequence gives a sorted sequence with the same elements plus the new one |
| `Listing.SortEntries` | src/main.rs:275 | the result is sorted by the key and is a permutation of the input |
| `Listing.SortedPermutationUnique` | src/main.rs:275 | two sorted permutations of the same entries are equal, so the sort's result does not depend on its input order |
| `Listing.ReadDir` | src/main.rs:256-292 | the selection is unset. On success: the path is the argument, the entries are a permutation of the filesystem's, directories come before files, and names ascend within each group. On failure: the path is "Ciao matti" and there is exactly one entry, a file named by the error message |
| `Listing.ReadDirIgnoresReportedOrder` | src/main.rs:257-281 | two filesystem answers with the same children in any order give the same listing |
| `Listing.Label` | src/main.rs:297-298 | the label is the entry's name, followed by exactly one more character, "/", for a directory and by nothing for a file |
| `Listing.LabelDistinguishesEntries` | src/main.rs:296-299 | when names contain no "/", a label ends in "/" exactly for directories, and distinct entries have distinct labels |
| `Navigation.CheckParentIsRoot` | src/main.rs:251-254 | true exactly when the path has no parent |
| `Navigation.FindParDir` | src/main.rs:245-249 | callable only when the path has a parent (the source panics otherwise), and returns that parent |
| `Navigation.NextSelected` | src/main.rs:164-177 | no selection becomes row 0. Row i below the length becomes i + 1. Row i at or past the length stays unchanged. The selection never decreases, and it never passes the length unless it already had |
| `Navigation.PreviousSelected` | src/main.rs:123 | moves one row up and stops at row 0. From no selection it picks the library's choice |
| `Navigation.NextPreviousRoundTrip` | src/main.rs:118-125 | Down then Up restores a valid selection. Up then Down restores a selection in 1..len |
| `Navigation.DeriveChild` | src/main.rs:222-243 | only the child slots change. Without a valid selection (none, or index >= len) nothing changes. With one, exactly one child slot is filled, and the slots then match the selection (a read of path/name for a directory, a file path/name otherwise). It is a no-op when the slots already match |
| `Navigation.DeriveChildDependsOnCurrentOnly` | src/main.rs:222-243 | with a valid selection, the derived child slots depend only on the current listing, not on the previous slots |
| `Navigation.CopyIntoCurr` | src/main.rs:179-200 | only the current slot changes: it takes a fresh read, the parent, or the child listing, and stays unchanged for Current and Nothing or when the source slot is empty |
| `Navigation.CopyIntoParent` | src/main.rs:202-220 | only the parent slot changes: it is cleared, takes a fresh read, or takes the current listing, and stays unchanged for Parent and Child |
| `Navigation.MoveDown` | src/main.rs:118-121 | the current listing takes the next selection. The parent and the exit flag do not change. The child slots match the new selection |
| `Navigation.MoveUp` | src/main.rs:122-125 | the current listing takes the previous selection. The parent and the exit flag do not change. The child slots match the new selection, or stay as they were when the new selection is not valid |
| `Navigation.Ascend` | src/main.rs:126-140 | with no parent, nothing changes. Otherwise the current slot becomes the old parent listing, selection included. The parent becomes empty exactly when the old parent path has no parent, and otherwise a read of that path's parent. The child slots are untouched. The parent lookup is reached only when it cannot fail |
| `Navigation.Descend` | src/main.rs:141-159 | without a valid selection, nothing changes. On a file, only the child is derived. On a directory, the parent becomes the old current listing and the current slot becomes the old child listing (or stays when there is none). When that listing is a fresh read, the following derivation leaves the child slots as they were |
| `Navigation.Step` | src/main.rs:112-162 | non-press events change nothing. `q` sets the exit flag and changes nothing else. Other characters and keys change nothing. The exit flag is only ever set. The slot shape invariant is preserved |
| `Navigation.Initial` | src/main.rs:67-79 | the current slot is a read of the start directory with no selection. The parent is a read of its parent, or empty at a root. The child slots are empty and the exit flag is unset. The child slots match the selection and the panes agree (`CurrUnderParent`) |
| `Navigation.DownPressesStopPastLastRow` | src/main.rs:164-177 | from no selection, n presses of Down select row min(n - 1, len) and change nothing else in the current listing |
| `Navigation.AscendAtRootIsIdempotent` | src/main.rs:126-127 | with no parent, any number of Left presses leaves the state unchanged |
| `Navigation.AscendToRootThenStays` | src/main.rs:129-132 | after a Left that reaches a root, further Left presses change nothing |
| `Navigation.StepKeepsChildInSyncExceptAscend` | src/main.rs:112-162 | every key except Left keeps the child slots matching the current selection |
| `Navigation.DescendEntersSelectedDirectory` | src/main.rs:149-153 | when the child slots match the selection, Right on a directory enters exactly that directory's read, and the old listing becomes the parent |
| `Navigation.AscendIntended` | src/main.rs:126-139 | Left followed by a child derivation: the same slot moves, and afterwards the child slots match the promoted selection |
| `Navigation.StepIntended` | src/main.rs:112-162 | key handling with the intended Left. Any key other than a Left press is handled as written. For every key the current listing, the parent and the exit flag are those of the code as written, so only the child slots differ. The child slots stay matched to the selection |
| `Navigation.IntendedStepKeepsPanesConsistent` | src/main.rs:112-162 | with the intended Left, every key keeps the child slots matching the selection and keeps the current listing equal to the read of the directory the parent has selected, whenever the parent has a valid selection |
| `Navigation.IntendedRunKeepsPanesConsistent` | src/main.rs:112-162 | the same two invariants hold after any sequence of keys handled with the intended Left |
| `Navigation.ReachableIntendedStatesConsistent` | src/main.rs:67-79 | every state reached from the start by keys handled with the intended Left satisfies both invariants |
| `Navigation.IntendedAscendDescendRoundTrip` | src/main.rs:126-159 | with the intended Left, Left then Right enters afresh the directory the parent has selected, and the listing left becomes the parent again. When the panes agree, as in every reachable state, the current listing comes back without its selection |
| `Navigation.AscendLeavesChildStale` | src/main.rs:126-159 | as written, the presses Down, Right, Down, Left, Right from "/x" end in "/x", with "/x" also as its own parent, so the panes no longer agree. With the intended Left they end in "/x/y" |
| `Browser.App.constructor` | src/main.rs:63-79 | the fields after `App::default()` and the setup in `run` equal `Initial` |
| `Browser.App.HandleEvents` | src/main.rs:112-162 | the fields after the call equal `Step` of the fields before it. The slot shape invariant is preserved |
| `Browser.App.SelectNext` | src/main.rs:164-177 | only the selection changes, to `NextSelected` of the old listing |
| `Browser.App.UpdateCurrDir` | src/main.rs:179-200 | the fields become `CopyIntoCurr` of the old fields |
| `Browser.App.UpdateParentDir` | src/main.rs:202-220 | the fields become `CopyIntoParent` of the old fields |
| `Browser.App.UpdateChildDir` | src/main.rs:222-243 | the fields become `DeriveChild` of the old fields, and the child slots then match the selection |

## Findings

| source | as written | input that shows it | evidently intended | confidence | as-written member | corrected member |
|---|---|---|---|---|---|---|
| src/main.rs:126-139 | Left moves the parent listing, with its selection, into the current slot but does not call `update_child_dir`. The child slots still describe the directory that was left. The next Right promotes that stale child listing, or when the child slot holds a file it promotes nothing and makes the current listing its own parent | start in "/x", which holds directory "y"; "/x/y" holds file "f". Press Down, Right, Down, Left, Right: the current path is "/x" and the parent is "/x" | Right after Left enters "/x/y", and the child slots match the current selection after every key | high; not executed | `Navigation.AscendLeavesChildStale` | `Navigation.AscendIntended` |

`Browser.App.HandleEvents` and `Navigation.Step` model the code as written.
The intended behaviour is `Navigation.StepIntended`, which uses
`Navigation.AscendIntended` for Left. The pane invariants
(`Navigation.ReachableIntendedStatesConsistent`) and
`Navigation.IntendedAscendDescendRoundTrip` are proved about it.

## Left out

- Terminal setup and teardown, the event loop, `draw_ui`, and widget and
  layout construction are terminal I/O (src/main.rs:64-66, 81-110, 295-355
  and 358-368). Only the row label rule from the render functions is kept.
- When the list widget renders, it clamps a selection that is past the end
  to the last row. That library code is not part of this model. The model
  keeps a selection one past the end until a key moves it, so after Down
  past the last row the two differ. In the program, the next Up lands one
  row above the last and a Right opens the last entry. In the model, Up lands
  on the last row and Right does nothing.
- `std::env::current_dir`, `std::fs::read_dir` and `Path::parent` are
  oracles: the start path and the `Env` fields. The per-entry `expect` panics
  in `read_dir` (src/main.rs:262-268) and the lossy string conversions are
  not modelled.
- `PreviousSelected`: its result from no selection is a parameter, because
  the program leaves that case to the list widget's library.
- The unused `is_highlighted` field, the list scroll offset and the styling
  constants are left out. They carry no navigation logic.
- Names are compared as sequences of characters. This matches Rust's
  byte-wise comparison of UTF-8 strings, because UTF-8 byte order agrees with
  code-point order.
