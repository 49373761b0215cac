/** Directory listings: entries, the order `read_dir` sorts them in, the
    listing it builds from a filesystem read, and the row label the panes show. */
module Listing {

  datatype Option<T> = None | Some(value: T)

  /** One child of a directory. The unused highlight flag of the source is dropped. */
  datatype DirEntry = DirEntry(name: string, isDir: bool)

  /** A listing: its path, its entries and the list widget's selection
      (`ListState::selected`; the scroll offset is not modelled). */
  datatype DirList = DirList(path: string, entries: seq<DirEntry>, selected: Option<nat>)

  /** The preview of a selected non-directory entry. */
  datatype File = File(path: string)

  /** What the filesystem answers when asked to list a directory: its children
      in whatever order the OS yields them, or the error's message. */
  datatype ReadOutcome = Listed(entries: seq<DirEntry>) | Failed(message: string)

  /** The path `read_dir` puts on the listing it builds when the read fails. */
  const ErrorPath: string := "Ciao matti"

  // ---------------------------------------------------------------------------
  // The sort key (!is_dir, name)
  // ---------------------------------------------------------------------------

  /** Byte-wise lexicographic order on names, as Rust orders `String`s
      (UTF-8 byte order coincides with code-point order on characters),
      defined by walking both names from the front. A prefix comes first. */
  predicate NameLe(a: string, b: string)
    ensures a <= b ==> NameLe(a, b)
    decreases |a|
  {
    if |a| == 0 then true
    else if |b| == 0 then false
    else if a[0] < b[0] then true
    else if a[0] > b[0] then false
    else
      assert a <= b ==> a[1..] <= b[1..];
      NameLe(a[1..], b[1..])
  }

  /** The name order is the usual lexicographic order: `a` is a prefix of
      `b`, or at the first position where they differ `a` has the smaller
      character. */
  lemma {:induction false} NameLeIsLexicographic(a: string, b: string)
    ensures NameLe(a, b) <==>
      (a <= b || exists k :: 0 <= k < |a| && k < |b| && a[..k] == b[..k] && a[k] < b[k])
    decreases |a|
  {
    if |a| > 0 && |b| > 0 {
      if a[0] < b[0] {
        assert a[..0] == b[..0];
      } else if a[0] == b[0] {
        NameLeIsLexicographic(a[1..], b[1..]);
        assert a <= b <==> a[1..] <= b[1..] by {
          assert a == [a[0]] + a[1..] && b == [b[0]] + b[1..];
        }
        forall k | 0 <= k < |a[1..]| && k < |b[1..]| && a[1..][..k] == b[1..][..k] && a[1..][k] < b[1..][k]
          ensures 0 <= k + 1 < |a| && k + 1 < |b| && a[..k + 1] == b[..k + 1] && a[k + 1] < b[k + 1]
        {
          assert a[..k + 1] == [a[0]] + a[1..][..k];
          assert b[..k + 1] == [b[0]] + b[1..][..k];
        }
        forall k | 0 <= k < |a| && k < |b| && a[..k] == b[..k] && a[k] < b[k]
          ensures 0 <= k - 1 < |a[1..]| && k - 1 < |b[1..]| && a[1..][..k - 1] == b[1..][..k - 1] && a[1..][k - 1] < b[1..][k - 1]
        {
          assert a[1..][..k - 1] == a[..k][1..];
          assert b[1..][..k - 1] == b[..k][1..];
        }
      }
    }
  }

  /** The order of the key (!is_dir, name): `false < true`, so directories
      come first, then names ascend within each group. */
  predicate EntryLe(x: DirEntry, y: DirEntry)
    ensures x.isDir != y.isDir ==> (EntryLe(x, y) <==> x.isDir)
    ensures x.isDir == y.isDir ==> (EntryLe(x, y) <==> NameLe(x.name, y.name))
  {
    (x.isDir && !y.isDir) || (x.isDir == y.isDir && NameLe(x.name, y.name))
  }

  predicate Sorted(es: seq<DirEntry>) {
    forall i, j :: 0 <= i < j < |es| ==> EntryLe(es[i], es[j])
  }

  lemma {:induction false} NameLeTotal(a: string, b: string)
    ensures NameLe(a, b) || NameLe(b, a)
    decreases |a|
  {
    if |a| > 0 && |b| > 0 && a[0] == b[0] {
      NameLeTotal(a[1..], b[1..]);
    }
  }

  lemma {:induction false} NameLeAntisymmetric(a: string, b: string)
    requires NameLe(a, b) && NameLe(b, a)
    ensures a == b
    decreases |a|
  {
    if |a| > 0 {
      NameLeAntisymmetric(a[1..], b[1..]);
      assert a == [a[0]] + a[1..] && b == [b[0]] + b[1..];
    }
  }

  lemma {:induction false} NameLeTransitive(a: string, b: string, c: string)
    requires NameLe(a, b) && NameLe(b, c)
    ensures NameLe(a, c)
    decreases |a|
  {
    if |a| > 0 && a[0] == b[0] && b[0] == c[0] {
      NameLeTransitive(a[1..], b[1..], c[1..]);
    }
  }

  /** The key order is total: any two entries are comparable. */
  lemma EntryLeTotal(x: DirEntry, y: DirEntry)
    ensures EntryLe(x, y) || EntryLe(y, x)
  {
    NameLeTotal(x.name, y.name);
  }

  /** Two entries with the same key are the same entry, so the unstable sort
      has no ties to break arbitrarily. */
  lemma EntryLeAntisymmetric(x: DirEntry, y: DirEntry)
    requires EntryLe(x, y) && EntryLe(y, x)
    ensures x == y
  {
    NameLeAntisymmetric(x.name, y.name);
  }

  lemma EntryLeTransitive(x: DirEntry, y: DirEntry, z: DirEntry)
    requires EntryLe(x, y) && EntryLe(y, z)
    ensures EntryLe(x, z)
  {
    if x.isDir == y.isDir && y.isDir == z.isDir {
      NameLeTransitive(x.name, y.name, z.name);
    }
  }

  // ---------------------------------------------------------------------------
  // Sorting (the `sort_unstable_by_key` on the collected entries)
  // ---------------------------------------------------------------------------

  /** Prepending an entry that is below every element keeps a sorted sequence sorted. */
  lemma PrependSorted(x: DirEntry, es: seq<DirEntry>)
    requires Sorted(es)
    requires forall y :: y in es ==> EntryLe(x, y)
    ensures Sorted([x] + es)
  {
  }

  /** Inserts one entry at its place in a sorted sequence. */
  function Insert(e: DirEntry, es: seq<DirEntry>): (r: seq<DirEntry>)
    requires Sorted(es)
    ensures Sorted(r)
    ensures multiset(r) == multiset(es) + multiset{e}
    decreases |es|
  {
    if es == [] then [e]
    else if EntryLe(e, es[0]) then
      assert forall y :: y in es ==> EntryLe(e, y) by {
        forall y | y in es ensures EntryLe(e, y) {
          var k :| 0 <= k < |es| && es[k] == y;
          if k > 0 { EntryLeTransitive(e, es[0], y); }
        }
      }
      PrependSorted(e, es);
      [e] + es
    else
      var tail := Insert(e, es[1..]);
      assert es == [es[0]] + es[1..];
      assert forall y :: y in tail ==> EntryLe(es[0], y) by {
        forall y | y in tail ensures EntryLe(es[0], y) {
          assert y in multiset(tail);
          if y == e {
            EntryLeTotal(e, es[0]);
          } else {
            assert y in multiset(es[1..]);
            var k :| 0 <= k < |es[1..]| && es[1..][k] == y;
            assert es[k + 1] == y;
          }
        }
      }
      PrependSorted(es[0], tail);
      [es[0]] + tail
  }

  /** Sorts entries by the key (!is_dir, name). */
  function SortEntries(es: seq<DirEntry>): (r: seq<DirEntry>)
    ensures Sorted(r)
    ensures multiset(r) == multiset(es)
    decreases |es|
  {
    if es == [] then []
    else
      assert es == [es[0]] + es[1..];
      Insert(es[0], SortEntries(es[1..]))
  }

  lemma SortedTail(s: seq<DirEntry>)
    requires Sorted(s) && s != []
    ensures Sorted(s[1..])
    ensures multiset(s[1..]) == multiset(s) - multiset{s[0]}
  {
    assert s == [s[0]] + s[1..];
  }

  /** Two sorted permutations of each other start with the same entry. */
  lemma SortedHeadsEqual(a: seq<DirEntry>, b: seq<DirEntry>)
    requires Sorted(a) && Sorted(b) && a != []
    requires multiset(a) == multiset(b)
    ensures b != [] && a[0] == b[0]
  {
    assert a[0] in multiset(b);
    var j :| 0 <= j < |b| && b[j] == a[0];
    assert b[0] in multiset(a);
    var k :| 0 <= k < |a| && a[k] == b[0];
    if a[0] != b[0] {
      assert EntryLe(b[0], b[j]) && EntryLe(a[0], a[k]);
      EntryLeAntisymmetric(a[0], b[0]);
    }
  }

  /** A sorted permutation is unique: whatever order the filesystem lists
      entries in, and whichever equal-key order an unstable sort picks, the
      sorted result is the same sequence. */
  lemma {:induction false} SortedPermutationUnique(a: seq<DirEntry>, b: seq<DirEntry>)
    requires Sorted(a) && Sorted(b)
    requires multiset(a) == multiset(b)
    ensures a == b
    decreases |a|
  {
    if a == [] {
      assert |multiset(b)| == 0;
    } else {
      SortedHeadsEqual(a, b);
      SortedTail(a);
      SortedTail(b);
      SortedPermutationUnique(a[1..], b[1..]);
      assert a == [a[0]] + a[1..] && b == [b[0]] + b[1..];
    }
  }

  // ---------------------------------------------------------------------------
  // read_dir
  // ---------------------------------------------------------------------------

  /** Builds the listing of `path` from the filesystem's answer `readFs(path)`:
      on success the entries sorted with directories first and names ascending
      within each group, on failure a one-entry listing carrying the message.
      Either way the listing starts with no selection. */
  function ReadDir(path: string, readFs: string -> ReadOutcome): (r: DirList)
    ensures r.selected == None
    ensures readFs(path).Listed? ==>
      && r.path == path
      && multiset(r.entries) == multiset(readFs(path).entries)
      && (forall i, j :: 0 <= i < j < |r.entries| && r.entries[j].isDir ==> r.entries[i].isDir)
      && (forall i, j :: 0 <= i < j < |r.entries| && r.entries[i].isDir == r.entries[j].isDir ==>
            NameLe(r.entries[i].name, r.entries[j].name))
    ensures readFs(path).Failed? ==>
      && r.path == ErrorPath
      && |r.entries| == 1
      && !r.entries[0].isDir
      && r.entries[0].name == readFs(path).message
  {
    match readFs(path)
    case Listed(entries) =>
      var sorted := SortEntries(entries);
      assert forall i, j :: 0 <= i < j < |sorted| ==> EntryLe(sorted[i], sorted[j]);
      DirList(path, sorted, None)
    case Failed(message) =>
      DirList(ErrorPath, [DirEntry(message, false)], None)
  }

  /** Sorting a single entry leaves it alone. */
  lemma SortSingleton(e: DirEntry)
    ensures SortEntries([e]) == [e]
  {
  }

  /** The listing depends on the set of children only, not on the order the
      filesystem reports them in. */
  lemma ReadDirIgnoresReportedOrder(path: string, fs1: string -> ReadOutcome, fs2: string -> ReadOutcome)
    requires fs1(path).Listed? && fs2(path).Listed?
    requires multiset(fs1(path).entries) == multiset(fs2(path).entries)
    ensures ReadDir(path, fs1) == ReadDir(path, fs2)
  {
    SortedPermutationUnique(ReadDir(path, fs1).entries, ReadDir(path, fs2).entries);
  }

  // ---------------------------------------------------------------------------
  // Row labels
  // ---------------------------------------------------------------------------

  /** The row a pane shows for an entry: its name, with "/" appended for a directory. */
  function Label(e: DirEntry): (s: string)
    ensures |s| == |e.name| + (if e.isDir then 1 else 0)
    ensures s[..|e.name|] == e.name
    ensures e.isDir ==> s[|s| - 1] == '/'
  {
    if e.isDir then e.name + "/" else e.name
  }

  /** Entry names never contain the separator, so the label tells directories
      from files, and different entries get different labels. */
  lemma LabelDistinguishesEntries(x: DirEntry, y: DirEntry)
    requires '/' !in x.name && '/' !in y.name
    ensures (|Label(x)| > 0 && Label(x)[|Label(x)| - 1] == '/') <==> x.isDir
    ensures Label(x) == Label(y) ==> x == y
  {
    if !x.isDir && |x.name| > 0 {
      assert x.name[|x.name| - 1] in x.name;
    }
    if Label(x) == Label(y) && x.isDir == y.isDir && x.isDir {
      assert x.name == Label(x)[..|x.name|] == Label(y)[..|y.name|] == y.name;
    }
  }
}
