/**
  `handle_path` of `hvm/src/translator.rs` without the file system: which
  directory entries are translated, in which order, and where the output
  goes.

  A path is the sequence of its normal components; what the file system
  reports (whether a path is a file or a directory, and a directory's
  entries) is given as data.
 */
module HvmFiles {
  import opened Wrappers

  // ---------------------------------------------------------------------------
  // File names

  /** The index of the last '.' in `name`, if any. */
  function LastDot(name: string): (r: Option<nat>)
    ensures r.Some? ==> r.value < |name| && name[r.value] == '.' && '.' !in name[r.value + 1..]
    ensures r.None? ==> '.' !in name
  {
    if |name| == 0 then None
    else if name[|name| - 1] == '.' then Some(|name| - 1)
    else
      var r := LastDot(name[..|name| - 1]);
      assert name[..|name| - 1] + [name[|name| - 1]] == name;
      if r.Some? then
        assert name[r.value + 1..] == name[..|name| - 1][r.value + 1..] + [name[|name| - 1]];
        r
      else r
  }

  /**
    `Path::extension`: the text after the last '.', unless there is no '.'
    or the only one starts the name.
   */
  function Extension(name: string): Option<string> {
    match LastDot(name)
    case Some(i) => if i == 0 then None else Some(name[i + 1..])
    case None => None
  }

  /** `Path::file_stem`: the name without its extension. */
  function Stem(name: string): string {
    match LastDot(name)
    case Some(i) => if i == 0 then name else name[..i]
    case None => name
  }

  /** A name with an extension is its stem, a dot and the extension. */
  lemma StemExtension(name: string)
    requires Extension(name).Some?
    ensures Stem(name) + "." + Extension(name).value == name
    ensures Stem(name) != ""
  {
    var i := LastDot(name).value;
    assert name == name[..i] + "." + name[i + 1..];
  }

  /** Adding an extension to a non-empty stem is undone by `Stem` and `Extension`. */
  lemma ExtensionOfJoin(stem: string, ext: string)
    requires stem != "" && '.' !in ext
    ensures Extension(stem + "." + ext) == Some(ext)
    ensures Stem(stem + "." + ext) == stem
  {
    var name := stem + "." + ext;
    LastDotBeforeExtension(stem, ext);
    assert name[..|stem|] == stem && name[|stem| + 1..] == ext;
  }

  /** The last dot of `stem.ext` is the one before `ext` when `ext` has none. */
  lemma {:induction false} LastDotBeforeExtension(stem: string, ext: string)
    requires '.' !in ext
    ensures LastDot(stem + "." + ext) == Some(|stem|)
    decreases |ext|
  {
    var name := stem + "." + ext;
    if |ext| > 0 {
      var shorter := ext[..|ext| - 1];
      assert name[..|name| - 1] == stem + "." + shorter;
      assert name[|name| - 1] == ext[|ext| - 1];
      LastDotBeforeExtension(stem, shorter);
    }
  }

  // ---------------------------------------------------------------------------
  // Which files are translated

  /** A directory entry as `read_dir` reports it. */
  datatype Entry = Entry(name: string, isFile: bool)

  /** What the input path turned out to be. */
  datatype Kind = IsFile | IsDir(entries: seq<Entry>) | Neither

  predicate IsVmFile(e: Entry) {
    e.isFile && Extension(e.name) == Some("vm")
  }

  /** The directory's `.vm` files, in listing order. */
  function VmEntries(entries: seq<Entry>): (r: seq<string>)
    ensures |r| <= |entries|
  {
    if |entries| == 0 then []
    else (if IsVmFile(entries[0]) then [entries[0].name] else []) + VmEntries(entries[1..])
  }

  /** A name is selected exactly when some entry with that name is a file whose extension is `vm`. */
  lemma {:induction false} VmEntriesSelect(entries: seq<Entry>, name: string)
    ensures name in VmEntries(entries) <==> exists i | 0 <= i < |entries| :: entries[i].name == name && IsVmFile(entries[i])
  {
    if |entries| > 0 {
      VmEntriesSelect(entries[1..], name);
      if name in VmEntries(entries[1..]) {
        var i :| 0 <= i < |entries[1..]| && entries[1..][i].name == name && IsVmFile(entries[1..][i]);
        assert entries[i + 1] == entries[1..][i];
      }
      if exists i | 0 <= i < |entries| :: entries[i].name == name && IsVmFile(entries[i]) {
        var i :| 0 <= i < |entries| && entries[i].name == name && IsVmFile(entries[i]);
        if i > 0 {
          assert entries[1..][i - 1] == entries[i];
        }
      }
    }
  }

  /**
    The files to translate, as names: the path itself when it is a `.vm`
    file, the `.vm` files of a directory, and nothing otherwise.
   */
  function Selected(path: seq<string>, kind: Kind): seq<string> {
    match kind
    case IsFile => if |path| > 0 && Extension(path[|path| - 1]) == Some("vm") then [path[|path| - 1]] else []
    case IsDir(entries) => VmEntries(entries)
    case Neither => []
  }

  // ---------------------------------------------------------------------------
  // Ordering: Sys.vm last, the rest by name

  const SYS: string := "Sys.vm"

  datatype Ordering = Less | Equal | Greater

  /** `str::cmp`: lexicographic by character (the byte order of UTF-8 is the character order). */
  function StrCmp(a: string, b: string): Ordering {
    if |a| == 0 then (if |b| == 0 then Equal else Less)
    else if |b| == 0 then Greater
    else if a[0] < b[0] then Less
    else if a[0] > b[0] then Greater
    else StrCmp(a[1..], b[1..])
  }

  /** The comparator of `files.sort_by`. */
  function FileOrder(a: string, b: string): Ordering {
    if a == SYS then Greater
    else if b == SYS then Less
    else StrCmp(a, b)
  }

  lemma {:induction false} StrCmpEqual(a: string, b: string)
    ensures StrCmp(a, b) == Equal <==> a == b
  {
    if |a| > 0 && |b| > 0 && a[0] == b[0] {
      StrCmpEqual(a[1..], b[1..]);
      if a[1..] == b[1..] {
        assert a == [a[0]] + a[1..] && b == [b[0]] + b[1..];
      }
    }
  }

  lemma {:induction false} StrCmpFlip(a: string, b: string)
    ensures StrCmp(a, b) == Greater <==> StrCmp(b, a) == Less
  {
    if |a| > 0 && |b| > 0 && a[0] == b[0] {
      StrCmpFlip(a[1..], b[1..]);
    }
  }

  lemma {:induction false} StrCmpTransitive(a: string, b: string, c: string)
    requires StrCmp(a, b) != Greater && StrCmp(b, c) != Greater
    ensures StrCmp(a, c) != Greater
  {
    if |a| > 0 && |b| > 0 && |c| > 0 && a[0] == b[0] && b[0] == c[0] {
      StrCmpTransitive(a[1..], b[1..], c[1..]);
    }
  }

  /** The sorted output: no name is ordered after its successor. */
  predicate SortedFiles(names: seq<string>) {
    forall i | 0 <= i < |names| - 1 :: FileOrder(names[i], names[i + 1]) != Greater
  }

  /** Inserts `x` before the first name it is not greater than. */
  function Insert(x: string, names: seq<string>): (r: seq<string>)
    ensures multiset(r) == multiset(names) + multiset{x}
    ensures |r| == |names| + 1
  {
    if |names| == 0 then [x]
    else if FileOrder(x, names[0]) == Greater then
      assert names == [names[0]] + names[1..];
      [names[0]] + Insert(x, names[1..])
    else [x] + names
  }

  /**
    `files.sort_by` with the comparator above, written as an insertion sort;
    a sort by a total order gives one result whatever its algorithm.
   */
  function SortFiles(names: seq<string>): (r: seq<string>)
    ensures multiset(r) == multiset(names)
  {
    if |names| == 0 then []
    else
      assert names == [names[0]] + names[1..];
      Insert(names[0], SortFiles(names[1..]))
  }

  /** Inserting a name that is not a second Sys.vm keeps the list sorted. */
  lemma {:induction false} InsertSorted(x: string, names: seq<string>)
    requires SortedFiles(names) && !(x == SYS && SYS in names)
    ensures SortedFiles(Insert(x, names))
    ensures |names| > 0 ==> Insert(x, names)[0] == x || Insert(x, names)[0] == names[0]
  {
    if |names| > 0 && FileOrder(x, names[0]) == Greater {
      var tail := names[1..];
      assert SortedFiles(tail);
      InsertSorted(x, tail);
      var r := Insert(x, names);
      assert FileOrder(names[0], x) != Greater by {
        if x != SYS && names[0] != SYS {
          StrCmpFlip(names[0], x);
        }
      }
      forall i | 0 <= i < |r| - 1 ensures FileOrder(r[i], r[i + 1]) != Greater {
        if i > 0 {
          assert r[i] == Insert(x, tail)[i - 1] && r[i + 1] == Insert(x, tail)[i];
        }
      }
    }
  }

  /** The sort's result is ordered, provided Sys.vm occurs at most once. */
  lemma {:induction false} SortFilesSorted(names: seq<string>)
    requires multiset(names)[SYS] <= 1
    ensures SortedFiles(SortFiles(names))
  {
    if |names| > 0 {
      assert names == [names[0]] + names[1..];
      assert multiset(names) == multiset{names[0]} + multiset(names[1..]);
      SortFilesSorted(names[1..]);
      assert SYS in SortFiles(names[1..]) <==> SYS in multiset(names[1..]);
      InsertSorted(names[0], SortFiles(names[1..]));
    }
  }

  /** In an ordered list Sys.vm can only be last. */
  lemma SysLast(names: seq<string>)
    requires SortedFiles(names) && SYS in names
    ensures names[|names| - 1] == SYS
  {
    forall k | 0 <= k < |names| - 1 ensures names[k] != SYS {
      assert FileOrder(names[k], names[k + 1]) != Greater;
    }
  }

  /** In an ordered list, any two names other than Sys.vm are in ascending order. */
  lemma {:induction false} OthersAscending(names: seq<string>, i: int, j: int)
    requires SortedFiles(names) && 0 <= i < j < |names|
    requires names[i] != SYS && names[j] != SYS
    ensures StrCmp(names[i], names[j]) != Greater
  {
    if j > i + 1 {
      assert FileOrder(names[j - 1], names[j]) != Greater;
      OthersAscending(names, i, j - 1);
      StrCmpTransitive(names[i], names[j - 1], names[j]);
    }
  }

  /** In an ordered list, the names other than Sys.vm are in ascending order. */
  lemma SortedAscending(names: seq<string>)
    requires SortedFiles(names)
    ensures forall i, j | 0 <= i < j < |names| && names[i] != SYS && names[j] != SYS :: StrCmp(names[i], names[j]) != Greater
  {
    forall i, j | 0 <= i < j < |names| && names[i] != SYS && names[j] != SYS ensures StrCmp(names[i], names[j]) != Greater {
      OthersAscending(names, i, j);
    }
  }

  /**
    After sorting, Sys.vm (if present) is last and the other names are in
    ascending order; the names are the same ones.
   */
  lemma SortFilesOrder(names: seq<string>)
    requires multiset(names)[SYS] <= 1
    ensures var r := SortFiles(names);
      && multiset(r) == multiset(names)
      && (SYS in names ==> r[|r| - 1] == SYS)
      && forall i, j | 0 <= i < j < |r| && r[i] != SYS && r[j] != SYS :: StrCmp(r[i], r[j]) != Greater
  {
    var r := SortFiles(names);
    SortFilesSorted(names);
    if SYS in names {
      assert SYS in multiset(names);
      SysLast(r);
    }
    SortedAscending(r);
  }

  // ---------------------------------------------------------------------------
  // Output path

  /**
    A directory `d` is translated into `d/<name of d>.asm`, anything else
    into `<stem>.asm` next to it; a missing name becomes `output`.
   */
  function OutputPath(path: seq<string>, kind: Kind): (r: seq<string>)
    ensures |r| > 0
  {
    if kind.IsDir? then
      path + [(if |path| == 0 then "output" else path[|path| - 1]) + ".asm"]
    else if |path| == 0 then ["output.asm"]
    else path[..|path| - 1] + [Stem(path[|path| - 1]) + ".asm"]
  }

  /** A directory's output file sits inside it and is named after it. */
  lemma OutputInDirectory(path: seq<string>, entries: seq<Entry>)
    requires |path| > 0
    ensures var r := OutputPath(path, IsDir(entries));
      r[..|r| - 1] == path && r[|r| - 1] == path[|path| - 1] + ".asm"
  {
  }

  /** A file `stem.vm` is translated into `stem.asm` in the same directory. */
  lemma OutputBesideFile(dir: seq<string>, stem: string)
    requires stem != ""
    ensures var r := OutputPath(dir + [stem + ".vm"], IsFile);
      r == dir + [stem + ".asm"] && Selected(dir + [stem + ".vm"], IsFile) == [stem + ".vm"]
  {
    ExtensionOfJoin(stem, "vm");
    assert stem + ".vm" == stem + "." + "vm";
    assert (dir + [stem + ".vm"])[..|dir|] == dir;
  }
}
