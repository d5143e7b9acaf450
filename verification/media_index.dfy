/**
 The index reconciliation of the catalogue server (`MediaIndex.update_index`):
 walk the media directory, add a default entry for every new media file,
 refresh the nickname of every known one, and drop the entries of files
 that are gone.

 The walk is given as the sequence of directories it reports, each with the
 names of the files directly inside it. `RelPath` stands for
 `os.path.relpath(os.path.join(root, file), directory)`, which depends on the
 process's working directory.
 */
module MediaIndexing {
  import opened Wrappers
  import opened PythonText
  import opened Catalogue

  /** One directory reported by `os.walk`: its path and the file names in it. */
  datatype WalkDir = WalkDir(root: string, files: seq<string>)

  type RelPath = (string, string) -> string

  /** One media file reported by the walk: its key, the directory it was found in, and its name. */
  datatype Found = Found(path: string, root: string, file: string) {
    /** The nickname the index gives it: the name of its directory. */
    function Nickname(): string { Basename(root) }
  }

  function FoundFile(root: string, file: string, rel: RelPath): Found
  {
    Found(rel(root, file), root, file)
  }

  /** The media files of one directory, in the order the walk lists them. */
  function FoundIn(root: string, files: seq<string>, rel: RelPath): seq<Found>
  {
    if files == [] then []
    else
      var last := files[|files| - 1];
      FoundIn(root, files[..|files| - 1], rel) + (if IsMedia(last) then [FoundFile(root, last, rel)] else [])
  }

  /** The media files of the whole walk, in walk order. */
  function FoundAll(walk: seq<WalkDir>, rel: RelPath): seq<Found>
  {
    if walk == [] then []
    else
      var last := walk[|walk| - 1];
      FoundAll(walk[..|walk| - 1], rel) + FoundIn(last.root, last.files, rel)
  }

  /** The keys mentioned by a list of found files. */
  function Paths(fs: seq<Found>): set<string>
  {
    if fs == [] then {} else Paths(fs[..|fs| - 1]) + {fs[|fs| - 1].path}
  }

  /** The entry created for a file seen for the first time. */
  function NewEntry(f: Found): Entry
  {
    Entry(f.path, 1, f.Nickname(), "", KindOf(f.file))
  }

  /** One step of the walk loop: insert a new entry, or refresh a known entry's nickname. */
  function Visit(m: Index, f: Found): Index
  {
    if f.path !in m then m[f.path := NewEntry(f)]
    else if m[f.path].nickname != f.Nickname() then m[f.path := m[f.path].(nickname := f.Nickname())]
    else m
  }

  /** The walk loop over a list of found files. */
  function VisitAll(m: Index, fs: seq<Found>): Index
  {
    if fs == [] then m else Visit(VisitAll(m, fs[..|fs| - 1]), fs[|fs| - 1])
  }

  /** The index after `update_index`: the walk loop, then removal of every key the walk did not report. */
  function Reconciled(index: Index, walk: seq<WalkDir>, rel: RelPath): Index
  {
    var fs := FoundAll(walk, rel);
    var visited := VisitAll(index, fs);
    visited - (visited.Keys - Paths(fs))
  }

  /** The nickname of the last found file with key `k`, or `otherwise` when there is none. */
  function LastNickname(fs: seq<Found>, k: string, otherwise: string): string
  {
    if fs == [] then otherwise
    else if fs[|fs| - 1].path == k then fs[|fs| - 1].Nickname()
    else LastNickname(fs[..|fs| - 1], k, otherwise)
  }

  /** The first found file with key `k`. */
  function FirstFound(fs: seq<Found>, k: string): (f: Found)
    requires k in Paths(fs)
    ensures f in fs && f.path == k
  {
    var init := fs[..|fs| - 1];
    if k in Paths(init) then
      var f := FirstFound(init, k);
      assert f in init;
      f
    else fs[|fs| - 1]
  }

  /** The walk reports a media file whose relative path is `k`. */
  ghost predicate Reported(walk: seq<WalkDir>, rel: RelPath, k: string)
  {
    exists i, j :: 0 <= i < |walk| && 0 <= j < |walk[i].files| && IsMedia(walk[i].files[j])
      && rel(walk[i].root, walk[i].files[j]) == k
  }

  lemma {:induction false} PathsMembership(fs: seq<Found>, k: string)
    ensures k in Paths(fs) <==> exists f :: f in fs && f.path == k
  {
    if fs != [] {
      var init := fs[..|fs| - 1];
      PathsMembership(init, k);
      assert fs == init + [fs[|fs| - 1]];
    }
  }

  lemma {:induction false} FoundInSource(root: string, files: seq<string>, rel: RelPath, f: Found)
    requires f in FoundIn(root, files, rel)
    ensures exists j :: 0 <= j < |files| && IsMedia(files[j]) && f == FoundFile(root, files[j], rel)
  {
    var n := |files| - 1;
    var init := files[..n];
    var tail := if IsMedia(files[n]) then [FoundFile(root, files[n], rel)] else [];
    assert FoundIn(root, files, rel) == FoundIn(root, init, rel) + tail;
    if f in FoundIn(root, init, rel) {
      FoundInSource(root, init, rel, f);
      var j :| 0 <= j < |init| && IsMedia(init[j]) && f == FoundFile(root, init[j], rel);
      assert files[j] == init[j];
    } else {
      assert IsMedia(files[n]) && f == FoundFile(root, files[n], rel);
    }
  }

  lemma {:induction false} FoundInHas(root: string, files: seq<string>, rel: RelPath, j: int)
    requires 0 <= j < |files| && IsMedia(files[j])
    ensures FoundFile(root, files[j], rel) in FoundIn(root, files, rel)
  {
    var n := |files| - 1;
    var init := files[..n];
    if j < n {
      assert init[j] == files[j];
      FoundInHas(root, init, rel, j);
      if IsMedia(files[n]) {
        assert FoundIn(root, files, rel) == FoundIn(root, init, rel) + [FoundFile(root, files[n], rel)];
      } else {
        assert FoundIn(root, files, rel) == FoundIn(root, init, rel);
      }
    } else {
      assert FoundIn(root, files, rel) == FoundIn(root, init, rel) + [FoundFile(root, files[n], rel)];
    }
  }

  /** Every found file comes from a media file of some directory of the walk, with that directory's nickname. */
  lemma {:induction false} FoundAllSource(walk: seq<WalkDir>, rel: RelPath, f: Found)
    requires f in FoundAll(walk, rel)
    ensures exists i, j ::
              0 <= i < |walk| && 0 <= j < |walk[i].files| && IsMedia(walk[i].files[j])
              && f == FoundFile(walk[i].root, walk[i].files[j], rel)
  {
    var n := |walk| - 1;
    var init := walk[..n];
    assert FoundAll(walk, rel) == FoundAll(init, rel) + FoundIn(walk[n].root, walk[n].files, rel);
    if f in FoundAll(init, rel) {
      FoundAllSource(init, rel, f);
      var i, j :| 0 <= i < |init| && 0 <= j < |init[i].files| && IsMedia(init[i].files[j])
        && f == FoundFile(init[i].root, init[i].files[j], rel);
      assert walk[i] == init[i];
    } else {
      FoundInSource(walk[n].root, walk[n].files, rel, f);
    }
  }

  /** Every media file of the walk is found. */
  lemma {:induction false} FoundAllHas(walk: seq<WalkDir>, rel: RelPath, i: int, j: int)
    requires 0 <= i < |walk| && 0 <= j < |walk[i].files| && IsMedia(walk[i].files[j])
    ensures FoundFile(walk[i].root, walk[i].files[j], rel) in FoundAll(walk, rel)
  {
    var n := |walk| - 1;
    var init := walk[..n];
    assert FoundAll(walk, rel) == FoundAll(init, rel) + FoundIn(walk[n].root, walk[n].files, rel);
    if i < n {
      assert init[i] == walk[i];
      FoundAllHas(init, rel, i, j);
    } else {
      FoundInHas(walk[n].root, walk[n].files, rel, j);
    }
  }

  /** The keys found by the walk are exactly the reported media paths. */
  lemma FoundPathsAreReported(walk: seq<WalkDir>, rel: RelPath, k: string)
    ensures k in Paths(FoundAll(walk, rel)) <==> Reported(walk, rel, k)
  {
    var fs := FoundAll(walk, rel);
    PathsMembership(fs, k);
    if k in Paths(fs) {
      var f :| f in fs && f.path == k;
      FoundAllSource(walk, rel, f);
    }
    if Reported(walk, rel, k) {
      var i, j :| 0 <= i < |walk| && 0 <= j < |walk[i].files| && IsMedia(walk[i].files[j])
        && rel(walk[i].root, walk[i].files[j]) == k;
      FoundAllHas(walk, rel, i, j);
    }
  }

  /** The walk loop keeps every old key and adds the found ones. */
  lemma {:induction false} VisitAllKeys(m: Index, fs: seq<Found>)
    ensures VisitAll(m, fs).Keys == m.Keys + Paths(fs)
  {
    if fs != [] {
      VisitAllKeys(m, fs[..|fs| - 1]);
    }
  }

  /** A known entry keeps everything but its nickname, which becomes that of the last file found under its key. */
  lemma {:induction false} VisitAllKnown(m: Index, fs: seq<Found>, k: string)
    requires k in m
    ensures k in VisitAll(m, fs)
    ensures VisitAll(m, fs)[k] == m[k].(nickname := LastNickname(fs, k, m[k].nickname))
  {
    if fs != [] {
      var init, f := fs[..|fs| - 1], fs[|fs| - 1];
      VisitAllKnown(m, init, k);
      var v := VisitAll(m, init);
      assert VisitAll(m, fs) == Visit(v, f);
      if f.path == k {
        assert Visit(v, f)[k] == v[k].(nickname := f.Nickname());
      } else {
        assert Visit(v, f)[k] == v[k];
      }
    }
  }

  /** A new entry starts from the defaults of the first file found under its key and takes the nickname of the last. */
  lemma {:induction false} VisitAllNew(m: Index, fs: seq<Found>, k: string)
    requires k !in m && k in Paths(fs)
    ensures k in VisitAll(m, fs)
    ensures VisitAll(m, fs)[k] == NewEntry(FirstFound(fs, k)).(nickname := LastNickname(fs, k, ""))
  {
    var init, f := fs[..|fs| - 1], fs[|fs| - 1];
    var v := VisitAll(m, init);
    assert VisitAll(m, fs) == Visit(v, f);
    if k in Paths(init) {
      VisitAllNew(m, init, k);
      assert FirstFound(fs, k) == FirstFound(init, k);
      if f.path == k {
        assert Visit(v, f)[k] == v[k].(nickname := f.Nickname());
      } else {
        assert Visit(v, f)[k] == v[k];
      }
    } else {
      VisitAllKeys(m, init);
      assert k !in v && f.path == k;
      assert FirstFound(fs, k) == f;
      assert Visit(v, f)[k] == NewEntry(f);
    }
  }

  /** After `update_index` the index holds exactly the media files of the walk. */
  lemma ReconciledKeys(index: Index, walk: seq<WalkDir>, rel: RelPath, k: string)
    ensures k in Reconciled(index, walk, rel) <==> Reported(walk, rel, k)
  {
    VisitAllKeys(index, FoundAll(walk, rel));
    FoundPathsAreReported(walk, rel, k);
  }

  /**
   After `update_index`, a key that was indexed before keeps its file name,
   rating, category and type, and carries the nickname of the (last)
   directory that reported it; a key that is new has rating 1, an empty
   category, its path as file name, the type and directory of the file that
   first reported it, and the nickname of the last.
   */
  lemma ReconciledEntry(index: Index, walk: seq<WalkDir>, rel: RelPath, k: string)
    requires k in Reconciled(index, walk, rel)
    ensures var e, fs := Reconciled(index, walk, rel)[k], FoundAll(walk, rel);
      && (k in index ==> e == index[k].(nickname := LastNickname(fs, k, "")))
      && (k !in index ==> e == Entry(k, 1, LastNickname(fs, k, ""), "", KindOf(FirstFound(fs, k).file)))
  {
    var fs := FoundAll(walk, rel);
    VisitAllKeys(index, fs);
    if k in index {
      VisitAllKnown(index, fs, k);
      LastNicknameFound(fs, k, index[k].nickname, "");
    } else {
      VisitAllNew(index, fs, k);
    }
  }

  lemma {:induction false} LastNicknameFound(fs: seq<Found>, k: string, a: string, b: string)
    requires k in Paths(fs)
    ensures LastNickname(fs, k, a) == LastNickname(fs, k, b)
  {
    if fs[|fs| - 1].path != k {
      LastNicknameFound(fs[..|fs| - 1], k, a, b);
    }
  }

  /** When every found file under key `k` is `g`, the last nickname for `k` is `g`'s. */
  lemma {:induction false} LastNicknameOfOnly(fs: seq<Found>, k: string, g: Found, otherwise: string)
    requires k in Paths(fs)
    requires forall f :: f in fs && f.path == k ==> f == g
    ensures LastNickname(fs, k, otherwise) == g.Nickname()
  {
    var init, f := fs[..|fs| - 1], fs[|fs| - 1];
    if f.path != k {
      assert forall h :: h in init ==> h in fs;
      LastNicknameOfOnly(init, k, g, otherwise);
    }
  }

  /** The media file at position `j` of directory `i` is the only one of the walk with its relative path. */
  ghost predicate ReportedOnce(walk: seq<WalkDir>, rel: RelPath, i: int, j: int)
  {
    && 0 <= i < |walk| && 0 <= j < |walk[i].files| && IsMedia(walk[i].files[j])
    && forall i', j' ::
         0 <= i' < |walk| && 0 <= j' < |walk[i'].files| && IsMedia(walk[i'].files[j'])
         && rel(walk[i'].root, walk[i'].files[j']) == rel(walk[i].root, walk[i].files[j])
         ==> i' == i && j' == j
  }

  /**
   The ordinary case, where each media file has its own relative path: a
   file that was already indexed keeps its entry with the nickname set to
   its directory's name; a new file gets rating 1, an empty category, its
   path as file name, its directory's name as nickname and the type its
   extension gives.
   */
  lemma ReconciledFile(index: Index, walk: seq<WalkDir>, rel: RelPath, i: int, j: int)
    requires ReportedOnce(walk, rel, i, j)
    ensures var root, file := walk[i].root, walk[i].files[j];
      var k := rel(root, file);
      && k in Reconciled(index, walk, rel)
      && (k in index ==> Reconciled(index, walk, rel)[k] == index[k].(nickname := Basename(root)))
      && (k !in index ==> Reconciled(index, walk, rel)[k] == Entry(k, 1, Basename(root), "", KindOf(file)))
  {
    var root, file := walk[i].root, walk[i].files[j];
    var k := rel(root, file);
    var g := FoundFile(root, file, rel);
    var fs := FoundAll(walk, rel);
    ReconciledKeys(index, walk, rel, k);
    ReconciledEntry(index, walk, rel, k);
    forall f | f in fs && f.path == k
      ensures f == g
    {
      FoundAllSource(walk, rel, f);
    }
    FoundPathsAreReported(walk, rel, k);
    LastNicknameOfOnly(fs, k, g, "");
  }

  /** What one more file of a directory adds to the walk loop's state. */
  lemma ScanStep(start: Index, before: seq<Found>, root: string, files: seq<string>, j: int, rel: RelPath)
    requires 0 <= j < |files|
    ensures var seen, next := before + FoundIn(root, files[..j], rel), before + FoundIn(root, files[..j + 1], rel);
      && (IsMedia(files[j]) ==> VisitAll(start, next) == Visit(VisitAll(start, seen), FoundFile(root, files[j], rel))
                                && Paths(next) == Paths(seen) + {rel(root, files[j])})
      && (!IsMedia(files[j]) ==> next == seen)
  {
    var seen := before + FoundIn(root, files[..j], rel);
    assert files[..j + 1][..j] == files[..j];
    if IsMedia(files[j]) {
      var next := seen + [FoundFile(root, files[j], rel)];
      assert before + FoundIn(root, files[..j + 1], rel) == next;
      assert next[..|next| - 1] == seen;
    } else {
      assert before + FoundIn(root, files[..j + 1], rel) == seen;
    }
  }

  /**
   The server's index object. `directory` is the folder being indexed; the
   JSON file it is loaded from and saved to is not part of this model, so
   the constructor receives what loading produced.
   */
  class MediaIndex {
    var directory: string
    var index: Index

    /**
     `MediaIndex(directory)`: start from the stored index (`None` when the
     file is missing or not valid JSON, which loads as the empty index),
     then reconcile it with the directory.
     */
    constructor (directory: string, stored: Option<Index>, walk: seq<WalkDir>, rel: RelPath)
      ensures this.directory == directory
      ensures index == Reconciled(if stored.Some? then stored.value else map[], walk, rel)
    {
      this.directory := directory;
      index := if stored.Some? then stored.value else map[];
      new;
      UpdateIndex(walk, rel);
    }

    /** `update_index`: the walk loop over the directories, then the removal of vanished files. */
    method UpdateIndex(walk: seq<WalkDir>, rel: RelPath)
      modifies this`index
      ensures index == Reconciled(old(index), walk, rel)
    {
      var currentFiles: set<string> := {};
      for i := 0 to |walk|
        invariant index == VisitAll(old(index), FoundAll(walk[..i], rel))
        invariant currentFiles == Paths(FoundAll(walk[..i], rel))
      {
        assert walk[..i + 1][..i] == walk[..i];
        currentFiles := ScanDirectory(walk[i].root, walk[i].files, rel, currentFiles, old(index), FoundAll(walk[..i], rel));
      }
      assert walk[..|walk|] == walk;
      RemoveVanished(currentFiles);
    }

    /** The inner loop of `update_index`: the files of one directory. */
    method ScanDirectory(root: string, files: seq<string>, rel: RelPath, currentFiles: set<string>,
                         ghost start: Index, ghost before: seq<Found>)
      returns (current: set<string>)
      requires index == VisitAll(start, before) && currentFiles == Paths(before)
      modifies this`index
      ensures index == VisitAll(start, before + FoundIn(root, files, rel))
      ensures current == Paths(before + FoundIn(root, files, rel))
    {
      var nickname := Basename(root);
      current := currentFiles;
      assert before + FoundIn(root, files[..0], rel) == before;
      for j := 0 to |files|
        invariant index == VisitAll(start, before + FoundIn(root, files[..j], rel))
        invariant current == Paths(before + FoundIn(root, files[..j], rel))
      {
        var file := files[j];
        var ext := Lower(Extension(file));
        ScanStep(start, before, root, files, j, rel);
        if ext in IMAGE_EXTENSIONS || ext in VIDEO_EXTENSIONS {
          var filePath := rel(root, file);
          current := current + {filePath};
          if filePath !in index {
            index := index[filePath := Entry(filePath, 1, nickname, "", if ext in IMAGE_EXTENSIONS then "image" else "video")];
          } else if index[filePath].nickname != nickname {
            index := index[filePath := index[filePath].(nickname := nickname)];
          }
        }
      }
      assert files[..|files|] == files;
    }

    /** The final loop of `update_index`: delete every key the walk did not report. */
    method RemoveVanished(currentFiles: set<string>)
      modifies this`index
      ensures index == old(index) - (old(index).Keys - currentFiles)
    {
      var filesToRemove := index.Keys - currentFiles;
      var rest := filesToRemove;
      while rest != {}
        invariant rest <= filesToRemove
        invariant index == old(index) - (filesToRemove - rest)
        decreases rest
      {
        var filePath :| filePath in rest;
        index := index - {filePath};
        rest := rest - {filePath};
      }
    }
  }

}
