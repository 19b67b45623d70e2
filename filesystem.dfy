/**
 * The file system the storage writes to, reduced to a map from paths to
 * contents, and the path arithmetic the storage relies on (`safe_join`,
 * `file_name`, `parent`, `set_file_name`, `diff_paths`).
 *
 * Reading is deterministic: it fails exactly when the file is missing.
 * Creating directories, writing and renaming can fail for reasons outside
 * the model (disk full, permissions); each such method may fail at any call,
 * and its contract says what a failure may have changed.
 */
module FileSystems {
  import opened Wrappers
  import opened Text

  newtype byte = x: int | 0 <= x < 256

  type Bytes = seq<byte>

  /** A path as its sequence of components. */
  type Path = seq<string>

  /** The last component of a path, if any (`Path::file_name`). */
  function FileName(p: Path): (r: Option<string>)
    ensures r.Some? <==> p != []
  {
    if p == [] then None else Some(p[|p| - 1])
  }

  /** Everything but the last component (`Path::parent`). */
  function Parent(p: Path): (r: Option<Path>)
    ensures r.Some? <==> p != []
    ensures r.Some? ==> p == r.value + [p[|p| - 1]]
  {
    if p == [] then None else Some(p[..|p| - 1])
  }

  /** `set_file_name`: replaces the last component. */
  function WithFileName(p: Path, name: string): (r: Path)
    requires p != []
    ensures |r| == |p| && r[..|p| - 1] == p[..|p| - 1] && r[|p| - 1] == name
  {
    p[..|p| - 1] + [name]
  }

  /**
   * `dir.safe_join(name)`: `name` read as a relative path. An absolute name
   * or a ".." component is refused; empty and "." components are dropped.
   */
  function SafeJoin(dir: Path, name: string): (r: Result<Path>)
    ensures r.Ok? ==> |r.value| >= |dir| && r.value[..|dir|] == dir
    ensures r.Ok? ==> forall i :: |dir| <= i < |r.value| ==> r.value[i] != "" && r.value[i] != "." && r.value[i] != ".."
    ensures r.Err? <==> (|name| > 0 && name[0] == '/') || ".." in Split(name, "/")
  {
    if |name| > 0 && name[0] == '/' then Err("absolute path")
    else
      var parts := Split(name, "/");
      if ".." in parts then Err("path escapes the directory")
      else
        var kept := Components(parts);
        Ok(dir + kept)
  }

  /** The components of a relative path that `safe_join` keeps. */
  function Components(parts: seq<string>): (r: seq<string>)
    ensures forall i :: 0 <= i < |r| ==> r[i] in parts && r[i] != "" && r[i] != "."
  {
    if parts == [] then []
    else
      var rest := Components(parts[1..]);
      assert forall i :: 0 <= i < |rest| ==> rest[i] in parts;
      if parts[0] == "" || parts[0] == "." then rest else [parts[0]] + rest
  }

  /** A plain file name, without separator, that is not "" or "." or "..". */
  predicate PlainName(name: string) {
    '/' !in name && name != "" && name != "." && name != ".."
  }

  /** Joining a plain file name appends exactly that one component. */
  lemma SafeJoinPlainName(dir: Path, name: string)
    requires PlainName(name)
    ensures SafeJoin(dir, name) == Ok(dir + [name])
  {
    if Contains(name, "/") { ContainsHasLastChar(name, "/"); }
    SplitSingleIff(name, "/");
    assert Components([name]) == [name];
  }

  /** Appending text without "/" to a name only lengthens its last piece. */
  lemma {:induction false} SplitAppendPlain(s: string, t: string)
    requires '/' !in t
    ensures var p := Split(s, "/");
            Split(s + t, "/") == p[..|p| - 1] + [p[|p| - 1] + t]
    decreases |t|
  {
    var p := Split(s, "/");
    if t == [] {
      assert s + t == s;
      assert p[|p| - 1] + t == p[|p| - 1];
      assert p[..|p| - 1] + [p[|p| - 1]] == p;
    } else {
      var t', d := t[..|t| - 1], t[|t| - 1];
      SplitAppendPlain(s, t');
      assert s + t == (s + t') + [d];
      assert "/" == ['/'];
      SplitSnoc(s + t', '/', d);
      var q := Split(s + t', "/");
      assert q[..|q| - 1] == p[..|p| - 1];
      assert q[|q| - 1] + [d] == p[|p| - 1] + t;
    }
  }

  /** `Components` on one more piece. */
  lemma {:induction false} ComponentsSnoc(xs: seq<string>, y: string)
    ensures Components(xs + [y]) == Components(xs) + (if y == "" || y == "." then [] else [y])
  {
    if xs != [] {
      assert (xs + [y])[1..] == xs[1..] + [y];
      ComponentsSnoc(xs[1..], y);
    } else {
      assert xs + [y] == [y];
    }
  }

  /** The temporary file next to `p` (`save` names it after the file, plus ".tmp"). */
  function TempPath(p: Path): (r: Path)
    requires p != []
    ensures |r| == |p| && r[..|p| - 1] == p[..|p| - 1] && |r[|p| - 1]| == |p[|p| - 1]| + 4
  {
    WithFileName(p, p[|p| - 1] + ".tmp")
  }

  /** The components a joined name contributes, after the ones of all pieces but the last. */
  function JoinedBase(dir: Path, name: string): Path {
    var pieces := Split(name, "/");
    dir + Components(pieces[..|pieces| - 1])
  }

  function LastPiece(name: string): string {
    var pieces := Split(name, "/");
    pieces[|pieces| - 1]
  }

  /** A joined name ends in its last piece, unless that piece is empty or ".". */
  lemma JoinShape(dir: Path, name: string)
    requires SafeJoin(dir, name).Ok?
    ensures var last := LastPiece(name);
            SafeJoin(dir, name).value == JoinedBase(dir, name) + (if last == "" || last == "." then [] else [last])
  {
    var pieces := Split(name, "/");
    assert pieces == pieces[..|pieces| - 1] + [pieces[|pieces| - 1]];
    ComponentsSnoc(pieces[..|pieces| - 1], pieces[|pieces| - 1]);
  }

  /** Joining `name + t` for a suffix `t` without "/" lengthens the last component by `t`. */
  lemma JoinSuffixShape(dir: Path, name: string, t: string)
    requires '/' !in t && |t| >= 3
    requires SafeJoin(dir, name + t).Ok?
    ensures SafeJoin(dir, name + t).value == JoinedBase(dir, name) + [LastPiece(name) + t]
  {
    var pieces := Split(name, "/");
    var init, last := pieces[..|pieces| - 1], pieces[|pieces| - 1];
    SplitAppendPlain(name, t);
    var q := Split(name + t, "/");
    assert q == init + [last + t];
    assert q[..|q| - 1] == init;
    ComponentsSnoc(init, last + t);
    assert |last + t| >= 3;
  }

  /**
   * The public file, the private file and the temporary file are three
   * different paths, whatever file name was accepted.
   */
  lemma SidecarPathsDistinct(dir: Path, name: string)
    requires SafeJoin(dir, name).Ok? && SafeJoin(dir, name + ".private").Ok?
    ensures var pub, priv := SafeJoin(dir, name).value, SafeJoin(dir, name + ".private").value;
            && pub != priv
            && (pub != [] ==> TempPath(pub) != pub && TempPath(pub) != priv)
  {
    JoinShape(dir, name);
    JoinSuffixShape(dir, name, ".private");
    var base, last := JoinedBase(dir, name), LastPiece(name);
    var pub, priv := SafeJoin(dir, name).value, SafeJoin(dir, name + ".private").value;
    if last == "" || last == "." {
      assert |pub| < |priv|;
      if pub != [] {
        assert TempPath(pub)[|pub| - 1] != pub[|pub| - 1];
      }
    } else {
      assert pub == base + [last] && priv == base + [last + ".private"];
      assert |priv[|priv| - 1]| != |pub[|pub| - 1]|;
      assert TempPath(pub)[|pub| - 1] != pub[|pub| - 1];
      assert TempPath(pub)[|pub| - 1] != priv[|priv| - 1];
    }
  }

  /** `diff_paths(p, base)` when `base` is a prefix of `p`; no other case is needed here. */
  function DiffPaths(p: Path, base: Path): (r: Option<Path>)
    ensures r.Some? ==> base + r.value == p
    ensures r.None? <==> !(|base| <= |p| && p[..|base|] == base)
  {
    if |base| <= |p| && p[..|base|] == base then
      assert base + p[|base|..] == p;
      Some(p[|base|..])
    else None
  }

  /** The maps agree at `p`: both lack it, or both hold the same content. */
  predicate SameAt(a: map<Path, Bytes>, b: map<Path, Bytes>, p: Path) {
    (p in a <==> p in b) && (p in a ==> a[p] == b[p])
  }

  class FileSystem {
    var files: map<Path, Bytes>

    constructor(files: map<Path, Bytes>)
      ensures this.files == files
    {
      this.files := files;
    }

    /** `File::open` and reading it whole: fails exactly when the file is missing. */
    method ReadFile(p: Path) returns (r: Result<Bytes>)
      ensures r.Ok? <==> p in files
      ensures r.Ok? ==> r.value == files[p]
    {
      if p in files {
        return Ok(files[p]);
      }
      return Err("No such file or directory");
    }

    /** `create_dir_all`: directories are not modelled, so only its failure is. */
    method CreateDirAll(p: Path) returns (r: Result<()>)
      ensures files == old(files)
    {
      var ok: bool :| true;
      if !ok {
        return Err("Could not create dir");
      }
      return Ok(());
    }

    /**
     * `File::create` then writing `content`: on success the file holds
     * exactly `content`; on failure at most that file has changed (it may be
     * left truncated).
     */
    method WriteFile(p: Path, content: Bytes) returns (r: Result<()>)
      modifies this
      ensures r.Ok? ==> files == old(files)[p := content]
      ensures r.Err? ==> files - {p} == old(files) - {p}
    {
      var created: bool :| true;
      if !created {
        return Err("Could not create/truncate file");
      }
      var written: bool :| true;
      if !written {
        files := files[p := []];
        return Err("Could not write storage");
      }
      files := files[p := content];
      return Ok(());
    }

    /** `rename`: on success `to` holds what `from` held and `from` is gone; on failure nothing changes. */
    method Rename(from: Path, to: Path) returns (r: Result<()>)
      modifies this
      ensures r.Ok? ==> from in old(files) && files == (old(files) - {from})[to := old(files)[from]]
      ensures r.Err? ==> files == old(files)
    {
      var ok: bool :| true;
      if !ok || from !in files {
        return Err("Could not rename");
      }
      files := (files - {from})[to := files[from]];
      return Ok(());
    }
  }
}
