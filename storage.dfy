/**
 * The persistent storage of one source (src/storage.rs): the public part
 * (the entries, committed to git) in one JSON file, the private part (the
 * time of the last update) in a ".private" file beside it. Saving writes
 * each part to a temporary file and renames it into place.
 *
 * The JSON (de)serialisation is a parameter of the model: a codec, whose
 * decoding may fail and which is assumed to round-trip only where a
 * property says so.
 */
module Storages {
  import opened Wrappers
  import opened Records
  import opened EntrySets
  import opened FetchData
  import opened FileSystems
  import opened Overrides
  import opened GitUtil

  datatype StoredDataPublic = StoredDataPublic(entries: EntrySet)

  datatype StoredDataPrivate = StoredDataPrivate(lastUpdated: Option<Time>)

  datatype StoredData = StoredData(private: StoredDataPrivate, public: StoredDataPublic)

  /** `StoredDataPrivate::default()`: never updated. */
  const DefaultPrivate := StoredDataPrivate(None)

  /** `StoredData::default()`: never updated, no entries. */
  const DefaultData := StoredData(DefaultPrivate, StoredDataPublic([]))

  /** `serde_json` for the two parts: encoding always succeeds, decoding may not. */
  datatype StorageCodec = StorageCodec(
    encodePublic: StoredDataPublic -> Bytes,
    decodePublic: Bytes -> Option<StoredDataPublic>,
    encodePrivate: StoredDataPrivate -> Bytes,
    decodePrivate: Bytes -> Option<StoredDataPrivate>)

  /** Decoding what was encoded gives back the value. */
  ghost predicate RoundTrips(c: StorageCodec) {
    && (forall d :: c.decodePublic(c.encodePublic(d)) == Some(d))
    && (forall d :: c.decodePrivate(c.encodePrivate(d)) == Some(d))
  }

  /** Opening the file at `p` and decoding it: fails if it is missing or does not decode. */
  function DecodeFile<T>(files: map<Path, Bytes>, p: Path, decode: Bytes -> Option<T>): (r: Option<T>)
    ensures r.Some? <==> p in files && decode(files[p]).Some?
    ensures r.Some? ==> r == decode(files[p])
  {
    if p in files then decode(files[p]) else None
  }

  /**
   * The data a storage holds after `load` from its default: the public file
   * decoded, with the private file decoded or defaulted; or nothing at all
   * when the public file cannot be read.
   */
  function LoadedData(files: map<Path, Bytes>, pub: Path, priv: Path, c: StorageCodec): (r: StoredData)
    ensures DecodeFile(files, pub, c.decodePublic).None? ==> r == DefaultData
    ensures DecodeFile(files, pub, c.decodePublic).Some? ==>
              && r.public == DecodeFile(files, pub, c.decodePublic).value
              && (DecodeFile(files, priv, c.decodePrivate).Some? ==> r.private == DecodeFile(files, priv, c.decodePrivate).value)
              && (DecodeFile(files, priv, c.decodePrivate).None? ==> r.private == DefaultPrivate)
  {
    match DecodeFile(files, pub, c.decodePublic)
    case None => DefaultData
    case Some(p) => StoredData(DecodeFile(files, priv, c.decodePrivate).GetOr(DefaultPrivate), p)
  }

  /** What every source shares: the storage directory, the overrides and the git repository. */
  class FetchDataExtra {
    const saveStorageDir: Path
    const overrides: Overrides
    const repo: Repository

    constructor(saveStorageDir: Path, overrides: Overrides, repo: Repository)
      ensures this.saveStorageDir == saveStorageDir && this.overrides == overrides && this.repo == repo
    {
      this.saveStorageDir := saveStorageDir;
      this.overrides := overrides;
      this.repo := repo;
    }
  }

  /**
   * Reading both files back after they were written with the same codec
   * yields what was written.
   */
  lemma SavedFilesLoadBack(files: map<Path, Bytes>, pub: Path, priv: Path, c: StorageCodec, d: StoredData)
    requires RoundTrips(c)
    requires pub in files && files[pub] == c.encodePublic(d.public)
    requires priv in files && files[priv] == c.encodePrivate(d.private)
    ensures DecodeFile(files, pub, c.decodePublic) == Some(d.public)
    ensures DecodeFile(files, priv, c.decodePrivate) == Some(d.private)
  {
  }

  /** A change confined to the temporary file leaves both storage files as they were. */
  lemma OnlyTempChanged(before: map<Path, Bytes>, after: map<Path, Bytes>, temp: Path, pub: Path, priv: Path)
    requires temp != pub && temp != priv
    requires after - {temp} == before - {temp}
    ensures after - {pub, priv, temp} == before - {pub, priv, temp}
    ensures SameAt(after, before, pub) && SameAt(after, before, priv)
  {
    var touched := {pub, priv, temp};
    forall k | k !in touched
      ensures (k in after <==> k in before) && (k in after ==> after[k] == before[k])
    {
      assert k in after <==> k in after - {temp};
      assert k in before <==> k in before - {temp};
    }
    assert (after - touched).Keys == (before - touched).Keys;
    assert pub in after <==> pub in after - {temp};
    assert pub in before <==> pub in before - {temp};
    assert priv in after <==> priv in after - {temp};
    assert priv in before <==> priv in before - {temp};
  }

  /**
   * After the public file was renamed into place, a failed write of the
   * temporary file leaves the public file replaced and the private one
   * untouched.
   */
  lemma PublicReplaced(before: map<Path, Bytes>, mid: map<Path, Bytes>, after: map<Path, Bytes>,
                       temp: Path, pub: Path, priv: Path, enc: Bytes)
    requires temp != pub && temp != priv && pub != priv
    requires mid == (before - {temp})[pub := enc]
    requires after - {temp} == mid - {temp}
    ensures after - {pub, priv, temp} == before - {pub, priv, temp}
    ensures SameAt(after, before, priv)
    ensures pub in after && after[pub] == enc
  {
    var touched := {pub, priv, temp};
    forall k | k !in touched
      ensures (k in after <==> k in before) && (k in after ==> after[k] == before[k])
    {
      assert k in after <==> k in after - {temp};
      assert k in before <==> k in mid - {temp};
    }
    assert (after - touched).Keys == (before - touched).Keys;
    assert pub in mid - {temp};
    assert priv in after <==> priv in after - {temp};
    assert priv in before <==> priv in mid - {temp};
  }

  class Storage {
    var data: StoredData
    const publicFile: Path
    const privateFile: Path
    const extra: FetchDataExtra

    /**
     * The two files lie inside the storage directory and, with the
     * temporary file beside the public one, are three different paths.
     */
    ghost predicate Valid() {
      && |publicFile| >= |extra.saveStorageDir| && publicFile[..|extra.saveStorageDir|] == extra.saveStorageDir
      && publicFile != privateFile
      && (publicFile != [] ==> TempPath(publicFile) != publicFile && TempPath(publicFile) != privateFile)
    }

    constructor Init(publicFile: Path, privateFile: Path, extra: FetchDataExtra)
      ensures this.data == DefaultData
      ensures this.publicFile == publicFile && this.privateFile == privateFile && this.extra == extra
    {
      this.data := DefaultData;
      this.publicFile := publicFile;
      this.privateFile := privateFile;
      this.extra := extra;
    }

    /**
     * `Storage::new`: both files are `name` (and `name` + ".private")
     * joined to the storage directory, refusing names that escape it.
     */
    static method New(name: string, extra: FetchDataExtra) returns (r: Result<Storage>)
      ensures r.Err? <==> SafeJoin(extra.saveStorageDir, name).Err? || SafeJoin(extra.saveStorageDir, name + ".private").Err?
      ensures r.Ok? ==>
                && fresh(r.value)
                && r.value.data == DefaultData
                && r.value.extra == extra
                && r.value.publicFile == SafeJoin(extra.saveStorageDir, name).value
                && r.value.privateFile == SafeJoin(extra.saveStorageDir, name + ".private").value
                && r.value.Valid()
      // A plain file name is stored directly inside the storage directory.
      ensures PlainName(name) ==>
                && r.Ok?
                && r.value.publicFile == extra.saveStorageDir + [name]
                && r.value.privateFile == extra.saveStorageDir + [name + ".private"]
    {
      var dir := extra.saveStorageDir;
      if PlainName(name) {
        SafeJoinPlainName(dir, name);
        assert PlainName(name + ".private") by {
          assert (name + ".private")[..|name|] == name;
        }
        SafeJoinPlainName(dir, name + ".private");
      }
      var pub := SafeJoin(dir, name);
      if pub.Err? {
        return Err("Error joining directory and file name: " + pub.msg);
      }
      var priv := SafeJoin(dir, name + ".private");
      if priv.Err? {
        return Err("Error joining directory and file name: " + priv.msg);
      }
      SidecarPathsDistinct(dir, name);
      var s := new Storage.Init(pub.value, priv.value, extra);
      return Ok(s);
    }

    /** `load_private`: on failure the data is left as it was. */
    method LoadPrivate(fs: FileSystem, codec: StorageCodec) returns (r: Result<()>)
      modifies this
      ensures r.Ok? <==> DecodeFile(fs.files, privateFile, codec.decodePrivate).Some?
      ensures r.Ok? ==> data == old(data).(private := DecodeFile(fs.files, privateFile, codec.decodePrivate).value)
      ensures r.Err? ==> data == old(data)
    {
      var bytes := fs.ReadFile(privateFile);
      if bytes.Err? {
        return Err("Trying to open private storage file: " + bytes.msg);
      }
      var decoded := codec.decodePrivate(bytes.value);
      if decoded.None? {
        return Err("Trying to read private storage");
      }
      data := data.(private := decoded.value);
      return Ok(());
    }

    /**
     * `load`: the public file must open and decode, or nothing changes; a
     * private file that is missing or does not decode only resets the
     * private part to its default.
     */
    method Load(fs: FileSystem, codec: StorageCodec) returns (r: Result<()>)
      modifies this
      ensures r.Err? <==> DecodeFile(fs.files, publicFile, codec.decodePublic).None?
      ensures r.Err? ==> data == old(data)
      ensures r.Ok? ==>
                data == StoredData(DecodeFile(fs.files, privateFile, codec.decodePrivate).GetOr(DefaultPrivate),
                                   DecodeFile(fs.files, publicFile, codec.decodePublic).value)
    {
      var bytes := fs.ReadFile(publicFile);
      if bytes.Err? {
        return Err("Trying to open public storage file: " + bytes.msg);
      }
      var decoded := codec.decodePublic(bytes.value);
      if decoded.None? {
        return Err("Trying to read public storage");
      }
      data := data.(public := decoded.value);
      var p := LoadPrivate(fs, codec);
      if p.Err? {
        data := data.(private := DefaultPrivate);
      }
      return Ok(());
    }

    /**
     * `save`: the public part, then the private part, each written to the
     * temporary file and renamed over its destination. On success both files
     * hold the encodings and the temporary file is gone. On failure the
     * private file is untouched, the public file is either untouched or
     * fully replaced (never half-written), and no other file but the
     * temporary one has changed.
     */
    method Save(fs: FileSystem, codec: StorageCodec) returns (r: Result<()>)
      requires Valid()
      modifies fs
      ensures r.Ok? ==>
                && publicFile != []
                && fs.files == (old(fs.files) - {TempPath(publicFile)})
                                 [publicFile := codec.encodePublic(data.public)]
                                 [privateFile := codec.encodePrivate(data.private)]
      ensures r.Err? && publicFile == [] ==> fs.files == old(fs.files)
      ensures r.Err? && publicFile != [] ==>
                var touched := {publicFile, privateFile, TempPath(publicFile)};
                && fs.files - touched == old(fs.files) - touched
                && SameAt(fs.files, old(fs.files), privateFile)
                && (SameAt(fs.files, old(fs.files), publicFile)
                    || (publicFile in fs.files && fs.files[publicFile] == codec.encodePublic(data.public)))
    {
      var parent := Parent(publicFile);
      if parent.Some? {
        var made := fs.CreateDirAll(parent.value);
        if made.Err? {
          return Err("Could not create dir: " + made.msg);
        }
      }
      if FileName(publicFile).None? {
        return Err("Can't save storage due to issue determining file path");
      }
      var temp := TempPath(publicFile);
      var encPub, encPriv := codec.encodePublic(data.public), codec.encodePrivate(data.private);
      var w := fs.WriteFile(temp, encPub);
      if w.Err? {
        OnlyTempChanged(old(fs.files), fs.files, temp, publicFile, privateFile);
        return Err("Could not write storage: " + w.msg);
      }
      var m := fs.Rename(temp, publicFile);
      if m.Err? {
        return Err(m.msg);
      }
      ghost var afterPublic := fs.files;
      assert afterPublic == (old(fs.files) - {temp})[publicFile := encPub];
      w := fs.WriteFile(temp, encPriv);
      if w.Err? {
        PublicReplaced(old(fs.files), afterPublic, fs.files, temp, publicFile, privateFile, encPub);
        return Err("Could not write storage: " + w.msg);
      }
      m := fs.Rename(temp, privateFile);
      if m.Err? {
        assert fs.files - {temp} == afterPublic - {temp};
        PublicReplaced(old(fs.files), afterPublic, fs.files, temp, publicFile, privateFile, encPub);
        return Err(m.msg);
      }
      return Ok(());
    }

    /** A successful save followed by a load restores exactly the data saved. */
    method SaveThenLoad(fs: FileSystem, codec: StorageCodec) returns (saved: Result<()>, loaded: Result<()>)
      requires Valid() && RoundTrips(codec)
      modifies this, fs
      ensures saved.Ok? ==> loaded.Ok? && data == old(data)
    {
      saved := Save(fs, codec);
      if saved.Ok? {
        SavedFilesLoadBack(fs.files, publicFile, privateFile, codec, data);
      }
      loaded := Load(fs, codec);
    }
  }
}
