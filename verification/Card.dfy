/** The card as the filesystem port sees it: files under their names. Whether a call succeeds is up to the card; what it
    leaves behind is not. */
module Card {
  import opened Bytes
  import A = Arbiter

  datatype FsStatus = FsOk | FsNotFound | FsRenameFailed | FsOther

  type Files = map<string, seq<byte>>

  /** The card is reached over the SPI bus, and both must be held for that. */
  const BUS: A.Mask := {A.SPI0, A.SD}

  /** Names under which files are written before they get their own. */
  predicate Temporary(path: string) { |path| >= 4 && path[|path| - 4..] == ".tmp" }

  /** No file but a temporary one is lost or changed. */
  ghost predicate Keeps(was: Files, now: Files) {
    forall p :: p in was && !Temporary(p) ==> p in now && now[p] == was[p]
  }

  /** A new file, and nothing else. */
  ghost predicate Added(was: Files, now: Files, path: string, data: seq<byte>) {
    Keeps(was, now) && path !in was && !Temporary(path) && path in now && now[path] == data
  }

  function Range(data: seq<byte>, offset: nat, length: nat): (bytes: seq<byte>)
    ensures |bytes| <= length
  {
    if offset >= |data| then [] else if offset + length <= |data| then data[offset..offset + length] else data[offset..]
  }

  /** What is read of a file is what stands there, and it is cut short only by the end of the file. */
  lemma RangeReadsBack(data: seq<byte>, offset: nat, length: nat)
    ensures var bytes := Range(data, offset, length);
            && (forall i :: 0 <= i < |bytes| ==> offset + i < |data| && bytes[i] == data[offset + i])
            && (|bytes| < length ==> offset + |bytes| >= |data|)
  {
  }

  lemma KeepsItself(files: Files)
    ensures Keeps(files, files)
  {
  }

  lemma KeepsTrans(a: Files, b: Files, c: Files)
    requires Keeps(a, b) && Keeps(b, c)
    ensures Keeps(a, c)
    ensures forall p, data :: Added(a, b, p, data) ==> Added(a, c, p, data)
  {
  }

  class Volume {
    const arbiter: A.ResourceArbiter
    var files: Files
    var directories: set<string>

    constructor (arbiter: A.ResourceArbiter, files: Files, directories: set<string>)
      ensures this.arbiter == arbiter && this.files == files && this.directories == directories
    {
      this.arbiter, this.files, this.directories := arbiter, files, directories;
    }

    ghost predicate Held()
      reads arbiter`active
    {
      BUS <= arbiter.active
    }

    method MakeDirectory(path: string) returns (status: FsStatus)
      requires Held()
      modifies this`directories
      ensures status == FsOk ==> directories == old(directories) + {path}
      ensures status != FsOk ==> directories == old(directories)
    {
      status := *;
      if status == FsOk {
        directories := directories + {path};
      }
    }

    method FileInfo(path: string) returns (status: FsStatus, isDir: bool, size: u32)
      requires Held()
      ensures status == FsOk ==> if isDir then path in directories else path in files && size == |files[path]| % WORD_LIMIT
    {
      isDir, status, size := path in directories, *, 0;
      if status == FsOk && !isDir {
        if path in files {
          size := |files[path]| % WORD_LIMIT;
        } else {
          status := FsNotFound;
        }
      }
    }

    /** The bytes of a file from an offset on, as many as are asked for and there are. */
    method ReadRange(path: string, offset: u32, length: u32) returns (status: FsStatus, bytes: seq<byte>)
      requires Held()
      ensures status == FsOk ==> path in files && bytes == Range(files[path], offset, length)
    {
      status, bytes := *, [];
      if status == FsOk {
        if path in files {
          bytes := Range(files[path], offset, length);
        } else {
          status := FsNotFound;
        }
      }
    }

    /** The entries of a directory from an offset on; how many there are is up to the card. */
    method ListPage(path: string, offset: u32, limit: u32) returns (status: FsStatus, count: u32)
      requires Held()
      ensures status == FsOk ==> path in directories && count <= limit
    {
      status, count := *, *;
      if status == FsOk && path !in directories {
        status := FsNotFound;
      }
      if count > limit {
        count := limit;
      }
    }

    method ReadText(path: string) returns (status: FsStatus, text: seq<byte>)
      requires Held()
      ensures status == FsOk ==> path in files && text == files[path]
    {
      status, text := *, [];
      if status == FsOk {
        if path in files {
          text := files[path];
        } else {
          status := FsNotFound;
        }
      }
    }

    /** The number of the last numbered file in a directory, as far as it was read. */
    method FindMaxSequence(directory: string, prefix: string, suffix: string) returns (status: FsStatus, last: u32)
      requires Held()
    {
      status, last := *, *;
    }

    /** A file is written under a temporary name and then renamed; renaming never replaces a file. */
    method WriteAtomic(path: string, temporary: string, data: seq<byte>) returns (status: FsStatus)
      requires Held() && Temporary(temporary) && !Temporary(path)
      modifies this`files
      ensures Keeps(old(files), files)
      ensures status == FsOk ==> Added(old(files), files, path, data)
    {
      var ready, made, written, renamed, removed: bool, part: seq<byte> := *, *, *, *, *, *;
      if !ready {
        return FsOther;
      }
      files := files - {temporary};
      if !made {
        return FsOther;
      }
      files := files[temporary := if written then data else part];
      if !written || path in files || !renamed {
        files := if removed then files - {temporary} else files;
        return if written then FsRenameFailed else FsOther;
      }
      files := files - {temporary};
      files := files[path := data];
      status := FsOk;
    }
  }
}
