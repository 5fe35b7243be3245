/** Audio upload validation, storage and upload-directory maintenance
    (`backend/services/audio_service.py`).

    The upload directory on disk is modelled as a map from entry name to entry;
    the random file id, the clock and the outcome of each file-system call are
    parameters of the operations. */
module Audio {
  import opened Wrappers
  import opened PyText
  import opened PurePath
  import opened Config

  newtype Byte = x: int | 0 <= x < 256

  /** One entry of the upload directory: a regular file or not (a sub-directory,
      say), its bytes, and its modification time in seconds. */
  datatype Entry = Entry(isFile: bool, data: seq<Byte>, mtime: real)

  /** The upload directory: entry name to entry. */
  type Directory = map<string, Entry>

  /** The metadata record `save_audio_file` returns. */
  datatype FileInfo = FileInfo(
    fileId: string,
    filename: string,
    filePath: string,
    fileSize: nat,
    contentType: string,
    durationEstimate: real,
    status: string)

  /** The ways `save_audio_file` fails; each is raised as an HTTP error. */
  datatype SaveError =
    | UnsupportedFormat(contentType: string)
    | TooLarge
    | EmptyFile
    | StorageFailure

  /** The extension used when the upload's file name gives none. */
  const DEFAULT_EXTENSION: string := ".wav"

  /** The content type reported when the upload declares none. */
  const UNKNOWN_CONTENT_TYPE: string := "audio/unknown"

  /** The bit rate, in bits per second, the duration estimate assumes (128 kbps). */
  const ASSUMED_BITRATE: nat := 128 * 1000

  /** The HTTP status each failure is raised with: the validation failures are
      the client's fault, a failed write is the server's. */
  function StatusCode(e: SaveError): (code: int)
    ensures code == 400 || code == 500
    ensures code == 500 <==> e.StorageFailure?
  {
    if e.StorageFailure? then 500 else 400
  }

  // ---------------------------------------------------------------------------
  // Validation

  /** Python's truthiness of an optional string: present and not empty. */
  predicate Given(s: Option<string>)
  {
    s.Some? && s.value != ""
  }

  /** The content-type guard lets the upload through: no type was declared, or
      the declared one is on the allow-list. */
  predicate TypeAccepted(contentType: Option<string>)
    ensures !Given(contentType) ==> TypeAccepted(contentType)
    ensures TypeAccepted(contentType) && Given(contentType) ==>
      |contentType.value| > 6 && contentType.value[..6] == "audio/"
  {
    !Given(contentType) || contentType.value in ALLOWED_AUDIO_FORMATS
  }

  /** The three guards of `save_audio_file`, in their order: the first that fails
      decides the error, and `None` means the upload may be stored. */
  function ValidateUpload(contentType: Option<string>, size: nat): (r: Option<SaveError>)
    ensures r != Some(StorageFailure)
    ensures (r.Some? && r.value.UnsupportedFormat?) <==> !TypeAccepted(contentType)
    ensures !TypeAccepted(contentType) ==> r == Some(UnsupportedFormat(contentType.value))
    ensures r == Some(TooLarge) <==> TypeAccepted(contentType) && size > MAX_FILE_SIZE
    ensures r == Some(EmptyFile) <==> TypeAccepted(contentType) && size == 0
    ensures r == None <==> TypeAccepted(contentType) && 0 < size <= MAX_FILE_SIZE
  {
    if !TypeAccepted(contentType) then Some(UnsupportedFormat(contentType.value))
    else if size > MAX_FILE_SIZE then Some(TooLarge)
    else if size == 0 then Some(EmptyFile)
    else None
  }

  /** Concrete uploads: an empty WAV is empty, eleven million bytes are too
      large, 1 KiB is stored, and a type off the allow-list wins over size. */
  lemma ValidateUploadExamples()
    ensures ValidateUpload(Some("audio/wav"), 0) == Some(EmptyFile)
    ensures ValidateUpload(Some("audio/wav"), 11000000) == Some(TooLarge)
    ensures ValidateUpload(Some("audio/wav"), 1024) == None
    ensures ValidateUpload(Some("text/plain"), 0) == Some(UnsupportedFormat("text/plain"))
    ensures ValidateUpload(None, MAX_FILE_SIZE) == None
    ensures ValidateUpload(Some(""), MAX_FILE_SIZE + 1) == Some(TooLarge)
  {
  }

  // ---------------------------------------------------------------------------
  // File names and duration

  /** The original name gives no usable extension: absent, empty, or its final
      component has no suffix. */
  predicate NoSuffix(filename: Option<string>)
  {
    !Given(filename) || Suffix(Name(filename.value)) == ""
  }

  /** `_get_file_extension`: the lowercased suffix of the original name, or
      `.wav` when there is none. The result is a single dot followed by at least
      one character, with no path separator, no further dot and no upper case. */
  function GetFileExtension(filename: Option<string>): (ext: string)
    ensures |ext| >= 2 && ext[0] == '.'
    ensures '/' !in ext && '.' !in ext[1..]
    ensures forall k :: 0 <= k < |ext| ==> !IsAsciiUpper(ext[k])
    ensures NoSuffix(filename) ==> ext == DEFAULT_EXTENSION
    ensures !NoSuffix(filename) ==> ext == Lower(Suffix(Name(filename.value)))
  {
    if !Given(filename) then DEFAULT_EXTENSION
    else
      var name := Name(filename.value);
      var suffix := Suffix(name);
      if suffix == "" then DEFAULT_EXTENSION
      else
        var ext := Lower(suffix);
        assert '/' !in suffix by {
          forall k | 0 <= k < |suffix| ensures suffix[k] != '/' {
            assert suffix[k] == name[|name| - |suffix| + k];
          }
        }
        assert '.' !in ext[1..] by {
          forall k | 1 <= k < |ext| ensures ext[k] != '.' {
            assert suffix[1..][k - 1] == suffix[k];
          }
        }
        ext
  }

  /** Lowering the name first is harmless: a name and its lower-case spelling
      resolve to the same extension. */
  lemma {:induction false} GetFileExtensionCaseInsensitive(filename: string)
    ensures GetFileExtension(Some(Lower(filename))) == GetFileExtension(Some(filename))
  {
    LowerIsDotIff(filename);
    NameOfLower(filename);
    SuffixOfLower(Name(filename));
    LowerIdempotent(Suffix(Name(filename)));
  }

  /** The stored file name: the file id followed by the resolved extension. */
  function StoredName(fileId: string, filename: Option<string>): (name: string)
    ensures |name| >= |fileId| + 2
    ensures name[..|fileId|] == fileId && name[|fileId|..] == GetFileExtension(filename)
  {
    fileId + GetFileExtension(filename)
  }

  /** An id without a path separator (a UUID, for one) gives a stored name that
      is a single entry of the upload directory and ends in the extension. */
  lemma StoredNameIsPlain(fileId: string, filename: Option<string>)
    requires '/' !in fileId
    ensures '/' !in StoredName(fileId, filename)
    ensures StoredName(fileId, filename)[|fileId|..] == GetFileExtension(filename)
  {
  }

  /** A plain `stem.ext` name resolves to its own extension, lowercased. */
  lemma GetFileExtensionOfPlainName(stem: string, ext: string)
    requires stem != "" && ext != ""
    requires '/' !in stem && '/' !in ext && '.' !in ext
    ensures GetFileExtension(Some(stem + "." + ext)) == Lower("." + ext)
  {
    var name := stem + "." + ext;
    assert Name(name) == name by {
      assert '/' !in name by {
        assert name == stem + ['.'] + ext;
      }
      PlainName(name);
    }
    SuffixOfDottedName(stem, ext);
  }

  /** A name inside a directory, `dir/stem.ext`, resolves to its own extension,
      lowercased; the directory part plays no role. */
  lemma GetFileExtensionOfNestedName(dir: string, stem: string, ext: string)
    requires stem != "" && ext != ""
    requires '/' !in stem && '/' !in ext && '.' !in ext
    ensures GetFileExtension(Some(dir + "/" + stem + "." + ext)) == Lower("." + ext)
  {
    var base := stem + "." + ext;
    assert '/' !in base by {
      assert base == stem + ['.'] + ext;
    }
    assert dir + "/" + stem + "." + ext == dir + "/" + base;
    NameOfChild(dir, base);
    SuffixOfDottedName(stem, ext);
  }

  /** A hidden file `.rest` without a further dot has no suffix, so it gets `.wav`. */
  lemma GetFileExtensionOfHiddenName(rest: string)
    requires '/' !in rest && '.' !in rest && rest != ""
    ensures GetFileExtension(Some("." + rest)) == DEFAULT_EXTENSION
  {
    var name := "." + rest;
    assert "" + ['.'] + rest == name;
    assert '/' !in name;
    PlainName(name);
    LastIndexOfLast("", '.', rest);
    assert Suffix(Name(name)) == "";
  }

  /** `_estimate_duration` before rounding: seconds of audio at 128 kbps. The
      estimate is never negative, zero only for an empty file, and times the bit
      rate gives back the file's size in bits. */
  function EstimateDuration(fileSize: nat): (seconds: real)
    ensures seconds >= 0.0
    ensures seconds == 0.0 <==> fileSize == 0
    ensures seconds * ASSUMED_BITRATE as real == (fileSize * 8) as real
  {
    (fileSize * 8) as real / ASSUMED_BITRATE as real
  }

  /** A larger file never gets a shorter estimate. */
  lemma EstimateDurationMonotone(a: nat, b: nat)
    requires a <= b
    ensures EstimateDuration(a) <= EstimateDuration(b)
  {
  }

  /** Every accepted upload is estimated at no more than 655.36 seconds. */
  lemma EstimateDurationBound(fileSize: nat)
    requires fileSize <= MAX_FILE_SIZE
    ensures EstimateDuration(fileSize) <= 655.36
  {
    EstimateDurationMonotone(fileSize, MAX_FILE_SIZE);
  }

  /** 1 KiB is estimated at 0.064 seconds, the largest accepted upload at 655.36. */
  lemma EstimateDurationExamples()
    ensures EstimateDuration(1024) == 0.064
    ensures EstimateDuration(MAX_FILE_SIZE) == 655.36
  {
  }

  // ---------------------------------------------------------------------------
  // The directory: statistics, storing, sweeping

  /** The names of the regular files of a directory. */
  function RegularFiles(d: Directory): (names: set<string>)
    ensures names <= d.Keys && |names| <= |d|
    ensures forall n :: n in names ==> d[n].isFile
  {
    var names := set n | n in d && d[n].isFile;
    SubsetSize(names, d.Keys);
    names
  }

  /** A subset is no larger than the set it is taken from. */
  lemma {:induction false} SubsetSize(part: set<string>, whole: set<string>)
    requires part <= whole
    ensures |part| <= |whole|
    decreases part
  {
    if part != {} {
      var n :| n in part;
      SubsetSize(part - {n}, whole - {n});
    }
  }

  /** The size of the named entry, 0 when there is none. */
  function FileSize(d: Directory, n: string): nat
  {
    if n in d then |d[n].data| else 0
  }

  /** The summed sizes of the named entries. */
  ghost function TotalSize(d: Directory, names: set<string>): (total: nat)
    ensures total == 0 <==> forall n :: n in names ==> FileSize(d, n) == 0
    decreases names
  {
    if names == {} then 0
    else
      var n :| n in names;
      FileSize(d, n) + TotalSize(d, names - {n})
  }

  /** The sum may be taken apart at any of its names. */
  lemma {:induction false} TotalSizeRemove(d: Directory, names: set<string>, n: string)
    requires n in names
    ensures TotalSize(d, names) == FileSize(d, n) + TotalSize(d, names - {n})
    decreases names
  {
    var m :| m in names && TotalSize(d, names) == FileSize(d, m) + TotalSize(d, names - {m});
    if m != n {
      TotalSizeRemove(d, names - {m}, n);
      TotalSizeRemove(d, names - {n}, m);
      assert names - {m} - {n} == names - {n} - {m};
    }
  }

  /** Entries outside the summed names do not affect the sum. */
  lemma {:induction false} TotalSizeAgree(d: Directory, e: Directory, names: set<string>)
    requires forall n :: n in names ==> FileSize(d, n) == FileSize(e, n)
    ensures TotalSize(d, names) == TotalSize(e, names)
    decreases names
  {
    if names != {} {
      var n :| n in names;
      TotalSizeRemove(d, names, n);
      TotalSizeRemove(e, names, n);
      TotalSizeAgree(d, e, names - {n});
    }
  }

  /** The sum over a set is the sum over a part plus the sum over the rest. */
  lemma {:induction false} TotalSizeSplit(d: Directory, names: set<string>, part: set<string>)
    requires part <= names
    ensures TotalSize(d, names) == TotalSize(d, part) + TotalSize(d, names - part)
    decreases part
  {
    if part != {} {
      var n :| n in part;
      TotalSizeRemove(d, names, n);
      TotalSizeRemove(d, part, n);
      TotalSizeSplit(d, names - {n}, part - {n});
      assert names - {n} - (part - {n}) == names - part;
    } else {
      assert names - part == names;
    }
  }

  /** The statistics record `get_upload_stats` returns. */
  datatype UploadStats = UploadStats(totalFiles: nat, totalSize: nat, totalSizeMb: real, uploadDir: string)

  /** The directory after one file is written under `name` (created, or
      truncated and rewritten when it exists). */
  function Store(d: Directory, name: string, content: seq<Byte>, now: real): (d': Directory)
    ensures d'.Keys == d.Keys + {name}
    ensures name in d' && d'[name] == Entry(true, content, now)
    ensures forall n :: n in d && n != name ==> d'[n] == d[n]
    ensures name !in d ==> |d'| == |d| + 1
  {
    d[name := Entry(true, content, now)]
  }

  /** Writing a fresh file adds one regular file and its size to the totals. */
  lemma StoreStats(d: Directory, name: string, content: seq<Byte>, now: real)
    requires name !in d
    ensures RegularFiles(Store(d, name, content, now)) == RegularFiles(d) + {name}
    ensures |RegularFiles(Store(d, name, content, now))| == |RegularFiles(d)| + 1
    ensures TotalSize(Store(d, name, content, now), RegularFiles(Store(d, name, content, now)))
         == TotalSize(d, RegularFiles(d)) + |content|
  {
    var d' := Store(d, name, content, now);
    var r := RegularFiles(d);
    assert RegularFiles(d') == r + {name};
    TotalSizeRemove(d', r + {name}, name);
    assert (r + {name}) - {name} == r;
    TotalSizeAgree(d', d, r);
  }

  /** The sweep's test: a regular file whose age is more than `hours` hours. */
  predicate Expired(e: Entry, now: real, hours: int)
    ensures Expired(e, now, hours) ==> e.isFile
    ensures hours >= 0 && Expired(e, now, hours) ==> e.mtime < now
  {
    e.isFile && now - e.mtime > (hours * 3600) as real
  }

  /** The files a sweep removes: expired ones whose removal does not fail. */
  function Removable(d: Directory, now: real, hours: int, unremovable: set<string>): set<string>
  {
    set n | n in d && Expired(d[n], now, hours) && n !in unremovable
  }

  /** The directory after `cleanup_old_files`: nothing is added or altered; a
      file that is not expired (and every non-file) stays; a file whose removal
      failed stays; and no other expired file is left. */
  function Sweep(d: Directory, now: real, hours: int, unremovable: set<string>): (d': Directory)
    ensures d'.Keys <= d.Keys
    ensures forall n :: n in d' ==> d'[n] == d[n]
    ensures forall n :: n in d && !Expired(d[n], now, hours) ==> n in d'
    ensures forall n :: n in d && n in unremovable ==> n in d'
    ensures forall n :: n in d' && n !in unremovable ==> !Expired(d'[n], now, hours)
  {
    d - Removable(d, now, hours, unremovable)
  }

  /** Sweeping twice at the same moment removes nothing more. */
  lemma SweepIdempotent(d: Directory, now: real, hours: int, unremovable: set<string>)
    ensures Sweep(Sweep(d, now, hours, unremovable), now, hours, unremovable)
         == Sweep(d, now, hours, unremovable)
  {
    var d' := Sweep(d, now, hours, unremovable);
    assert Removable(d', now, hours, unremovable) == {};
  }

  /** A failed removal does not stop the sweep: every other expired file is
      removed exactly as if no removal had failed. */
  lemma SweepIsolatesFailures(d: Directory, now: real, hours: int, unremovable: set<string>, n: string)
    requires n !in unremovable
    ensures n in Sweep(d, now, hours, unremovable) <==> n in Sweep(d, now, hours, {})
  {
  }

  /** The sweep takes out exactly the removable files, and with them their sizes. */
  lemma SweepStats(d: Directory, now: real, hours: int, unremovable: set<string>)
    ensures var rm := Removable(d, now, hours, unremovable);
      && rm <= RegularFiles(d)
      && RegularFiles(Sweep(d, now, hours, unremovable)) == RegularFiles(d) - rm
      && |RegularFiles(Sweep(d, now, hours, unremovable))| == |RegularFiles(d)| - |rm|
      && TotalSize(Sweep(d, now, hours, unremovable), RegularFiles(Sweep(d, now, hours, unremovable)))
         == TotalSize(d, RegularFiles(d)) - TotalSize(d, rm)
  {
    var rm := Removable(d, now, hours, unremovable);
    var d' := Sweep(d, now, hours, unremovable);
    var r := RegularFiles(d);
    assert RegularFiles(d') == r - rm;
    assert r == (r - rm) + rm && (r - rm) !! rm;
    TotalSizeSplit(d, r, rm);
    assert r - rm == r - (r - (r - rm));
    TotalSizeAgree(d', d, r - rm);
  }

  /** One step of the sweep's loop: taking `name` off the names still to visit
      adds it to the removed ones exactly when it is removable, and leaves the
      directory as the original minus the removed names. */
  lemma SweepStep(d: Directory, removable: set<string>, removed: set<string>,
                  pending: set<string>, name: string)
    requires name in pending && removed == removable - pending
    ensures name !in removed && (name in d ==> name in d - removed)
    ensures name in removable ==> removed + {name} == removable - (pending - {name})
    ensures name in removable ==> |removed + {name}| == |removed| + 1
    ensures name in removable ==> (d - removed) - {name} == d - (removed + {name})
    ensures name !in removable ==> removed == removable - (pending - {name})
  {
  }

  /** With the default threshold of 24 hours, a file 25 hours old goes and a
      file 1 hour old stays. */
  lemma SweepExample(stale: seq<Byte>, recent: seq<Byte>, now: real)
    ensures var d := map["a.wav" := Entry(true, stale, now - 25.0 * 3600.0),
                         "b.wav" := Entry(true, recent, now - 3600.0)];
      Sweep(d, now, TEMP_FILE_CLEANUP_HOURS, {}) == map["b.wav" := Entry(true, recent, now - 3600.0)]
  {
    var d := map["a.wav" := Entry(true, stale, now - 25.0 * 3600.0),
                 "b.wav" := Entry(true, recent, now - 3600.0)];
    assert Removable(d, now, TEMP_FILE_CLEANUP_HOURS, {}) == {"a.wav"};
  }

  // ---------------------------------------------------------------------------
  // The service

  /** `AudioService`: the upload directory it owns and the operations on it. */
  class AudioService {
    /** The path of the upload directory. */
    const uploadDir: string
    /** What the upload directory holds. */
    var files: Directory

    /** `__init__`: takes over the upload directory (creating it if missing
        leaves whatever it already holds). */
    constructor (uploadDir: string, existing: Directory)
      ensures this.uploadDir == uploadDir && files == existing
    {
      this.uploadDir := uploadDir;
      files := existing;
    }

    /** `get_upload_stats`: the number of regular files and their total size,
        or zeros when the directory cannot be listed. */
    ghost function GetUploadStats(listingFails: bool): (s: UploadStats)
      reads this
      ensures s.uploadDir == uploadDir
      ensures listingFails ==> s.totalFiles == 0 && s.totalSize == 0
      ensures !listingFails ==> s.totalFiles == |RegularFiles(files)| && s.totalSize == TotalSize(files, RegularFiles(files))
      ensures s.totalFiles == 0 ==> s.totalSize == 0
      ensures s.totalSizeMb * (1024 * 1024) as real == s.totalSize as real
    {
      if listingFails then UploadStats(0, 0, 0.0, uploadDir)
      else
        var names := RegularFiles(files);
        var total := TotalSize(files, names);
        UploadStats(|names|, total, total as real / (1024 * 1024) as real, uploadDir)
    }

    /** `save_audio_file`: validate and store an upload. `fileId` is the id the
        service generates, `now` the time the file system stamps on the write,
        and `writeFails` whether opening or writing the file fails. */
    method SaveAudioFile(content: seq<Byte>, contentType: Option<string>, filename: Option<string>,
                         fileId: string, now: real, writeFails: bool)
      returns (r: Result<FileInfo, SaveError>)
      modifies this
      ensures ValidateUpload(contentType, |content|).Some? ==>
        r == Failure(ValidateUpload(contentType, |content|).value) && files == old(files)
      ensures ValidateUpload(contentType, |content|) == None && writeFails ==>
        r == Failure(StorageFailure) && files == old(files)
      ensures r.Success? <==> ValidateUpload(contentType, |content|) == None && !writeFails
      ensures r.Success? ==> files == Store(old(files), StoredName(fileId, filename), content, now)
      ensures r.Success? ==>
        && r.value.fileId == fileId
        && r.value.filename == StoredName(fileId, filename)
        && r.value.filePath == uploadDir + "/" + r.value.filename
        && r.value.fileSize == |content|
        && 0 < r.value.fileSize <= MAX_FILE_SIZE
        && r.value.contentType == (if Given(contentType) then contentType.value else UNKNOWN_CONTENT_TYPE)
        && r.value.durationEstimate == EstimateDuration(|content|)
        && r.value.status == "saved"
      ensures r.Success? && StoredName(fileId, filename) !in old(files) ==>
        && GetUploadStats(false).totalFiles == old(GetUploadStats(false).totalFiles) + 1
        && GetUploadStats(false).totalSize == old(GetUploadStats(false).totalSize) + |content|
    {
      if Given(contentType) && contentType.value !in ALLOWED_AUDIO_FORMATS {
        return Failure(UnsupportedFormat(contentType.value));
      }
      if |content| > MAX_FILE_SIZE {
        return Failure(TooLarge);
      }
      if |content| == 0 {
        return Failure(EmptyFile);
      }
      var name := fileId + GetFileExtension(filename);
      if writeFails {
        return Failure(StorageFailure);
      }
      if name !in files {
        StoreStats(files, name, content, now);
      }
      files := files[name := Entry(true, content, now)];
      var shownType := if Given(contentType) then contentType.value else UNKNOWN_CONTENT_TYPE;
      r := Success(FileInfo(fileId, name, uploadDir + "/" + name, |content|, shownType,
                            EstimateDuration(|content|), "saved"));
    }

    /** `cleanup_old_files`: remove every regular file older than `hours` hours
        at time `now`. Names in `unremovable` are those whose removal fails; such
        a failure is skipped and the sweep goes on. `listingFails` is a failure
        to list the directory, which ends the sweep before it starts. Returns the
        number of files removed. */
    method CleanupOldFiles(hours: int, now: real, unremovable: set<string>, listingFails: bool)
      returns (cleaned: nat)
      modifies this
      ensures listingFails ==> files == old(files) && cleaned == 0
      ensures !listingFails ==> files == Sweep(old(files), now, hours, unremovable)
      ensures !listingFails ==> cleaned == |Removable(old(files), now, hours, unremovable)|
      ensures GetUploadStats(false).totalFiles == old(GetUploadStats(false).totalFiles) - cleaned
    {
      cleaned := 0;
      if listingFails {
        return;
      }
      ghost var removable := Removable(files, now, hours, unremovable);
      var pending := files.Keys;
      ghost var removed: set<string> := {};
      while pending != {}
        invariant pending <= old(files).Keys
        invariant removed == removable - pending
        invariant files == old(files) - removed
        invariant cleaned == |removed|
        decreases pending
      {
        var name :| name in pending;
        SweepStep(old(files), removable, removed, pending, name);
        pending := pending - {name};
        var entry := files[name];
        if entry.isFile && now - entry.mtime > (hours * 3600) as real {
          if name !in unremovable {
            files := files - {name};
            removed := removed + {name};
            cleaned := cleaned + 1;
          }
        }
      }
      assert removed == removable;
      assert files == Sweep(old(files), now, hours, unremovable);
      SweepStats(old(files), now, hours, unremovable);
    }
  }
}
