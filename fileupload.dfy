/** The upload widget's list of selected files: a batch is validated file by
    file and committed only when every file passes, entries are removed by
    id, and an upload hands the files over and clears the list. */
module FileUpload {
  import opened Seqs
  import opened Text
  import opened Values

  /** A browser `File`: its name, its size in bytes and its MIME type. */
  datatype UploadFile = UploadFile(name: string, size: nat, mimeType: string)

  /** A listed file with its generated id; the image preview is not modelled. */
  datatype FileEntry = FileEntry(file: UploadFile, id: string)

  /** The props: the `accept` pattern, whether a batch appends, the size limit
      in bytes, and the MIME-type match `accept` stands for. */
  datatype Config = Config(accept: string, multiple: bool, maxSize: int, acceptsType: string -> bool)

  /** The defaults: any type, one batch at a time, 5 MiB. */
  function DefaultConfig(acceptsType: string -> bool): (c: Config)
    ensures c.accept == "*" && !c.multiple && c.maxSize == 5 * 1024 * 1024
  {
    Config("*", false, 5 * 1024 * 1024, acceptsType)
  }

  /** Why a file is refused. */
  datatype FileError = TooLarge(fileName: string, maxSize: int) | WrongType(fileName: string)

  /** `validateFile`: a zero limit switches the size check off; the size check
      comes before the type check; `*` accepts every type. */
  function Validate(cfg: Config, f: UploadFile): (r: Option<FileError>)
    ensures r == Some(TooLarge(f.name, cfg.maxSize)) <==> cfg.maxSize != 0 && f.size > cfg.maxSize
    ensures r == Some(WrongType(f.name)) <==>
              !(cfg.maxSize != 0 && f.size > cfg.maxSize) && cfg.accept != "*" && !cfg.acceptsType(f.mimeType)
    ensures r == None <==>
              !(cfg.maxSize != 0 && f.size > cfg.maxSize) && (cfg.accept == "*" || cfg.acceptsType(f.mimeType))
  {
    if cfg.maxSize != 0 && f.size > cfg.maxSize then Some(TooLarge(f.name, cfg.maxSize))
    else if cfg.accept != "*" && !cfg.acceptsType(f.mimeType) then Some(WrongType(f.name))
    else None
  }

  /** `${file.name}-${Date.now()}-${i}`, the clock reading given as `stamp`. */
  function EntryId(name: string, stamp: nat, i: nat): string
  {
    name + "-" + NatToString(stamp) + "-" + NatToString(i)
  }

  /** The errors of the first `n` files of the batch, in input order. */
  function ErrorsUpTo(cfg: Config, batch: seq<UploadFile>, n: nat): seq<FileError>
    requires n <= |batch|
  {
    if n == 0 then []
    else ErrorsUpTo(cfg, batch, n - 1) +
         (match Validate(cfg, batch[n - 1]) case Some(e) => [e] case None => [])
  }

  /** The entries made for the valid files among the first `n`, in input
      order; `stamps[i]` is the clock reading while file `i` is handled. */
  function AcceptedUpTo(cfg: Config, batch: seq<UploadFile>, stamps: seq<nat>, n: nat): seq<FileEntry>
    requires n <= |batch| <= |stamps|
  {
    if n == 0 then []
    else AcceptedUpTo(cfg, batch, stamps, n - 1) +
         (if Validate(cfg, batch[n - 1]).None?
          then [FileEntry(batch[n - 1], EntryId(batch[n - 1].name, stamps[n - 1], n - 1))]
          else [])
  }

  /** Every file of the batch passes validation. */
  predicate AllValid(cfg: Config, batch: seq<UploadFile>)
  {
    forall i :: 0 <= i < |batch| ==> Validate(cfg, batch[i]).None?
  }

  /** Each file yields exactly one entry or one error. */
  lemma {:induction false} EntriesPlusErrors(cfg: Config, batch: seq<UploadFile>, stamps: seq<nat>, n: nat)
    requires n <= |batch| <= |stamps|
    ensures |AcceptedUpTo(cfg, batch, stamps, n)| + |ErrorsUpTo(cfg, batch, n)| == n
  {
    if n > 0 {
      EntriesPlusErrors(cfg, batch, stamps, n - 1);
    }
  }

  /** No error is reported iff every file seen is valid. */
  lemma {:induction false} NoErrorsIffAllValid(cfg: Config, batch: seq<UploadFile>, n: nat)
    requires n <= |batch|
    ensures ErrorsUpTo(cfg, batch, n) == [] <==> forall i :: 0 <= i < n ==> Validate(cfg, batch[i]).None?
  {
    if n > 0 {
      NoErrorsIffAllValid(cfg, batch, n - 1);
    }
  }

  /** In an all-valid batch the entries are the files in input order, entry
      `i` carrying the id made from file `i`. */
  lemma {:induction false} AllValidEntries(cfg: Config, batch: seq<UploadFile>, stamps: seq<nat>, n: nat)
    requires n <= |batch| <= |stamps|
    requires forall i :: 0 <= i < n ==> Validate(cfg, batch[i]).None?
    ensures |AcceptedUpTo(cfg, batch, stamps, n)| == n
    ensures forall i :: 0 <= i < n ==>
              AcceptedUpTo(cfg, batch, stamps, n)[i] == FileEntry(batch[i], EntryId(batch[i].name, stamps[i], i))
  {
    if n > 0 {
      AllValidEntries(cfg, batch, stamps, n - 1);
    }
  }

  /** Every entry made is for a valid file of the batch. */
  lemma {:induction false} EntriesAreValid(cfg: Config, batch: seq<UploadFile>, stamps: seq<nat>, n: nat)
    requires n <= |batch| <= |stamps|
    ensures forall e :: e in AcceptedUpTo(cfg, batch, stamps, n) ==> e.file in batch && Validate(cfg, e.file).None?
  {
    if n > 0 {
      EntriesAreValid(cfg, batch, stamps, n - 1);
    }
  }

  /** The loop of `processFiles`: it goes through the whole batch, reporting
      every invalid file to `onError` in order and making an entry for every
      valid one. */
  method ScanBatch(cfg: Config, batch: seq<UploadFile>, stamps: seq<nat>)
      returns (newFiles: seq<FileEntry>, errors: seq<FileError>)
    requires |batch| <= |stamps|
    ensures newFiles == AcceptedUpTo(cfg, batch, stamps, |batch|)
    ensures errors == ErrorsUpTo(cfg, batch, |batch|)
  {
    newFiles, errors := [], [];
    var i := 0;
    while i < |batch|
      invariant 0 <= i <= |batch|
      invariant newFiles == AcceptedUpTo(cfg, batch, stamps, i)
      invariant errors == ErrorsUpTo(cfg, batch, i)
    {
      var file := batch[i];
      var error := Validate(cfg, file);
      if error.Some? {
        errors := errors + [error.value];
      } else {
        newFiles := newFiles + [FileEntry(file, EntryId(file.name, stamps[i], i))];
      }
      i := i + 1;
    }
  }

  /** The id an entry is removed by. */
  function EntryKey(f: FileEntry): string
  {
    f.id
  }

  /** `prev.filter(f => f.id !== id)`. */
  function Remove(files: seq<FileEntry>, id: string): seq<FileEntry>
  {
    RemoveKey(files, EntryKey, id)
  }

  /** Removing drops every entry with that id, keeps every other entry as
      often as it was there, and keeps the order. */
  lemma RemoveDropsExactlyId(files: seq<FileEntry>, id: string)
    ensures forall e :: e in Remove(files, id) ==> e.id != id
    ensures forall e: FileEntry :: e.id != id ==> Count(Remove(files, id), e) == Count(files, e)
    ensures IsSubsequence(Remove(files, id), files)
  {
    RemoveKeyDropsExactly(files, EntryKey, id);
  }

  /** An id no entry has leaves the list as it is. */
  lemma RemoveUnknown(files: seq<FileEntry>, id: string)
    requires forall i :: 0 <= i < |files| ==> files[i].id != id
    ensures Remove(files, id) == files
  {
    RemoveKeyUnknown(files, EntryKey, id);
  }

  /** `files.map(f => f.file)`. */
  function FilesOf(entries: seq<FileEntry>): (r: seq<UploadFile>)
    ensures |r| == |entries|
    ensures forall i :: 0 <= i < |entries| ==> r[i] == entries[i].file
  {
    if entries == [] then [] else [entries[0].file] + FilesOf(entries[1..])
  }

  /** How the `onUpload` callback behaves: absent or returning normally,
      throwing an `Error` with a message, or throwing another value. */
  datatype UploadOutcome = Completes | ThrowsError(message: string) | ThrowsOther

  class Uploader {
    const cfg: Config
    var files: seq<FileEntry>
    var uploading: bool

    constructor (cfg: Config)
      ensures this.cfg == cfg && files == [] && !uploading
    {
      this.cfg := cfg;
      files := [];
      uploading := false;
    }

    /** `processFiles`: all-or-nothing; a clean batch is appended in
        `multiple` mode and replaces the list otherwise. */
    method ProcessFiles(batch: seq<UploadFile>, stamps: seq<nat>) returns (reported: seq<FileError>)
      requires |batch| <= |stamps|
      modifies this`files
      ensures reported == ErrorsUpTo(cfg, batch, |batch|)
      ensures !AllValid(cfg, batch) ==> files == old(files)
      ensures AllValid(cfg, batch) ==>
                files == (if cfg.multiple then old(files) else []) + AcceptedUpTo(cfg, batch, stamps, |batch|)
    {
      var newFiles, errors := ScanBatch(cfg, batch, stamps);
      reported := errors;
      NoErrorsIffAllValid(cfg, batch, |batch|);
      if |errors| == 0 {
        if cfg.multiple {
          files := files + newFiles;
        } else {
          files := newFiles;
        }
      }
    }

    /** `removeFile`. */
    method RemoveFile(id: string)
      modifies this`files
      ensures files == Remove(old(files), id)
    {
      files := Remove(files, id);
    }

    /** `handleUpload`: nothing on an empty list; otherwise the files go to
        `onUpload` in order, the list is cleared when it returns and kept
        when it throws, the error going to `onError`; `uploading` ends false. */
    method HandleUpload(outcome: UploadOutcome) returns (uploaded: Option<seq<UploadFile>>, reported: Option<string>)
      modifies this`files, this`uploading
      ensures old(files) == [] ==> files == [] && uploading == old(uploading) && uploaded == None && reported == None
      ensures old(files) != [] ==>
                !uploading &&
                uploaded == Some(FilesOf(old(files)))
      ensures old(files) != [] && outcome == Completes ==> files == [] && reported == None
      ensures old(files) != [] && outcome.ThrowsError? ==> files == old(files) && reported == Some(outcome.message)
      ensures old(files) != [] && outcome == ThrowsOther ==> files == old(files) && reported == Some("Upload failed")
    {
      uploaded, reported := None, None;
      if |files| == 0 {
        return;
      }
      uploading := true;
      uploaded := Some(FilesOf(files));
      match outcome {
        case Completes =>
          files := [];
        case ThrowsError(message) =>
          reported := Some(message);
        case ThrowsOther =>
          reported := Some("Upload failed");
      }
      uploading := false;
    }
  }

  /** A clean batch in single mode, then an upload that returns: the files
      reach `onUpload` in input order and the list ends empty. */
  method SelectThenUpload(u: Uploader, batch: seq<UploadFile>, stamps: seq<nat>)
      returns (uploaded: Option<seq<UploadFile>>)
    requires !u.cfg.multiple && |batch| <= |stamps| && batch != [] && AllValid(u.cfg, batch)
    modifies u
    ensures uploaded == Some(batch)
    ensures u.files == [] && !u.uploading
  {
    var reported := u.ProcessFiles(batch, stamps);
    AllValidEntries(u.cfg, batch, stamps, |batch|);
    var listed := u.files;
    assert listed == AcceptedUpTo(u.cfg, batch, stamps, |batch|);
    var err;
    uploaded, err := u.HandleUpload(Completes);
    assert FilesOf(listed) == batch;
  }
}
