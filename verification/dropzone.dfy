/**
  The image-batch intake and queue of the `MyDropzone` component
  (src/components/ui/dropzone.jsx).

  The component state is the queue `files`: a sequence of file records, in
  the order they were accepted. A drop receives the files the dropzone
  library accepted and the ones it rejected (each with its error codes),
  reports the rejection reasons, drops offered files whose name is already
  queued and appends the others. Files can be removed by name or all at
  once, and a submit issues one upload per queued file.
 */
module Dropzone {
  import opened Base
  import opened Sequences

  /** The dropzone configuration. The library enforces these before the
      component sees a file, so they appear here as named values only. */
  const AcceptedMimeType := "image/jpg"
  const AcceptedExtension := ".jpg"
  const MaxFiles := 15
  const MaxSize := 1024 * 10000

  /** The Cloudinary upload preset sent with every file. */
  const UploadPreset := "agri-images"

  /** Error codes the dropzone library attaches to a rejected file. */
  const FileTooLarge := "file-too-large"
  const TooManyFiles := "too-many-files"

  const SizeAndCountText := "Too many files (max 15) and some files exceed 10MB!"
  const SizeText := "Some files exceed the maximum size of 10MB!"
  const CountText := "Too many files! You can only upload up to 15."
  const DuplicateText := "Duplicate files detected! They will not be inserted."

  /** A file as the component sees it: only its name and its size matter. */
  datatype FileRecord = FileRecord(name: string, size: nat)

  /** A file the library refused, with the codes of its errors in order. */
  datatype FileRejection = FileRejection(file: FileRecord, codes: seq<string>)

  datatype RejectionFlags = RejectionFlags(sizeError: bool, countError: bool)

  /** The one error toast shown for the rejected files of a drop. */
  datatype RejectionNotice = SizeAndCount | SizeOnly | CountOnly

  /** What one drop leaves behind: the new queue and the toasts raised. */
  datatype DropResult = DropResult(
    queue: seq<FileRecord>,
    rejectionNotice: Option<RejectionNotice>,
    duplicateNotice: bool)

  /** One upload request: the file and the preset posted with it. */
  datatype Upload = Upload(file: FileRecord, preset: string)

  datatype SubmitResult = NothingSelected | Dispatched(uploads: seq<Upload>)

  /** Some error of some rejected file carries `code`. */
  ghost predicate HasCode(rejected: seq<FileRejection>, code: string) {
    exists i, j | 0 <= i < |rejected| && 0 <= j < |rejected[i].codes| :: rejected[i].codes[j] == code
  }

  /** Some queued file has this name. */
  predicate IsQueued(queue: seq<FileRecord>, name: string) {
    exists k | 0 <= k < |queue| :: queue[k].name == name
  }

  function FileName(f: FileRecord): string {
    f.name
  }

  /** Every file in `queue` has a name no other queued file has. */
  ghost predicate UniqueNames(queue: seq<FileRecord>) {
    DistinctKeys(queue, FileName)
  }

  // ---------------------------------------------------------------------
  // Rejected files

  /** The inner `errors.forEach`: one flag update per error code. */
  function ScanCodes(codes: seq<string>, flags: RejectionFlags): (r: RejectionFlags)
    ensures r.sizeError <==> flags.sizeError || FileTooLarge in codes
    ensures r.countError <==> flags.countError || TooManyFiles in codes
    decreases |codes|
  {
    if codes == [] then flags
    else
      var code := codes[0];
      var next :=
        if code == FileTooLarge then flags.(sizeError := true)
        else if code == TooManyFiles then flags.(countError := true)
        else flags;
      assert codes == [code] + codes[1..];
      ScanCodes(codes[1..], next)
  }

  /** The outer `rejectedFiles.forEach`. */
  function ScanRejections(rejected: seq<FileRejection>, flags: RejectionFlags): (r: RejectionFlags)
    ensures r.sizeError <==> flags.sizeError || HasCode(rejected, FileTooLarge)
    ensures r.countError <==> flags.countError || HasCode(rejected, TooManyFiles)
    decreases |rejected|
  {
    if rejected == [] then flags
    else
      var r := ScanRejections(rejected[1..], ScanCodes(rejected[0].codes, flags));
      assert forall c :: HasCode(rejected, c) <==> c in rejected[0].codes || HasCode(rejected[1..], c) by {
        forall c ensures HasCode(rejected, c) <==> c in rejected[0].codes || HasCode(rejected[1..], c) {
          if HasCode(rejected, c) {
            var i, j :| 0 <= i < |rejected| && 0 <= j < |rejected[i].codes| && rejected[i].codes[j] == c;
            if i > 0 {
              assert rejected[1..][i - 1].codes[j] == c;
            }
          }
          if HasCode(rejected[1..], c) {
            var i, j :| 0 <= i < |rejected[1..]| && 0 <= j < |rejected[1..][i].codes| && rejected[1..][i].codes[j] == c;
            assert rejected[i + 1].codes[j] == c;
          }
          if c in rejected[0].codes {
            var j :| 0 <= j < |rejected[0].codes| && rejected[0].codes[j] == c;
            assert rejected[0].codes[j] == c;
          }
        }
      }
      r
  }

  /** The two flags of a drop, both starting out false. */
  function Classify(rejected: seq<FileRejection>): (r: RejectionFlags)
    ensures r.sizeError <==> HasCode(rejected, FileTooLarge)
    ensures r.countError <==> HasCode(rejected, TooManyFiles)
  {
    ScanRejections(rejected, RejectionFlags(false, false))
  }

  /** The rejection toast of a drop: at most one of the three messages. */
  function ChooseNotice(rejected: seq<FileRejection>): (r: Option<RejectionNotice>)
    ensures r == Some(SizeAndCount) <==> HasCode(rejected, FileTooLarge) && HasCode(rejected, TooManyFiles)
    ensures r == Some(SizeOnly) <==> HasCode(rejected, FileTooLarge) && !HasCode(rejected, TooManyFiles)
    ensures r == Some(CountOnly) <==> !HasCode(rejected, FileTooLarge) && HasCode(rejected, TooManyFiles)
    ensures r == None <==> !HasCode(rejected, FileTooLarge) && !HasCode(rejected, TooManyFiles)
  {
    if |rejected| == 0 then None
    else
      var flags := Classify(rejected);
      if flags.sizeError && flags.countError then Some(SizeAndCount)
      else if flags.sizeError then Some(SizeOnly)
      else if flags.countError then Some(CountOnly)
      else None
  }

  // ---------------------------------------------------------------------
  // Accepted files

  /** The offered files that survive the duplicate filter: those whose
      name is not already in the queue as it was before the drop. */
  function Survivors(queue: seq<FileRecord>, offered: seq<FileRecord>): (r: seq<FileRecord>)
    ensures IsSubsequence(r, offered)
    ensures forall f :: f in r <==> f in offered && !IsQueued(queue, f.name)
    ensures forall f :: multiset(r)[f] == if IsQueued(queue, f.name) then 0 else multiset(offered)[f]
  {
    Filter(offered, (f: FileRecord) => !IsQueued(queue, f.name))
  }

  /** `onDrop`: the rejection toast, the duplicate toast and the new queue. */
  function OnDrop(queue: seq<FileRecord>, offered: seq<FileRecord>, rejected: seq<FileRejection>): (r: DropResult)
    ensures |r.queue| >= |queue| && r.queue[..|queue|] == queue
    ensures IsSubsequence(r.queue[|queue|..], offered)
    ensures forall f :: multiset(r.queue[|queue|..])[f] == if IsQueued(queue, f.name) then 0 else multiset(offered)[f]
    ensures r.duplicateNotice <==> exists i | 0 <= i < |offered| :: IsQueued(queue, offered[i].name)
    ensures r.rejectionNotice == ChooseNotice(rejected)
  {
    var survivors := Survivors(queue, offered);
    var duplicate := exists i | 0 <= i < |offered| :: IsQueued(queue, offered[i].name);
    var queue' := if |survivors| > 0 then queue + survivors else queue;
    assert queue'[|queue|..] == survivors;
    DropResult(queue', ChooseNotice(rejected), duplicate)
  }

  /** The message of a rejection toast. */
  function NoticeText(n: RejectionNotice): (t: string)
    ensures t != DuplicateText
    ensures t in {SizeAndCountText, SizeText, CountText}
  {
    match n
    case SizeAndCount => SizeAndCountText
    case SizeOnly => SizeText
    case CountOnly => CountText
  }

  /** The error toasts a drop raises, in order: the rejection toast, then
      the duplicate toast. */
  function DropToasts(d: DropResult): (r: seq<string>)
    ensures |r| == (if d.rejectionNotice.Some? then 1 else 0) + (if d.duplicateNotice then 1 else 0)
    ensures DuplicateText in r <==> d.duplicateNotice
    ensures d.rejectionNotice.Some? <==> r != [] && r[0] != DuplicateText
    ensures d.rejectionNotice.Some? ==> r[0] == NoticeText(d.rejectionNotice.value)
    ensures d.duplicateNotice ==> r[|r| - 1] == DuplicateText
  {
    (if d.rejectionNotice.Some? then [NoticeText(d.rejectionNotice.value)] else [])
    + (if d.duplicateNotice then [DuplicateText] else [])
  }

  /** A rejection message is shown exactly when its notice was chosen. */
  lemma RejectionTextShown(d: DropResult)
    ensures SizeAndCountText in DropToasts(d) <==> d.rejectionNotice == Some(SizeAndCount)
    ensures SizeText in DropToasts(d) <==> d.rejectionNotice == Some(SizeOnly)
    ensures CountText in DropToasts(d) <==> d.rejectionNotice == Some(CountOnly)
  {
    var r := DropToasts(d);
    var rest: seq<string> := if d.duplicateNotice then [DuplicateText] else [];
    assert SizeAndCountText !in rest && SizeText !in rest && CountText !in rest;
    match d.rejectionNotice
    case None =>
      assert r == rest;
    case Some(n) =>
      assert r == [NoticeText(n)] + rest;
  }

  /** Which toasts a drop shows, in terms of the codes of the rejected
      files and the names of the offered ones. */
  lemma DropToastsShown(queue: seq<FileRecord>, offered: seq<FileRecord>, rejected: seq<FileRejection>)
    ensures SizeAndCountText in DropToasts(OnDrop(queue, offered, rejected)) <==>
      HasCode(rejected, FileTooLarge) && HasCode(rejected, TooManyFiles)
    ensures SizeText in DropToasts(OnDrop(queue, offered, rejected)) <==>
      HasCode(rejected, FileTooLarge) && !HasCode(rejected, TooManyFiles)
    ensures CountText in DropToasts(OnDrop(queue, offered, rejected)) <==>
      !HasCode(rejected, FileTooLarge) && HasCode(rejected, TooManyFiles)
    ensures DuplicateText in DropToasts(OnDrop(queue, offered, rejected)) <==>
      exists i | 0 <= i < |offered| :: IsQueued(queue, offered[i].name)
  {
    RejectionTextShown(OnDrop(queue, offered, rejected));
  }

  // ---------------------------------------------------------------------
  // Removing and submitting

  /** `removeFile(name)`: keep the files whose name is not `name`. */
  function RemoveFile(queue: seq<FileRecord>, name: string): (r: seq<FileRecord>)
    ensures IsSubsequence(r, queue)
    ensures forall f :: f in r <==> f in queue && f.name != name
    ensures forall f :: multiset(r)[f] == if f.name == name then 0 else multiset(queue)[f]
  {
    Filter(queue, (f: FileRecord) => f.name != name)
  }

  /** `removeAllFiles`: the queue becomes `[]` whatever it held. */
  function RemoveAllFiles(queue: seq<FileRecord>): (r: seq<FileRecord>)
    ensures |r| == 0
    ensures forall name :: !IsQueued(r, name)
  {
    []
  }

  /** `files.map(...)`: one upload of each queued file, in queue order. */
  function UploadsFor(queue: seq<FileRecord>): (r: seq<Upload>)
    ensures |r| == |queue|
    ensures forall i | 0 <= i < |queue| :: r[i] == Upload(queue[i], UploadPreset)
    decreases |queue|
  {
    if queue == [] then []
    else [Upload(queue[0], UploadPreset)] + UploadsFor(queue[1..])
  }

  /** `handleSubmit`: an empty queue is refused and nothing is posted;
      otherwise every queued file is posted exactly once. */
  function HandleSubmit(queue: seq<FileRecord>): (r: SubmitResult)
    ensures r.NothingSelected? <==> queue == []
    ensures r.Dispatched? ==> |r.uploads| == |queue|
    ensures r.Dispatched? ==> forall i | 0 <= i < |queue| :: r.uploads[i].file == queue[i] && r.uploads[i].preset == UploadPreset
  {
    if |queue| == 0 then NothingSelected else Dispatched(UploadsFor(queue))
  }

  // ---------------------------------------------------------------------
  // Properties of the queue operations

  /** The new queue is exactly the old one followed by the survivors. */
  lemma DropAppendsSurvivors(queue: seq<FileRecord>, offered: seq<FileRecord>, rejected: seq<FileRejection>)
    ensures OnDrop(queue, offered, rejected).queue == queue + Survivors(queue, offered)
    ensures |OnDrop(queue, offered, rejected).queue| == |queue| + |Survivors(queue, offered)|
  {
  }

  /** When every offered name is already queued, the queue is unchanged
      and the duplicate toast is raised (if anything was offered). */
  lemma AllDuplicatesLeaveQueue(queue: seq<FileRecord>, offered: seq<FileRecord>, rejected: seq<FileRejection>)
    requires forall i | 0 <= i < |offered| :: IsQueued(queue, offered[i].name)
    ensures OnDrop(queue, offered, rejected).queue == queue
    ensures OnDrop(queue, offered, rejected).duplicateNotice <==> offered != []
  {
  }

  /** The duplicate check looks only at the queue as it was before the
      drop: two offered files with the same new name are both appended. */
  lemma SameNameOfferedTwiceBothAdded(queue: seq<FileRecord>, f: FileRecord, g: FileRecord)
    requires f.name == g.name && !IsQueued(queue, f.name)
    ensures OnDrop(queue, [f, g], []).queue == queue + [f, g]
    ensures !OnDrop(queue, [f, g], []).duplicateNotice
  {
    var offered := [f, g];
    assert forall i | 0 <= i < |offered| :: !IsQueued(queue, offered[i].name) by {
      assert offered[0] == f && offered[1] == g;
    }
    assert Survivors(queue, offered) == offered by {
      FilterKeepsAll(offered, (h: FileRecord) => !IsQueued(queue, h.name));
    }
    DropAppendsSurvivors(queue, offered, []);
  }

  /** A drop onto an empty queue can therefore leave two queued files
      with one name. */
  lemma DropCanQueueTwoFilesWithOneName()
    ensures !UniqueNames(OnDrop([], [FileRecord("a.jpg", 1), FileRecord("a.jpg", 2)], []).queue)
  {
  }

  /** A drop keeps queued names unique when the offered names are
      themselves distinct. */
  lemma DropKeepsUniqueNames(queue: seq<FileRecord>, offered: seq<FileRecord>, rejected: seq<FileRejection>)
    requires UniqueNames(queue) && UniqueNames(offered)
    ensures UniqueNames(OnDrop(queue, offered, rejected).queue)
  {
    var survivors := Survivors(queue, offered);
    var q' := OnDrop(queue, offered, rejected).queue;
    DropAppendsSurvivors(queue, offered, rejected);
    SubsequenceKeepsDistinctKeys(survivors, offered, FileName);
    forall i, j | 0 <= i < j < |q'| ensures q'[i].name != q'[j].name {
      if j >= |queue| {
        assert q'[j] == survivors[j - |queue|];
        assert q'[j] in survivors;
        assert !IsQueued(queue, q'[j].name);
        if i >= |queue| {
          assert q'[i] == survivors[i - |queue|];
        } else {
          assert q'[i] == queue[i];
        }
      }
    }
  }

  /** Removing a file that was just dropped onto a queue without its name
      gives back the queue as it was. */
  lemma RemoveUndoesDrop(queue: seq<FileRecord>, f: FileRecord)
    requires !IsQueued(queue, f.name)
    ensures RemoveFile(OnDrop(queue, [f], []).queue, f.name) == queue
  {
    var keep := (g: FileRecord) => g.name != f.name;
    assert Survivors(queue, [f]) == [f] by {
      assert [f][1..] == [];
    }
    DropAppendsSurvivors(queue, [f], []);
    FilterAppend(queue, [f], keep);
    FilterKeepsAll(queue, keep);
    assert [f][1..] == [];
    assert Filter([f], keep) == [];
  }

  /** Removing a name that is not queued changes nothing. */
  lemma RemoveAbsentName(queue: seq<FileRecord>, name: string)
    requires !IsQueued(queue, name)
    ensures RemoveFile(queue, name) == queue
  {
    FilterKeepsAll(queue, (f: FileRecord) => f.name != name);
  }

  /** Removing the same name twice is the same as removing it once. */
  lemma RemoveFileIdempotent(queue: seq<FileRecord>, name: string)
    ensures RemoveFile(RemoveFile(queue, name), name) == RemoveFile(queue, name)
  {
    var once := RemoveFile(queue, name);
    forall k | 0 <= k < |once| ensures once[k].name != name {
      assert once[k] in once;
    }
    RemoveAbsentName(once, name);
  }

  /** The names of the queued files, in queue order. */
  function Names(queue: seq<FileRecord>): (r: seq<string>)
    ensures |r| == |queue|
    ensures forall k | 0 <= k < |queue| :: r[k] == queue[k].name
  {
    if queue == [] then [] else [queue[0].name] + Names(queue[1..])
  }

  /** Pressing the remove button of each name in `names`, one after the other. */
  function RemoveEach(queue: seq<FileRecord>, names: seq<string>): (r: seq<FileRecord>)
    ensures forall f | f in r :: f in queue && f.name !in names
    decreases |names|
  {
    if names == [] then queue
    else
      var r := RemoveEach(RemoveFile(queue, names[0]), names[1..]);
      assert names == [names[0]] + names[1..];
      r
  }

  /** `removeAllFiles` leaves the same queue as removing every queued file
      by name: nothing is left. */
  lemma ClearEqualsRemovingEveryName(queue: seq<FileRecord>)
    ensures RemoveEach(queue, Names(queue)) == RemoveAllFiles(queue)
  {
    var names := Names(queue);
    forall f | f in queue ensures f.name in names {
      var k :| 0 <= k < |queue| && queue[k] == f;
      assert names[k] == f.name;
    }
    var r := RemoveEach(queue, names);
    forall f ensures multiset(r)[f] == 0 {
    }
    assert multiset(r) == multiset{};
  }

  /** After a clear, a submit is refused and posts nothing. */
  lemma SubmitAfterClearIsRefused(queue: seq<FileRecord>)
    ensures HandleSubmit(RemoveAllFiles(queue)) == NothingSelected
  {
  }

  /** A drop onto an empty queue keeps every offered file, so the next
      submit posts each of them once, in the order offered. */
  lemma SubmitAfterFirstDrop(offered: seq<FileRecord>, rejected: seq<FileRejection>)
    requires offered != []
    ensures HandleSubmit(OnDrop([], offered, rejected).queue) == Dispatched(UploadsFor(offered))
  {
    FilterKeepsAll(offered, (f: FileRecord) => !IsQueued([], f.name));
    DropAppendsSurvivors([], offered, rejected);
    assert [] + offered == offered;
  }
}
