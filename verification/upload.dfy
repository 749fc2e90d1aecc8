/** The upload panel's controller: at most one candidate résumé file, the latest validation
    error, and the drag-feedback flag. Each handler is a pure transition on `UploadState`;
    `Step` wires the user's gestures to handlers the way the rendered panel does. */
module Upload {
  import opened Wrappers
  import FileSize

  /** What the controller reads from a browser `File`. */
  datatype FileInfo = FileInfo(name: string, mimeType: string, size: nat)

  /** Why a selection was refused. */
  datatype UploadError = WrongType | TooLarge

  datatype UploadState = UploadState(file: Option<FileInfo>, error: Option<UploadError>, dragging: bool)

  const PdfType: string := "application/pdf"

  /** The size ceiling, 10 MiB; a file of exactly this size is accepted. */
  const MaxSize: nat := 10 * 1024 * 1024

  const Initial: UploadState := UploadState(None, None, false)

  /** The message the panel shows for each refusal. */
  function ErrorText(e: UploadError): (text: string)
    ensures |text| > 0
  {
    match e
    case WrongType => "Please upload a PDF file only."
    case TooLarge => "File size must be less than 10MB."
  }

  /** Distinct refusals show distinct messages, so the text alone tells the reason. */
  lemma ErrorTextInjective(a: UploadError, b: UploadError)
    ensures ErrorText(a) == ErrorText(b) ==> a == b
  {
    if a != b {
      assert ErrorText(a)[0] != ErrorText(b)[0];
    }
  }

  /** A file the controller accepts: exactly the PDF media type, at most `MaxSize` bytes. */
  predicate Acceptable(f: FileInfo)
  {
    f.mimeType == PdfType && f.size <= MaxSize
  }

  /** `validateFile`: the media type is checked first, so a file of another type is refused
      as the wrong type whatever its size; only a PDF can be refused as too large. */
  function Validate(f: FileInfo): (r: Option<UploadError>)
    ensures r == None <==> Acceptable(f)
    ensures r == Some(WrongType) <==> f.mimeType != PdfType
    ensures r == Some(TooLarge) <==> f.mimeType == PdfType && f.size > MaxSize
  {
    if f.mimeType != PdfType then Some(WrongType)
    else if f.size > MaxSize then Some(TooLarge)
    else None
  }

  /** `handleFileSelect`: the error is cleared, then either the refusal is recorded and the
      stored file kept, or the new file replaces whatever was stored. */
  function SelectFile(s: UploadState, f: FileInfo): (r: UploadState)
    ensures r.dragging == s.dragging
    ensures Acceptable(f) ==> r.file == Some(f) && r.error == None
    ensures !Acceptable(f) ==> r.file == s.file && r.error.Some?
    ensures f.mimeType != PdfType ==> r.error == Some(WrongType)
    ensures f.mimeType == PdfType && f.size > MaxSize ==> r.error == Some(TooLarge)
  {
    var cleared := s.(error := None);
    match Validate(f)
    case Some(e) => cleared.(error := Some(e))
    case None => cleared.(file := Some(f))
  }

  /** Two accepted selections in a row leave the second file stored: replacement, not
      accumulation. */
  lemma SelectReplaces(s: UploadState, f: FileInfo, g: FileInfo)
    requires Acceptable(f) && Acceptable(g)
    ensures SelectFile(SelectFile(s, f), g) == s.(file := Some(g), error := None)
  {
  }

  /** A refused selection after an accepted one keeps the accepted file on display. */
  lemma RefusalKeepsAccepted(s: UploadState, f: FileInfo, g: FileInfo)
    requires Acceptable(f) && !Acceptable(g)
    ensures SelectFile(SelectFile(s, f), g).file == Some(f)
    ensures SelectFile(SelectFile(s, f), g).error == Validate(g)
  {
  }

  /** Handing over the first of a list of files, if there is one; the rest are ignored. This
      is what both the file picker's change handler and the drop handler do. */
  function SelectFirst(s: UploadState, files: seq<FileInfo>): (r: UploadState)
    ensures |files| == 0 ==> r == s
    ensures |files| > 0 ==> && r.error == Validate(files[0])
                            && r.file == (if Acceptable(files[0]) then Some(files[0]) else s.file)
                            && r.dragging == s.dragging
  {
    if |files| > 0 then SelectFile(s, files[0]) else s
  }

  /** Only the first of the handed-over files matters. */
  lemma SelectFirstIgnoresRest(s: UploadState, f: FileInfo, rest: seq<FileInfo>)
    ensures SelectFirst(s, [f] + rest) == SelectFirst(s, [f])
  {
  }

  /** `handleDragOver`: drag feedback on, nothing else touched. */
  function DragOver(s: UploadState): (r: UploadState)
    ensures r.dragging
    ensures r.file == s.file && r.error == s.error
  {
    s.(dragging := true)
  }

  /** `handleDragLeave`: drag feedback off, nothing else touched. */
  function DragLeave(s: UploadState): (r: UploadState)
    ensures !r.dragging
    ensures r.file == s.file && r.error == s.error
  {
    s.(dragging := false)
  }

  /** `handleDrop`: drag feedback off, then the first dropped file, if any, is selected. */
  function Drop(s: UploadState, files: seq<FileInfo>): (r: UploadState)
    ensures !r.dragging
    ensures |files| == 0 ==> r.file == s.file && r.error == s.error
    ensures |files| > 0 ==> r == SelectFile(DragLeave(s), files[0])
  {
    SelectFirst(DragLeave(s), files)
  }

  /** Only the first dropped file matters. */
  lemma DropIgnoresRest(s: UploadState, f: FileInfo, rest: seq<FileInfo>)
    ensures Drop(s, [f] + rest) == Drop(s, [f])
  {
  }

  /** `handleRemoveFile`: no stored file, no error; the drag flag is untouched. */
  function RemoveFile(s: UploadState): (r: UploadState)
    ensures r.file == None && r.error == None
    ensures r.dragging == s.dragging
  {
    s.(file := None, error := None)
  }

  lemma RemoveIdempotent(s: UploadState)
    ensures RemoveFile(RemoveFile(s)) == RemoveFile(s)
  {
  }

  /** A user gesture on the upload panel. */
  datatype Event =
    | PickFiles(files: seq<FileInfo>)
    | DragOverZone
    | DragLeaveZone
    | DropOnZone(files: seq<FileInfo>)
    | ClickRemove

  /** How the rendered panel dispatches a gesture. The drop zone, and with it the drag
      handlers and the click that opens the file picker, is shown only while no file is
      stored; the remove button only while one is. A gesture on an element that is not shown
      changes nothing. */
  function Step(s: UploadState, e: Event): (r: UploadState)
    ensures s.file.Some? && !e.ClickRemove? ==> r == s
    ensures s.file.Some? && e.ClickRemove? ==> r.file == None && r.error == None && r.dragging == s.dragging
    ensures s.file.None? && e.ClickRemove? ==> r == s
    ensures s.file.None? && e.PickFiles? ==> r == SelectFirst(s, e.files)
    ensures s.file.None? && e.DropOnZone? ==> r == Drop(s, e.files)
    ensures s.file.None? && e.DragOverZone? ==> r == s.(dragging := true)
    ensures s.file.None? && e.DragLeaveZone? ==> r == s.(dragging := false)
  {
    match e
    case PickFiles(files) => if s.file.None? then SelectFirst(s, files) else s
    case DragOverZone => if s.file.None? then DragOver(s) else s
    case DragLeaveZone => if s.file.None? then DragLeave(s) else s
    case DropOnZone(files) => if s.file.None? then Drop(s, files) else s
    case ClickRemove => if s.file.Some? then RemoveFile(s) else s
  }

  function Run(s: UploadState, events: seq<Event>): UploadState
    decreases |events|
  {
    if |events| == 0 then s else Run(Step(s, events[0]), events[1..])
  }

  /** What holds of every state the panel can reach: a stored file has passed validation,
      and an error is never shown beside a stored file. */
  predicate Invariant(s: UploadState)
  {
    && (s.file.Some? ==> Acceptable(s.file.value))
    && (s.file.Some? ==> s.error.None?)
  }

  lemma StepPreservesInvariant(s: UploadState, e: Event)
    requires Invariant(s)
    ensures Invariant(Step(s, e))
  {
  }

  /** Every state reachable from the empty panel satisfies the invariant. */
  lemma {:induction false} RunPreservesInvariant(s: UploadState, events: seq<Event>)
    requires Invariant(s)
    ensures Invariant(Run(s, events))
    decreases |events|
  {
    if |events| > 0 {
      StepPreservesInvariant(s, events[0]);
      RunPreservesInvariant(Step(s, events[0]), events[1..]);
    }
  }

  lemma ReachableInvariant(events: seq<Event>)
    ensures Invariant(Run(Initial, events))
  {
    RunPreservesInvariant(Initial, events);
  }

  /** The stored file's size label never exceeds the advertised 10 MB limit: in a reachable
      state a stored file is at most ten mebibytes, so in the megabyte tier its scaled size
      is at most 10.00, and exactly ten whole mebibytes only at the ceiling itself. */
  lemma StoredSizeWithinLimit(events: seq<Event>)
    ensures var s := Run(Initial, events);
            s.file.Some? ==> s.file.value.size <= 10 * FileSize.MiB
    ensures var s := Run(Initial, events);
            s.file.Some? && FileSize.TierOf(s.file.value.size) == FileSize.Megabytes
            ==> s.file.value.size / FileSize.MiB <= 10
                && (s.file.value.size / FileSize.MiB == 10 ==> s.file.value.size == 10 * FileSize.MiB)
  {
    ReachableInvariant(events);
  }

  /** A drag over the empty zone followed by a drop carrying one acceptable PDF leaves the
      drag feedback off and that file stored. */
  lemma DragThenDropScenario(f: FileInfo)
    requires Acceptable(f)
    ensures Run(Initial, [DragOverZone, DropOnZone([f])]) == UploadState(Some(f), None, false)
  {
    var events := [DragOverZone, DropOnZone([f])];
    var s1 := Step(Initial, DragOverZone);
    assert s1.dragging && s1.file.None?;
    assert events[1..] == [DropOnZone([f])];
    assert Run(s1, [DropOnZone([f])]) == Run(Step(s1, DropOnZone([f])), []);
  }
}
