/**
 The drop zone: the file-type whitelist and the guards of the drag, drop and
 file-picker handlers. A file is reduced to its MIME type and name; the
 handler's call of `onFileDrop` is its result.
 */
module DropZone {
  import opened Text

  datatype DroppedFile = DroppedFile(name: string, mimeType: string)

  /** `validTypes` */
  const ValidTypes: seq<string> := ["image/jpeg", "image/png", "image/webp", "image/gif", "application/pdf"]

  /** `isValidFileType`: `validTypes.includes(file.type)` */
  function IsValidFileType(f: DroppedFile): (r: bool)
    ensures r <==> f.mimeType == "image/jpeg" || f.mimeType == "image/png" || f.mimeType == "image/webp"
                   || f.mimeType == "image/gif" || f.mimeType == "application/pdf"
  {
    f.mimeType in ValidTypes
  }

  datatype ZoneState = ZoneState(isDragging: bool)

  /** The file handed to `onFileDrop`: the first one, when there is one and it is valid. */
  function FirstValid(files: seq<DroppedFile>): (r: Option<DroppedFile>)
    ensures r.Some? <==> |files| > 0 && IsValidFileType(files[0])
    ensures r.Some? ==> r.value == files[0]
  {
    if |files| > 0 && IsValidFileType(files[0]) then Some(files[0]) else None
  }

  /** `handleDragOver` */
  function DragOver(s: ZoneState, disabled: bool): (r: ZoneState)
    ensures r.isDragging <==> s.isDragging || !disabled
  {
    if !disabled then ZoneState(true) else s
  }

  /** `handleDragLeave` */
  function DragLeave(s: ZoneState): (r: ZoneState)
    ensures !r.isDragging
  {
    ZoneState(false)
  }

  /** `handleDrop`: always clears the drag state, and delivers nothing while disabled. */
  function Drop(s: ZoneState, disabled: bool, files: seq<DroppedFile>): (r: (ZoneState, Option<DroppedFile>))
    ensures !r.0.isDragging
    ensures disabled ==> r.1.None?
    ensures r.1.Some? ==> |files| > 0 && r.1.value == files[0] && IsValidFileType(files[0])
    ensures !disabled && |files| > 0 && IsValidFileType(files[0]) ==> r.1.Some?
  {
    (ZoneState(false), if disabled then None else FirstValid(files))
  }

  /** `handleFileSelect`: the picker's first file when valid. The handler
      itself does not look at `disabled`; the disabled input does. */
  function FileSelect(files: seq<DroppedFile>): (r: Option<DroppedFile>)
    ensures r.Some? ==> |files| > 0 && r.value == files[0] && IsValidFileType(files[0])
    ensures |files| > 0 && IsValidFileType(files[0]) ==> r.Some?
  {
    FirstValid(files)
  }

  /** While disabled, dragging over does not arm the zone and a drop delivers nothing. */
  lemma DisabledZoneIgnoresDrag(s: ZoneState, files: seq<DroppedFile>)
    requires !s.isDragging
    ensures !DragOver(s, true).isDragging
    ensures Drop(DragOver(s, true), true, files) == (ZoneState(false), None)
  {
  }

  /** On an enabled zone, dropping files and picking the same files deliver the
      same file, whatever the drag state was. */
  lemma DropAgreesWithPicker(s: ZoneState, files: seq<DroppedFile>)
    ensures Drop(s, false, files).1 == FileSelect(files)
  {
  }

  /** Only the first file counts: a valid file after an invalid first one is ignored. */
  lemma OnlyFirstFileConsidered(bad: DroppedFile, good: DroppedFile)
    requires !IsValidFileType(bad) && IsValidFileType(good)
    ensures FileSelect([bad, good]).None?
    ensures Drop(ZoneState(true), false, [bad, good]).1.None?
  {
  }
}
