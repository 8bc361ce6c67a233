/** Selection intake: the image uploader component. It turns the file list of
    a picker change or a drop into the list handed to `onImagesUpload`,
    keeping only image-typed files, capping their number at `maxImages`, and
    keeps an error message and a drag-hover flag as component state. */
module Intake {
  import opened Wrappers
  import Decimal

  /** A browser `File`, reduced to what the component looks at: its name and
      its media type (the `type` property). The bytes are never inspected. */
  datatype FileHandle = FileHandle(name: string, mediaType: string)

  const ImagePrefix: string := "image/"

  /** The cap used when the embedding page gives none. */
  const DefaultMaxImages: int := 4

  const NoImagesMessage: string := "No image files selected. Please upload PNG, JPG, GIF, etc."

  const CapPrefix: string := "You can only upload up to "
  const CapSuffix: string := " images."

  /** `type.startsWith('image/')`: a case-sensitive prefix test. */
  predicate IsImage(f: FileHandle)
    ensures IsImage(f) <==> exists subtype :: f.mediaType == ImagePrefix + subtype
  {
    var starts := |ImagePrefix| <= |f.mediaType| && f.mediaType[..|ImagePrefix|] == ImagePrefix;
    assert starts ==> f.mediaType == ImagePrefix + f.mediaType[|ImagePrefix|..];
    starts
  }

  /** `Array.from(files).filter(file => file.type.startsWith('image/'))`. */
  function FilterImages(files: seq<FileHandle>): (r: seq<FileHandle>)
    ensures |r| <= |files|
    ensures forall f :: f in r ==> f in files && IsImage(f)
    ensures forall f :: f in files && IsImage(f) ==> f in r
  {
    if files == [] then []
    else (if IsImage(files[0]) then [files[0]] else []) + FilterImages(files[1..])
  }

  /** Every position moved one place on, for a list that lost its head. */
  function ShiftPositions(ps: seq<nat>): (r: seq<nat>)
    ensures |r| == |ps| && forall k :: 0 <= k < |ps| ==> r[k] == ps[k] + 1
  {
    if ps == [] then [] else [ps[0] + 1] + ShiftPositions(ps[1..])
  }

  /** `positions` are the ascending places in `files` of the elements of
      `kept`, and they include every image-typed place from `from` on. */
  ghost predicate ListsImagePositions(positions: seq<nat>, kept: seq<FileHandle>, files: seq<FileHandle>, from: nat) {
    |positions| == |kept| &&
    (forall k :: 0 <= k < |positions| ==> from <= positions[k] < |files| && kept[k] == files[positions[k]]) &&
    (forall j, k :: 0 <= j < k < |positions| ==> positions[j] < positions[k]) &&
    (forall i :: from <= i < |files| && IsImage(files[i]) ==> i in positions)
  }

  /** The positions of the tail's image files, moved one place on, are
      positions in the whole list from place 1 on. */
  lemma ShiftKeepsPositions(files: seq<FileHandle>, rest: seq<nat>, tail: seq<FileHandle>)
    requires files != [] && ListsImagePositions(rest, tail, files[1..], 0)
    ensures ListsImagePositions(ShiftPositions(rest), tail, files, 1)
  {
  }

  /** An image-typed head adds place 0 in front. */
  lemma PrependHeadPosition(files: seq<FileHandle>, shifted: seq<nat>, tail: seq<FileHandle>)
    requires files != [] && IsImage(files[0]) && ListsImagePositions(shifted, tail, files, 1)
    ensures ListsImagePositions([0] + shifted, [files[0]] + tail, files, 0)
  {
  }

  /** The filter keeps exactly the image-typed positions of its input, in
      ascending order: `positions` lists them, and the k-th kept file is the
      file at `positions[k]`. */
  lemma {:induction false} FilterImagesKeepsOrder(files: seq<FileHandle>) returns (positions: seq<nat>)
    ensures ListsImagePositions(positions, FilterImages(files), files, 0)
  {
    if files == [] {
      return [];
    }
    var rest := FilterImagesKeepsOrder(files[1..]);
    var tail := FilterImages(files[1..]);
    var shifted := ShiftPositions(rest);
    ShiftKeepsPositions(files, rest, tail);
    if IsImage(files[0]) {
      positions := [0] + shifted;
      assert FilterImages(files) == [files[0]] + tail;
      PrependHeadPosition(files, shifted, tail);
    } else {
      positions := shifted;
      assert FilterImages(files) == tail;
    }
  }

  /** The error text for a selection over the cap: `${maxImages}` in a template. */
  function CapMessage(maxImages: int): string {
    CapPrefix + Decimal.IntToString(maxImages) + CapSuffix
  }

  /** The cap message names the cap: the text between its fixed prefix and
      suffix reads back as `maxImages`. */
  lemma CapMessageNamesCap(maxImages: int)
    ensures |CapPrefix| + |CapSuffix| <= |CapMessage(maxImages)|
    ensures Decimal.ParseInt(CapMessage(maxImages)[|CapPrefix|..|CapMessage(maxImages)| - |CapSuffix|])
              == Some(maxImages)
  {
    var msg := CapMessage(maxImages);
    assert msg[|CapPrefix|..|msg| - |CapSuffix|] == Decimal.IntToString(maxImages);
    Decimal.ParseIntToString(maxImages);
  }

  /** `s.slice(0, end)` for an integral `end`: a negative end counts back from
      the end of the list. */
  function SlicePrefix<T>(s: seq<T>, end: int): (r: seq<T>)
    ensures r <= s
    ensures 0 <= end ==> |r| == (if end < |s| then end else |s|)
    ensures end < 0 ==> |r| == (if |s| + end < 0 then 0 else |s| + end)
  {
    if 0 <= end then
      (if end < |s| then s[..end] else s)
    else
      (if |s| + end < 0 then [] else s[..|s| + end])
  }

  /** What one call of the file-processing path ends with: the error message
      left in the component state, and the list passed to `onImagesUpload`,
      if it is called. */
  datatype Outcome = Outcome(error: Option<string>, upload: Option<seq<FileHandle>>)

  /** The decision of one call of the file-processing path on a possibly
      absent file list. */
  function Submission(files: Option<seq<FileHandle>>, maxImages: int): (o: Outcome)
    // an absent list clears the error and emits nothing
    ensures files.None? ==> o == Outcome(None, None)
    // no image-typed file: the "no images" error and no emission
    ensures files.Some? && FilterImages(files.value) == [] ==>
              o == Outcome(Some(NoImagesMessage), None)
    // over the cap: the cap error, and still the first maxImages image files
    ensures files.Some? && 0 <= maxImages < |FilterImages(files.value)| ==>
              o == Outcome(Some(CapMessage(maxImages)), Some(FilterImages(files.value)[..maxImages]))
    // within the cap: every image file, and no error
    ensures files.Some? && 0 < |FilterImages(files.value)| <= maxImages ==>
              o == Outcome(None, Some(FilterImages(files.value)))
    // the error is absent exactly when nothing went wrong
    ensures o.error.None? <==> files.None? || 0 < |FilterImages(files.value)| <= maxImages
    // an emission is a leading part of the image files of the selection
    ensures o.upload.Some? ==>
              files.Some? && FilterImages(files.value) != [] &&
              o.upload.value <= FilterImages(files.value) &&
              forall f :: f in o.upload.value ==> IsImage(f)
    ensures o.upload.Some? && 0 <= maxImages ==> |o.upload.value| <= maxImages
    // a negative cap: the cap error, and the image files cut as `slice` cuts them
    ensures files.Some? && maxImages < 0 && FilterImages(files.value) != [] ==>
              o == Outcome(Some(CapMessage(maxImages)), Some(SlicePrefix(FilterImages(files.value), maxImages)))
  {
    if files.None? then Outcome(None, None)
    else
      var images := FilterImages(files.value);
      if |images| == 0 then Outcome(Some(NoImagesMessage), None)
      else if |images| > maxImages then
        Outcome(Some(CapMessage(maxImages)), Some(SlicePrefix(images, maxImages)))
      else Outcome(None, Some(images))
  }

  /** Every emitted file is image-typed and the emission keeps the files'
      relative order in the selection: the k-th emitted file is the file at
      `positions[k]` of the selection, and the positions ascend. */
  lemma UploadKeepsSelectionOrder(files: seq<FileHandle>, maxImages: int) returns (positions: seq<nat>)
    requires Submission(Some(files), maxImages).upload.Some?
    ensures var up := Submission(Some(files), maxImages).upload.value;
      |positions| == |up| &&
      (forall k :: 0 <= k < |up| ==> positions[k] < |files| && up[k] == files[positions[k]] && IsImage(up[k])) &&
      (forall j, k :: 0 <= j < k < |up| ==> positions[j] < positions[k])
  {
    var up := Submission(Some(files), maxImages).upload.value;
    var all := FilterImagesKeepsOrder(files);
    positions := all[..|up|];
    forall k | 0 <= k < |up|
      ensures up[k] == FilterImages(files)[k]
    {
    }
  }

  /** The file input of the picker (`event.target`). */
  class FileInput {
    var files: Option<seq<FileHandle>>
    var value: string

    constructor (files: Option<seq<FileHandle>>, value: string)
      ensures this.files == files && this.value == value
    {
      this.files := files;
      this.value := value;
    }
  }

  /** A drag event over the drop zone, with its `dataTransfer.files`. */
  class DragEvent {
    const files: seq<FileHandle>
    var defaultPrevented: bool
    var propagationStopped: bool

    constructor (files: seq<FileHandle>)
      ensures this.files == files && !defaultPrevented && !propagationStopped
    {
      this.files := files;
      defaultPrevented := false;
      propagationStopped := false;
    }

    method PreventDefault()
      modifies this`defaultPrevented
      ensures defaultPrevented
    {
      defaultPrevented := true;
    }

    method StopPropagation()
      modifies this`propagationStopped
      ensures propagationStopped
    {
      propagationStopped := true;
    }
  }

  /** The uploader component's state: the drag-hover flag, the error message,
      and the record of every list it handed to `onImagesUpload`, oldest first. */
  class Uploader {
    const maxImages: int
    var dragIsOver: bool
    var error: Option<string>
    var uploads: seq<seq<FileHandle>>

    constructor (maxImages: int := DefaultMaxImages)
      ensures this.maxImages == maxImages
      ensures !dragIsOver && error == None && uploads == []
    {
      this.maxImages := maxImages;
      dragIsOver := false;
      error := None;
      uploads := [];
    }

    /** `handleFileProcessing`: clears the error, then filters, caps, sets the
        error and emits as `Submission` decides. */
    method HandleFileProcessing(files: Option<seq<FileHandle>>)
      modifies this`error, this`uploads
      ensures error == Submission(files, maxImages).error
      ensures uploads == old(uploads) +
                (if Submission(files, maxImages).upload.Some? then [Submission(files, maxImages).upload.value] else [])
    {
      error := None;
      if files.None? {
        return;
      }
      var imageFiles := FilterImages(files.value);
      if |imageFiles| == 0 {
        error := Some(NoImagesMessage);
        return;
      }
      if |imageFiles| > maxImages {
        error := Some(CapMessage(maxImages));
        uploads := uploads + [SlicePrefix(imageFiles, maxImages)];
      } else {
        uploads := uploads + [imageFiles];
      }
    }

    /** `handleDrop`: cancels the event, ends the hover, and processes the
        dropped files on the same path as the picker. */
    method HandleDrop(event: DragEvent)
      modifies this`dragIsOver, this`error, this`uploads, event
      ensures !dragIsOver
      ensures event.defaultPrevented && event.propagationStopped
      ensures error == Submission(Some(event.files), maxImages).error
      ensures uploads == old(uploads) +
                (if Submission(Some(event.files), maxImages).upload.Some?
                 then [Submission(Some(event.files), maxImages).upload.value] else [])
    {
      event.PreventDefault();
      event.StopPropagation();
      dragIsOver := false;
      HandleFileProcessing(Some(event.files));
    }

    /** `handleDragOver`: cancels the event and starts the hover. */
    method HandleDragOver(event: DragEvent)
      modifies this`dragIsOver, event
      ensures dragIsOver
      ensures event.defaultPrevented && event.propagationStopped
    {
      event.PreventDefault();
      event.StopPropagation();
      dragIsOver := true;
    }

    /** `handleDragLeave`: cancels the event and ends the hover. */
    method HandleDragLeave(event: DragEvent)
      modifies this`dragIsOver, event
      ensures !dragIsOver
      ensures event.defaultPrevented && event.propagationStopped
    {
      event.PreventDefault();
      event.StopPropagation();
      dragIsOver := false;
    }

    /** `handleFileChange`: processes the picked files, then empties the
        input's value so that picking the same files again fires a change. */
    method HandleFileChange(target: FileInput)
      modifies this`error, this`uploads, target`value
      ensures target.value == ""
      ensures error == Submission(target.files, maxImages).error
      ensures uploads == old(uploads) +
                (if Submission(target.files, maxImages).upload.Some?
                 then [Submission(target.files, maxImages).upload.value] else [])
    {
      HandleFileProcessing(target.files);
      target.value := "";
    }
  }
}
