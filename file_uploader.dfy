/** The upload gate: checks a candidate file's media type and size, shows the reason for a
    rejection, and forwards at most one accepted file per drop or picker event. */
module FileUploader {
  import opened Types
  import opened JsStrings

  /** The allow-list of common audio and video MIME types. */
  const ValidTypes: seq<string> := [
    "audio/mpeg", "audio/wav", "audio/mp3", "audio/x-m4a", "audio/aac",
    "video/mp4", "video/mpeg", "video/webm", "video/quicktime"
  ]

  /** 50 MiB. */
  const MaxSize: nat := 50 * 1024 * 1024

  const UnsupportedType := "Unsupported file type. Please upload audio or video files."
  const TooLarge := "File too large. Please upload files smaller than 50MB."

  /** The test applied to each allow-list entry: the type contains the entry, or is an audio/ or video/ type. */
  predicate MatchesEntry(mimeType: string, entry: string) {
    Includes(mimeType, entry) || StartsWith(mimeType, "audio/") || StartsWith(mimeType, "video/")
  }

  /** `entries.some(entry => MatchesEntry(mimeType, entry))` */
  predicate SomeEntryMatches(mimeType: string, entries: seq<string>)
    decreases |entries|
  {
    entries != [] && (MatchesEntry(mimeType, entries[0]) || SomeEntryMatches(mimeType, entries[1..]))
  }

  /** The media types the gate admits: an audio/ or video/ type, or any type containing an allow-list entry. */
  predicate IsMediaType(mimeType: string) {
    || StartsWith(mimeType, "audio/")
    || StartsWith(mimeType, "video/")
    || exists i :: 0 <= i < |ValidTypes| && Includes(mimeType, ValidTypes[i])
  }

  /** Over a non-empty list, the `some` test is the prefix test or a match of one entry. */
  lemma {:induction false} SomeEntryMatchesIff(mimeType: string, entries: seq<string>)
    ensures SomeEntryMatches(mimeType, entries) <==>
              && entries != []
              && (|| StartsWith(mimeType, "audio/")
                  || StartsWith(mimeType, "video/")
                  || exists i :: 0 <= i < |entries| && Includes(mimeType, entries[i]))
    decreases |entries|
  {
    if entries != [] {
      SomeEntryMatchesIff(mimeType, entries[1..]);
      if exists i :: 0 <= i < |entries| && Includes(mimeType, entries[i]) {
        var i :| 0 <= i < |entries| && Includes(mimeType, entries[i]);
        if i > 0 {
          assert entries[1..][i - 1] == entries[i];
        }
      }
      if exists i :: 0 <= i < |entries| - 1 && Includes(mimeType, entries[1..][i]) {
        var i :| 0 <= i < |entries| - 1 && Includes(mimeType, entries[1..][i]);
        assert entries[i + 1] == entries[1..][i];
      }
    }
  }

  /** The reason `validateFile` rejects a file, or None when it accepts it. The type is checked
      first, so a file of the wrong type is reported as such whatever its size. */
  function Rejection(file: MediaFile): (reason: Option<string>)
    ensures reason == None <==> IsMediaType(file.mimeType) && file.size <= MaxSize
    ensures !IsMediaType(file.mimeType) ==> reason == Some(UnsupportedType)
    ensures IsMediaType(file.mimeType) && file.size > MaxSize ==> reason == Some(TooLarge)
  {
    SomeEntryMatchesIff(file.mimeType, ValidTypes);
    if !SomeEntryMatches(file.mimeType, ValidTypes) then Some(UnsupportedType)
    else if file.size > MaxSize then Some(TooLarge)
    else None
  }

  /** Exactly 50 MiB is accepted; one byte more is too large. */
  lemma SizeBoundary(name: string, mimeType: string)
    requires IsMediaType(mimeType)
    ensures Rejection(MediaFile(name, mimeType, 52428800)) == None
    ensures Rejection(MediaFile(name, mimeType, 52428801)) == Some(TooLarge)
  {
  }

  /** The allow-list is matched by containment, not by equality: a type that merely contains an
      entry is admitted even though it is neither an audio/ nor a video/ type. */
  lemma ContainedEntryAdmitted()
    ensures IsMediaType("application/x-video/mp4")
    ensures !StartsWith("application/x-video/mp4", "audio/")
    ensures !StartsWith("application/x-video/mp4", "video/")
  {
    var s := "application/x-video/mp4";
    assert s[14..23] == ValidTypes[5];
    IncludesAt(s, ValidTypes[5], 14);
    assert s[..6] != "audio/" by { assert s[0] != 'a' || s[1] != 'u'; }
    assert s[..6] != "video/" by { assert s[0] != 'v'; }
  }

  /** `isLoading`: a transcription is in flight; drops are ignored and the picker is disabled. */
  predicate IsLoading(status: Status) {
    status == Processing || status == Uploading
  }

  /** The first file of an event's file list, if the list is present and not empty. */
  function FirstFile(files: Option<seq<MediaFile>>): (first: Option<MediaFile>)
    ensures first.Some? <==> files.Some? && |files.value| > 0
    ensures first.Some? ==> first.value == files.value[0]
  {
    if files.Some? && |files.value| > 0 then Some(files.value[0]) else None
  }

  /** The uploader component's own state. */
  class Uploader {
    var isDragging: bool
    var dragError: Option<string>

    constructor ()
      ensures !isDragging && dragError == None
    {
      isDragging := false;
      dragError := None;
    }

    /** `validateFile`: accepts exactly what `Rejection` accepts and, on a rejection, shows its reason. */
    method ValidateFile(file: MediaFile) returns (ok: bool)
      modifies this`dragError
      ensures ok <==> Rejection(file) == None
      ensures dragError == if ok then old(dragError) else Rejection(file)
    {
      SomeEntryMatchesIff(file.mimeType, ValidTypes);
      if !SomeEntryMatches(file.mimeType, ValidTypes) {
        dragError := Some(UnsupportedType);
        return false;
      }
      if file.size > MaxSize {
        dragError := Some(TooLarge);
        return false;
      }
      return true;
    }

    /** `handleDrop`: clears the drag styling and the error, ignores the drop while loading, and
        otherwise forwards the first dropped file if it is valid. `selected` is the one argument
        `onFileSelect` is called with, if it is called. */
    method HandleDrop(status: Status, files: Option<seq<MediaFile>>) returns (selected: Option<MediaFile>)
      modifies this
      ensures !isDragging
      ensures IsLoading(status) || FirstFile(files).None? ==> selected == None && dragError == None
      ensures !IsLoading(status) && FirstFile(files).Some? ==>
                && dragError == Rejection(FirstFile(files).value)
                && selected == (if dragError == None then FirstFile(files) else None)
      ensures selected.Some? ==> selected == FirstFile(files) && Rejection(selected.value) == None
    {
      isDragging := false;
      dragError := None;
      selected := None;
      if IsLoading(status) {
        return;
      }
      if files.Some? && |files.value| > 0 {
        var ok := ValidateFile(files.value[0]);
        if ok {
          selected := Some(files.value[0]);
        }
      }
    }

    /** `handleFileInput`: clears the error and forwards the first picked file if it is valid. It has
        no status check of its own: the picker input is disabled while loading. */
    method HandleFileInput(files: Option<seq<MediaFile>>) returns (selected: Option<MediaFile>)
      modifies this`dragError
      ensures FirstFile(files).None? ==> selected == None && dragError == None
      ensures FirstFile(files).Some? ==>
                && dragError == Rejection(FirstFile(files).value)
                && selected == (if dragError == None then FirstFile(files) else None)
      ensures selected.Some? ==> selected == FirstFile(files) && Rejection(selected.value) == None
    {
      dragError := None;
      selected := None;
      if files.Some? && |files.value| > 0 {
        var ok := ValidateFile(files.value[0]);
        if ok {
          selected := Some(files.value[0]);
        }
      }
    }
  }
}
