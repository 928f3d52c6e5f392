/**
 * src/components/avatar-upload.tsx: the avatar picker. The file checks and
 * the initials are functions; the component's state (preview, uploading
 * flag) and its calls to onAvatarChange are fields of a class. The
 * FileReader load and the 1.5 s upload timer come back later as their own
 * methods; toasts and rendering are not modelled.
 */
module AvatarUpload {
  import opened Wrappers
  import opened Strings
  import opened NameInitials
  import Users

  /** The selected file, as far as the checks look at it. */
  datatype SelectedFile = SelectedFile(mimeType: string, size: nat)

  datatype FileRejection = InvalidFileType | FileTooLarge

  const MAX_FILE_BYTES: nat := 5 * 1024 * 1024

  /**
   * The checks in handleFileSelect: the type must start with "image/", and
   * only then is the size compared with 5 MiB.
   */
  function CheckFile(file: SelectedFile): (r: Option<FileRejection>)
    ensures !StartsWith(file.mimeType, "image/") ==> r == Some(InvalidFileType)
    ensures StartsWith(file.mimeType, "image/") ==> (r == Some(FileTooLarge) <==> file.size > MAX_FILE_BYTES)
    ensures r.None? <==> StartsWith(file.mimeType, "image/") && file.size <= MAX_FILE_BYTES
  {
    if !StartsWith(file.mimeType, "image/") then Some(InvalidFileType)
    else if file.size > MAX_FILE_BYTES then Some(FileTooLarge)
    else None
  }

  /** The client check and the server's uploadAvatar check accept the same files and give the same reason first. */
  lemma ClientMatchesServer(file: SelectedFile)
    ensures CheckFile(file).None? <==> Users.CheckAvatarUpload(file.mimeType, file.size).None?
    ensures CheckFile(file) == Some(InvalidFileType) <==>
      Users.CheckAvatarUpload(file.mimeType, file.size) == Some(Users.TrpcError(Users.BadRequest, "Invalid file type"))
    ensures CheckFile(file) == Some(FileTooLarge) <==>
      Users.CheckAvatarUpload(file.mimeType, file.size) == Some(Users.TrpcError(Users.BadRequest, "File too large"))
  {
  }

  /** getInitials of this component: no "U" fallback, so the empty name gives "". */
  function GetInitials(name: string): (r: string)
    ensures r == TakeTwo(ToUpperAscii(WordStarts(name, true)))
    ensures |r| <= 2
    ensures name == "" ==> r == ""
  {
    InitialsSpec(name);
    Initials(name)
  }

  /** What handleFileSelect did with the event. */
  datatype SelectOutcome = NoFile | Rejected(reason: FileRejection) | UploadStarted

  class AvatarUploadState {
    var previewUrl: Option<string>
    var isUploading: bool
    /** The arguments of every onAvatarChange call, in order. */
    var reported: seq<string>
    /** FileReader loads and upload timers started and not yet come back. */
    var pendingReads: nat
    var pendingTimers: nat

    /** The preview starts as the current avatar. */
    constructor (currentAvatar: Option<string>)
      ensures previewUrl == currentAvatar && !isUploading && reported == []
      ensures pendingReads == 0 && pendingTimers == 0
    {
      previewUrl := currentAvatar;
      isUploading := false;
      reported := [];
      pendingReads := 0;
      pendingTimers := 0;
    }

    /**
     * handleFileSelect: no file or a rejected file changes nothing; an
     * accepted file starts reading the preview and the upload timer, and
     * sets the uploading flag.
     */
    method HandleFileSelect(file: Option<SelectedFile>) returns (outcome: SelectOutcome)
      modifies this
      ensures file.None? ==> outcome == NoFile
      ensures file.Some? && CheckFile(file.value).Some? ==> outcome == Rejected(CheckFile(file.value).value)
      ensures file.Some? && CheckFile(file.value).None? ==> outcome == UploadStarted
      ensures outcome != UploadStarted ==>
        previewUrl == old(previewUrl) && isUploading == old(isUploading) && reported == old(reported)
        && pendingReads == old(pendingReads) && pendingTimers == old(pendingTimers)
      ensures outcome == UploadStarted ==>
        previewUrl == old(previewUrl) && isUploading && reported == old(reported)
        && pendingReads == old(pendingReads) + 1 && pendingTimers == old(pendingTimers) + 1
    {
      if file.None? {
        return NoFile;
      }
      match CheckFile(file.value)
      case Some(reason) =>
        outcome := Rejected(reason);
      case None =>
        pendingReads := pendingReads + 1;
        isUploading := true;
        pendingTimers := pendingTimers + 1;
        outcome := UploadStarted;
    }

    /** reader.onload: the preview becomes the file's data URL. */
    method PreviewLoaded(dataUrl: string)
      requires pendingReads > 0
      modifies this
      ensures previewUrl == Some(dataUrl) && pendingReads == old(pendingReads) - 1
      ensures isUploading == old(isUploading) && reported == old(reported) && pendingTimers == old(pendingTimers)
    {
      previewUrl := Some(dataUrl);
      pendingReads := pendingReads - 1;
    }

    /** The upload timer: reports the object URL and clears the uploading flag. */
    method UploadFinished(objectUrl: string)
      requires pendingTimers > 0
      modifies this
      ensures reported == old(reported) + [objectUrl] && !isUploading && pendingTimers == old(pendingTimers) - 1
      ensures previewUrl == old(previewUrl) && pendingReads == old(pendingReads)
    {
      reported := reported + [objectUrl];
      isUploading := false;
      pendingTimers := pendingTimers - 1;
    }

    /** handleRemoveAvatar: no preview, and the empty avatar is reported. */
    method HandleRemoveAvatar()
      modifies this
      ensures previewUrl == None && reported == old(reported) + [""]
      ensures isUploading == old(isUploading) && pendingReads == old(pendingReads) && pendingTimers == old(pendingTimers)
    {
      previewUrl := None;
      reported := reported + [""];
    }
  }
}
