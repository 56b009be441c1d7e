/** File validation and metadata stripping (src/utils/metadataUtils.ts).
    A browser File is the value (name, type, bytes); its `lastModified`
    stamp is not modelled. The browser's image pipeline (FileReader, Image,
    canvas) is represented by the outcome of each of its steps. */
module MetadataUtils {
  import opened Wrappers
  import opened Strings

  newtype byte = x: int | 0 <= x < 256

  /** A File: its name, its declared MIME type and its contents. */
  datatype File = File(name: string, mediaType: string, bytes: seq<byte>)
  {
    /** `file.size`, the byte length. */
    function Size(): nat { |bytes| }
  }

  const BytesPerMB: int := 1024 * 1024

  /** The default of `maxSizeMB`. */
  const DefaultMaxSizeMB: int := 10

  // ---------------------------------------------------------------------
  // Validators
  // ---------------------------------------------------------------------

  /** `validateFileSize(file, maxSizeMB = 10)`. */
  predicate ValidateFileSize(file: File, maxSizeMB: int := DefaultMaxSizeMB)
  {
    file.Size() <= maxSizeMB * BytesPerMB
  }

  /** The Office Open XML types, written as `application/` and the subtype. */
  const WordDocument: string := "application/" + "vnd.openxmlformats-officedocument.wordprocessingml.document"
  const ExcelSheet: string := "application/" + "vnd.openxmlformats-officedocument.spreadsheetml.sheet"
  const PowerPointPresentation: string := "application/" + "vnd.openxmlformats-officedocument.presentationml.presentation"

  /** The exact-match allow-list of `validateFileType`. */
  const AllowedTypes: seq<string> := [
    "image/jpeg", "image/jpg", "image/png", "image/gif", "image/webp", "image/bmp", "image/svg+xml",
    "application/pdf",
    "video/mp4", "video/mpeg", "video/quicktime", "video/x-msvideo", "video/x-ms-wmv", "video/webm", "video/ogg",
    "audio/mpeg", "audio/mp3", "audio/wav", "audio/ogg", "audio/webm", "audio/aac", "audio/m4a", "audio/x-m4a",
    "application/msword", WordDocument,
    "application/vnd.ms-excel", ExcelSheet,
    "application/vnd.ms-powerpoint", PowerPointPresentation,
    "text/plain", "text/csv"
  ]

  /** The media families accepted whatever their subtype. */
  predicate IsMediaFamily(mediaType: string)
  {
    StartsWith(mediaType, "image/") || StartsWith(mediaType, "video/") || StartsWith(mediaType, "audio/")
  }

  /** `validateFileType(file)`. */
  predicate ValidateFileType(file: File)
  {
    IsMediaFamily(file.mediaType) || file.mediaType in AllowedTypes
  }

  /** The size check is exactly "at most maxSizeMB mebibytes". */
  lemma SizeLimitIsMebibytes(file: File, maxSizeMB: int)
    ensures ValidateFileSize(file, maxSizeMB) <==> file.Size() <= maxSizeMB * 1048576
  {
  }

  /** With the default limit, 10485760 bytes pass and 10485761 bytes fail. */
  lemma DefaultSizeBoundary(small: File, large: File)
    requires small.Size() == 10485760 && large.Size() == 10485761
    ensures ValidateFileSize(small) && !ValidateFileSize(large)
  {
  }

  /** A file that passes at one limit passes at every larger limit. */
  lemma SizeCheckMonotone(file: File, m: int, m': int)
    requires m <= m'
    requires ValidateFileSize(file, m)
    ensures ValidateFileSize(file, m')
  {
  }

  /** Every image, video or audio type passes, listed or not. */
  lemma MediaFamiliesAccepted(file: File)
    requires IsMediaFamily(file.mediaType)
    ensures ValidateFileType(file)
  {
  }

  /** Any other type passes exactly when it equals a listed string. */
  lemma OtherTypesNeedExactMatch(file: File)
    requires !IsMediaFamily(file.mediaType)
    ensures ValidateFileType(file) <==> exists k :: 0 <= k < |AllowedTypes| && AllowedTypes[k] == file.mediaType
  {
  }

  /** An unknown type is refused. */
  lemma UnknownTypeRejected(file: File)
    requires file.mediaType == "application/x-unknown"
    ensures !ValidateFileType(file)
  {
    assert file.mediaType !in AllowedTypes by {
      assert forall k :: 0 <= k < |AllowedTypes| ==> |AllowedTypes[k]| != 21;
    }
    DiffersWithinPrefix(file.mediaType, "image/", 0);
    DiffersWithinPrefix(file.mediaType, "video/", 0);
    DiffersWithinPrefix(file.mediaType, "audio/", 1);
  }

  /** The empty type is refused. */
  lemma EmptyTypeRejected(file: File)
    ensures file.mediaType == "" ==> !ValidateFileType(file)
  {
  }

  /** There is no case folding or trimming: a listed type written in
      capitals, or with a leading space, is refused. */
  lemma TypeMatchIsExact(file: File)
    requires file.mediaType in ["APPLICATION/PDF", " text/plain"]
    ensures !ValidateFileType(file)
  {
    DiffersWithinPrefix(file.mediaType, "image/", 0);
    DiffersWithinPrefix(file.mediaType, "video/", 0);
    DiffersWithinPrefix(file.mediaType, "audio/", 0);
  }

  // ---------------------------------------------------------------------
  // Sanitizer
  // ---------------------------------------------------------------------

  /** The four strategies of `stripMetadata`. */
  datatype Strategy = ImageReencode | PdfCopy | DocumentCopy | PlainCopy

  /** The Word and Excel types sent to `stripDocumentMetadata`. */
  const DocumentTypes: seq<string> := [
    "application/msword", WordDocument, "application/vnd.ms-excel", ExcelSheet
  ]

  lemma DocumentTypesAreApplications(k: nat)
    requires k < |DocumentTypes|
    ensures DocumentTypes[k][0] == 'a' && DocumentTypes[k][1] == 'p'
  {
    if k == 0 {} else if k == 1 {} else if k == 2 {} else {}
  }

  /** The if-chain of `stripMetadata`, tried in order. */
  function Route(mediaType: string): Strategy
  {
    if StartsWith(mediaType, "image/") then ImageReencode
    else if mediaType == "application/pdf" then PdfCopy
    else if mediaType in DocumentTypes then DocumentCopy
    else PlainCopy
  }

  /** Each strategy is chosen for exactly its own types, image prefix first. */
  lemma RouteOrder(mediaType: string)
    ensures Route(mediaType) == ImageReencode <==> StartsWith(mediaType, "image/")
    ensures Route(mediaType) == PdfCopy <==> mediaType == "application/pdf"
    ensures Route(mediaType) == DocumentCopy <==> mediaType in DocumentTypes
    ensures Route(mediaType) == PlainCopy <==>
      !StartsWith(mediaType, "image/") && mediaType != "application/pdf" && mediaType !in DocumentTypes
  {
    DiffersWithinPrefix("application/pdf", "image/", 0);
    forall k | 0 <= k < |DocumentTypes|
      ensures !StartsWith(DocumentTypes[k], "image/")
    {
      DocumentTypesAreApplications(k);
      DiffersWithinPrefix(DocumentTypes[k], "image/", 0);
    }
  }

  /** PowerPoint, text, CSV, audio and video take the plain copy. */
  lemma PlainCopyTypes(mediaType: string)
    requires mediaType in ["application/vnd.ms-powerpoint", PowerPointPresentation, "text/plain", "text/csv"]
             || StartsWith(mediaType, "audio/") || StartsWith(mediaType, "video/")
    ensures Route(mediaType) == PlainCopy
  {
    RouteOrder(mediaType);
    if StartsWith(mediaType, "audio/") || StartsWith(mediaType, "video/") {
      assert mediaType[0] == mediaType[..6][0] && mediaType[1] == mediaType[..6][1];
      DiffersWithinPrefix(mediaType, "image/", 0);
      assert mediaType != "application/pdf" by {
        assert "application/pdf"[1] == 'p';
      }
      forall k | 0 <= k < |DocumentTypes|
        ensures mediaType != DocumentTypes[k]
      {
        DocumentTypesAreApplications(k);
      }
    } else {
      assert mediaType[0] != 'i';
      DiffersWithinPrefix(mediaType, "image/", 0);
    }
  }

  /** Every type with a strategy of its own also passes the type check. */
  lemma RoutedTypesAreAllowed(file: File)
    requires Route(file.mediaType) != PlainCopy
    ensures ValidateFileType(file)
  {
  }

  /** How the browser's image pipeline goes for one file: the FileReader
      read, the Image decode, `getContext('2d')`, and the blob `toBlob`
      yields (None when it yields null). */
  datatype ImageRun = ImageRun(readOk: bool, decodeOk: bool, contextOk: bool, blob: Option<seq<byte>>)

  /** The rejections of `stripImageMetadata`. */
  datatype StripError = ReadFailed | LoadFailed | NoCanvasContext | NoBlob
  {
    function Message(): string
    {
      match this
      case ReadFailed => "Failed to read file"
      case LoadFailed => "Failed to load image"
      case NoCanvasContext => "Failed to get canvas context"
      case NoBlob => "Failed to create blob from canvas"
    }
  }

  /** `stripImageMetadata(file)`: the re-encoded blob, under the original
      name and type, or the first step that failed. */
  function StripImageMetadata(file: File, run: ImageRun): (r: Result<File, StripError>)
    ensures r.Ok? <==> run.readOk && run.decodeOk && run.contextOk && run.blob.Some?
    ensures r.Ok? ==> r.value == File(file.name, file.mediaType, run.blob.value)
  {
    if !run.readOk then Err(ReadFailed)
    else if !run.decodeOk then Err(LoadFailed)
    else if !run.contextOk then Err(NoCanvasContext)
    else match run.blob
      case None => Err(NoBlob)
      case Some(b) => Ok(File(file.name, file.mediaType, b))
  }

  /** `stripPdfMetadata`, `stripDocumentMetadata` and the fallback branch of
      `stripMetadata` all do the same: a new File over the same bytes, with
      the same name and type. */
  function CopyFile(file: File): File
  {
    File(file.name, file.mediaType, file.bytes)
  }

  /** `stripMetadata(file)`; an image-path rejection is re-thrown to the caller. */
  function StripMetadata(file: File, run: ImageRun): (r: Result<File, StripError>)
    ensures r.Ok? ==> r.value.name == file.name && r.value.mediaType == file.mediaType
    ensures Route(file.mediaType) != ImageReencode ==> r == Ok(file)
    ensures r.Err? ==> StartsWith(file.mediaType, "image/")
  {
    match Route(file.mediaType)
    case ImageReencode => StripImageMetadata(file, run)
    case PdfCopy => Ok(CopyFile(file))
    case DocumentCopy => Ok(CopyFile(file))
    case PlainCopy => Ok(CopyFile(file))
  }

  /** The image path fails exactly when a browser step fails, with the
      message of the first failing step, and the failure reaches the caller. */
  lemma ImageFailuresReachCaller(file: File, run: ImageRun)
    requires StartsWith(file.mediaType, "image/")
    ensures StripMetadata(file, run).Err? <==> !(run.readOk && run.decodeOk && run.contextOk && run.blob.Some?)
    ensures !run.readOk ==> StripMetadata(file, run).error.Message() == "Failed to read file"
    ensures run.readOk && !run.decodeOk ==> StripMetadata(file, run).error.Message() == "Failed to load image"
    ensures run.readOk && run.decodeOk && !run.contextOk ==>
      StripMetadata(file, run).error.Message() == "Failed to get canvas context"
    ensures run.readOk && run.decodeOk && run.contextOk && run.blob.None? ==>
      StripMetadata(file, run).error.Message() == "Failed to create blob from canvas"
  {
  }
}
