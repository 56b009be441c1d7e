/** `fileToBase64` (src/utils/base64.ts): the guard on the file, and the
    extraction of the body of the data URL the FileReader produces. The
    FileReader itself is outside the model: its outcome is a parameter. */
module Base64 {
  import opened Wrappers
  import opened Strings
  import opened MetadataUtils

  /** What `reader.readAsDataURL(file)` ends with. */
  datatype ReadOutcome = Loaded(dataUrl: string) | ReadError

  /** The rejections of `fileToBase64`. */
  datatype EncodeError = InvalidFileType | FileReadingFailed
  {
    function Message(): string
    {
      match this
      case InvalidFileType => "Invalid file type"
      case FileReadingFailed => "File reading failed"
    }
  }

  /** `result.split(',')[1]`: the second comma-separated field, or None
      (`undefined`) when the text has no comma. */
  function DataUrlBody(dataUrl: string): Option<string>
  {
    var fields := Split(dataUrl, ',');
    if |fields| > 1 then Some(fields[1]) else None
  }

  /** `fileToBase64(file)`: `file` is None when there is no file at all. */
  function FileToBase64(file: Option<File>, read: ReadOutcome): (r: Result<Option<string>, EncodeError>)
    ensures r == Err(InvalidFileType) <==> file.None? || file.value.name == "" || file.value.mediaType == ""
    ensures r == Err(FileReadingFailed) <==>
      file.Some? && file.value.name != "" && file.value.mediaType != "" && read == ReadError
    ensures file.Some? && file.value.name != "" && file.value.mediaType != "" && read.Loaded? ==>
      r == Ok(DataUrlBody(read.dataUrl))
  {
    if file.None? || file.value.name == "" || file.value.mediaType == "" then Err(InvalidFileType)
    else match read
      case ReadError => Err(FileReadingFailed)
      case Loaded(url) => Ok(DataUrlBody(url))
  }

  /** A text without a comma has no second field. */
  lemma NoCommaNoBody(dataUrl: string)
    requires ',' !in dataUrl
    ensures DataUrlBody(dataUrl) == None
  {
    SplitWithoutSeparator(dataUrl, ',');
  }

  /** The body is the text after the first comma, up to the next comma or
      the end. */
  lemma BodyIsTextAfterFirstComma(head: string, body: string, rest: string)
    requires ',' !in head && ',' !in body
    requires rest == [] || rest[0] == ','
    ensures DataUrlBody(head + "," + body + rest) == Some(body)
  {
    SplitAfterFirstSeparator(head, ',', body + rest);
    assert head + "," + body + rest == head + [','] + (body + rest);
    if rest == [] {
      SplitWithoutSeparator(body, ',');
      assert body + rest == body;
    } else {
      SplitAfterFirstSeparator(body, ',', rest[1..]);
      assert body + rest == body + [','] + rest[1..];
    }
  }

  /** A character of the base64 alphabet (section 4 of RFC 4648), with
      the '=' pad. */
  predicate IsBase64Char(c: char)
  {
    ('A' <= c <= 'Z') || ('a' <= c <= 'z') || ('0' <= c <= '9') || c == '+' || c == '/' || c == '='
  }

  /** The data URL `readAsDataURL` produces: `data:<type>;base64,<payload>`. */
  function DataUrl(mediaType: string, payload: string): string
  {
    "data:" + mediaType + ";base64," + payload
  }

  /** For a comma-free type and a base64 payload the extraction returns the
      payload exactly. */
  lemma DataUrlBodyIsPayload(mediaType: string, payload: string)
    requires ',' !in mediaType
    requires forall k :: 0 <= k < |payload| ==> IsBase64Char(payload[k])
    ensures DataUrlBody(DataUrl(mediaType, payload)) == Some(payload)
  {
    var head := "data:" + mediaType + ";base64";
    assert ',' !in head by {
      assert head == "data:" + mediaType + ";base64";
      forall k | 0 <= k < |head| ensures head[k] != ',' {
        if k < 5 {
        } else if k < 5 + |mediaType| {
          assert head[k] == mediaType[k - 5];
        } else {
          assert head[k] == ";base64"[k - 5 - |mediaType|];
        }
      }
    }
    assert ',' !in payload by {
      forall k | 0 <= k < |payload| ensures payload[k] != ',' {
        assert IsBase64Char(payload[k]);
      }
    }
    assert DataUrl(mediaType, payload) == head + "," + payload + [];
    BodyIsTextAfterFirstComma(head, payload, []);
  }

  /** With a named, typed file whose read succeeds, the encoding is the
      payload of its data URL. */
  lemma EncodingOfReadableFile(file: File, payload: string)
    requires file.name != "" && file.mediaType != "" && ',' !in file.mediaType
    requires forall k :: 0 <= k < |payload| ==> IsBase64Char(payload[k])
    ensures FileToBase64(Some(file), Loaded(DataUrl(file.mediaType, payload))) == Ok(Some(payload))
  {
    DataUrlBodyIsPayload(file.mediaType, payload);
  }
}
