/** The upload middleware (server/src/middleware/upload.middleware.ts): the file filter's
    allow-list of MIME types and the file-size limit read from the environment. The
    environment variable is a parameter. */
module UploadMiddleware {
  import opened Common
  import Text
  import MessageModel
  import MessageController

  /** The fifteen accepted types, in the order the filter lists them; the document types
      are written as their shared `application/` prefix followed by the subtype. */
  const AllowedTypes: seq<string> := [
    "image/jpeg", "image/jpg", "image/png", "image/gif", "image/webp",
    "video/mp4", "video/mpeg", "video/quicktime",
    "application/" + "pdf", "application/" + "msword",
    "application/" + "vnd.openxmlformats-officedocument.wordprocessingml.document",
    "application/" + "vnd.ms-excel",
    "application/" + "vnd.openxmlformats-officedocument.spreadsheetml.sheet",
    "audio/mpeg", "audio/wav"]

  const InvalidType: string := "Invalid file type. Only images, videos, documents, and audio files are allowed."

  /** The text used when `MAX_FILE_SIZE` is unset or empty. */
  const DefaultSizeText: string := "10485760"

  /** The file filter: `None` lets the file through, `Some(message)` refuses it. */
  function FileFilter(mimetype: string): (r: Option<string>)
    ensures r.None? <==> exists i :: 0 <= i < |AllowedTypes| && AllowedTypes[i] == mimetype
    ensures r.Some? ==> r.value == InvalidType
  {
    if mimetype in AllowedTypes then None else Some(InvalidType)
  }

  /** The test is whole-string equality, not a prefix: an SVG image and an Ogg audio file
      are refused although other images and audio files pass. */
  lemma FilterIsExact()
    ensures FileFilter("image/png").None? && FileFilter("image/svg+xml") == Some(InvalidType)
    ensures FileFilter("audio/mpeg").None? && FileFilter("audio/ogg") == Some(InvalidType)
  {
    assert AllowedTypes[2] == "image/png";
    assert AllowedTypes[13] == "audio/mpeg";
  }

  /** Neither a bare prefix nor a differently cased type is accepted. */
  lemma FilterIsCaseSensitive()
    ensures FileFilter("image/").Some? && FileFilter("IMAGE/PNG").Some?
  {
  }

  /** The type each allowed MIME type is stored under, position by position. */
  const AllowedKinds: seq<MessageModel.MsgType> := [
    MessageModel.ImageMsg, MessageModel.ImageMsg, MessageModel.ImageMsg, MessageModel.ImageMsg, MessageModel.ImageMsg,
    MessageModel.VideoMsg, MessageModel.VideoMsg, MessageModel.VideoMsg,
    MessageModel.DocumentMsg, MessageModel.DocumentMsg, MessageModel.DocumentMsg, MessageModel.DocumentMsg, MessageModel.DocumentMsg,
    MessageModel.AudioMsg, MessageModel.AudioMsg]

  /** Any `application/` type is classified as a document. */
  lemma ApplicationIsDocument(t: string)
    requires Text.StartsWith(t, "application/")
    ensures MessageController.Classify(t) == MessageModel.DocumentMsg
  {
    assert t[..12][1] == 'p' && t[..12][0] == 'a';
    assert t[..6][1] != "image/"[1] && t[..6][0] != "video/"[0] && t[..6][1] != "audio/"[1];
  }

  /** Every file the filter lets through is classified by the upload handler as the kind its
      top-level type names. */
  lemma AllowedTypesClassify()
    ensures |AllowedKinds| == |AllowedTypes|
    ensures forall i :: 0 <= i < |AllowedTypes| ==> MessageController.Classify(AllowedTypes[i]) == AllowedKinds[i]
    ensures forall t :: FileFilter(t).None? ==> MessageController.Classify(t) != MessageModel.TextMsg
  {
    forall i | 0 <= i < |AllowedTypes|
      ensures MessageController.Classify(AllowedTypes[i]) == AllowedKinds[i]
    {
      var t := AllowedTypes[i];
      if i < 5 {
        assert t[..6] == "image/";
      } else if i < 8 {
        assert t[..6] == "video/";
        assert t[..6] != "image/";
      } else if i < 13 {
        Text.StartsWithConcat("application/", t[12..]);
        ApplicationIsDocument(t);
      } else {
        assert t[..6] == "audio/";
        assert t[..6] != "image/" && t[..6] != "video/";
      }
    }
  }

  /** `parseInt(process.env.MAX_FILE_SIZE || '10485760')`: an unset or empty variable gives
      the default of ten mebibytes; otherwise the variable is read with `parseInt`, where
      `None` stands for `NaN`. */
  function FileSizeLimit(env: Option<string>): (r: Option<int>)
    ensures !Truthy(env) ==> r == Some(10 * 1024 * 1024)
    ensures Truthy(env) ==> r == Text.ParseInt(env.value)
  {
    var text := if Truthy(env) then env.value else DefaultSizeText;
    if !Truthy(env) then DefaultIsTenMebibytes(); Text.ParseInt(text) else Text.ParseInt(text)
  }

  lemma DefaultIsTenMebibytes()
    ensures Text.ParseInt(DefaultSizeText) == Some(10 * 1024 * 1024)
  {
    assert Text.Decimal(1) == ['1'];
    assert Text.Decimal(10) == ['1', '0'];
    assert Text.Decimal(104) == ['1', '0', '4'];
    assert Text.Decimal(1048) == ['1', '0', '4', '8'];
    assert Text.Decimal(10485) == ['1', '0', '4', '8', '5'];
    assert Text.Decimal(104857) == ['1', '0', '4', '8', '5', '7'];
    assert Text.Decimal(1048576) == ['1', '0', '4', '8', '5', '7', '6'];
    assert Text.Decimal(10485760) == DefaultSizeText;
    Text.ParseIntDecimal(10485760, "");
    assert Text.Decimal(10485760) + "" == DefaultSizeText;
  }

  /** A limit written in decimal is read back as that number, and a unit written after it
      is ignored: `"5242880"` and `"5242880 bytes"` both give 5242880. */
  lemma FileSizeLimitReadsDecimal(n: nat, unit: string)
    requires |unit| > 0 ==> unit[0] == ' '
    ensures FileSizeLimit(Some(Text.Decimal(n) + unit)) == Some(n)
  {
    Text.ParseIntDecimal(n, unit);
  }
}
