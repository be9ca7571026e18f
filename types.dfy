/**
 * The media and codec enumerations of `utils/types/type.go` and their
 * mappings from strings, mime types and FFmpeg identifiers. The FFmpeg
 * identifiers are C constants; they appear here as symbolic values, with
 * one catch-all for every other identifier.
 */
module Types {
  datatype MediaType = UnknownMediaType | MediaTypeVideo | MediaTypeAudio

  /** `MediaType.String`: the string the constant is defined as. */
  function MediaTypeString(m: MediaType): string {
    match m
    case UnknownMediaType => "unknown"
    case MediaTypeVideo => "video"
    case MediaTypeAudio => "audio"
  }

  function NewMediaType(s: string): (m: MediaType)
    ensures m == MediaTypeVideo <==> s == "video"
    ensures m == MediaTypeAudio <==> s == "audio"
    ensures m == UnknownMediaType <==> s != "video" && s != "audio"
  {
    if s == "video" then MediaTypeVideo
    else if s == "audio" then MediaTypeAudio
    else UnknownMediaType
  }

  /** Every media type, unknown included, reads back from its string. */
  lemma MediaTypeRoundTrip(m: MediaType)
    ensures NewMediaType(MediaTypeString(m)) == m
  {
  }

  datatype AvMediaType = AvMediaTypeAudio | AvMediaTypeVideo | AvMediaTypeOther(id: int)

  function MediaTypeFromFFmpeg(t: AvMediaType): (m: MediaType)
    ensures m == MediaTypeAudio <==> t == AvMediaTypeAudio
    ensures m == MediaTypeVideo <==> t == AvMediaTypeVideo
  {
    match t
    case AvMediaTypeAudio => MediaTypeAudio
    case AvMediaTypeVideo => MediaTypeVideo
    case AvMediaTypeOther(_) => UnknownMediaType
  }

  datatype CodecType = CodecTypeUnknown | CodecTypeH264 | CodecTypeVP8 | CodecTypeAV1 | CodecTypeAAC | CodecTypeOpus

  datatype AvCodecId = AvCodecIdH264 | AvCodecIdVP8 | AvCodecIdAV1 | AvCodecIdAAC | AvCodecIdOpus | AvCodecIdOther(id: int)

  function CodecTypeFromFFmpeg(id: AvCodecId): (c: CodecType)
    ensures c == CodecTypeUnknown <==> id.AvCodecIdOther?
  {
    match id
    case AvCodecIdH264 => CodecTypeH264
    case AvCodecIdVP8 => CodecTypeVP8
    case AvCodecIdAV1 => CodecTypeAV1
    case AvCodecIdAAC => CodecTypeAAC
    case AvCodecIdOpus => CodecTypeOpus
    case AvCodecIdOther(_) => CodecTypeUnknown
  }

  /** The identifier FFmpeg gives each known codec. */
  function AvCodecIdOf(c: CodecType): AvCodecId
    requires c != CodecTypeUnknown
  {
    match c
    case CodecTypeH264 => AvCodecIdH264
    case CodecTypeVP8 => AvCodecIdVP8
    case CodecTypeAV1 => AvCodecIdAV1
    case CodecTypeAAC => AvCodecIdAAC
    case CodecTypeOpus => AvCodecIdOpus
  }

  /** The FFmpeg mapping is one-to-one on the known codecs. */
  lemma CodecTypeFromFFmpegInverse(c: CodecType)
    requires c != CodecTypeUnknown
    ensures CodecTypeFromFFmpeg(AvCodecIdOf(c)) == c
  {
  }

  /** `strings.ToLower` on ASCII letters. */
  function LowerChar(c: char): (r: char)
    ensures 'A' <= c <= 'Z' ==> 'a' <= r <= 'z' && r as int == c as int + 32
    ensures !('A' <= c <= 'Z') ==> r == c
  {
    if 'A' <= c <= 'Z' then (c as int + 32) as char else c
  }

  function UpperChar(c: char): (r: char)
    ensures 'a' <= c <= 'z' ==> 'A' <= r <= 'Z' && r as int + 32 == c as int
    ensures !('a' <= c <= 'z') ==> r == c
  {
    if 'a' <= c <= 'z' then (c as int - 32) as char else c
  }

  function ToLower(s: string): (r: string)
    ensures |r| == |s|
  {
    if |s| == 0 then [] else [LowerChar(s[0])] + ToLower(s[1..])
  }

  function ToUpper(s: string): (r: string)
    ensures |r| == |s|
  {
    if |s| == 0 then [] else [UpperChar(s[0])] + ToUpper(s[1..])
  }

  /** Lowering twice is lowering once. */
  lemma {:induction false} ToLowerIdempotent(s: string)
    ensures ToLower(ToLower(s)) == ToLower(s)
  {
    if |s| > 0 {
      ToLowerIdempotent(s[1..]);
      assert ToLower(s)[1..] == ToLower(s[1..]);
    }
  }

  /** Lowering an upper-cased string gives that string in lower case. */
  lemma {:induction false} LowerOfUpper(s: string)
    ensures ToLower(ToUpper(s)) == ToLower(s)
  {
    if |s| > 0 {
      LowerOfUpper(s[1..]);
      assert ToUpper(s)[1..] == ToUpper(s[1..]);
    }
  }

  /** The mime type each known codec is recognised by, in lower case. */
  function MimeTypeOf(c: CodecType): string
    requires c != CodecTypeUnknown
  {
    match c
    case CodecTypeH264 => "video/h264"
    case CodecTypeVP8 => "video/vp8"
    case CodecTypeAV1 => "video/av1"
    case CodecTypeAAC => "audio/aac"
    case CodecTypeOpus => "audio/opus"
  }

  function CodecTypeFromMimeType(mimeType: string): (c: CodecType)
    ensures c != CodecTypeUnknown ==> ToLower(mimeType) == MimeTypeOf(c)
  {
    var m := ToLower(mimeType);
    if m == "video/h264" then CodecTypeH264
    else if m == "video/vp8" then CodecTypeVP8
    else if m == "video/av1" then CodecTypeAV1
    else if m == "audio/aac" then CodecTypeAAC
    else if m == "audio/opus" then CodecTypeOpus
    else CodecTypeUnknown
  }

  /** The mime type is matched case-insensitively: any spelling that lowers
      to a known mime type gives its codec, and nothing else does. */
  lemma MimeTypeCaseInsensitive(mimeType: string, c: CodecType)
    requires c != CodecTypeUnknown
    ensures CodecTypeFromMimeType(mimeType) == c <==> ToLower(mimeType) == MimeTypeOf(c)
  {
  }

  /** Every known codec is recognised from its mime type in upper case. */
  lemma UpperMimeType(c: CodecType)
    requires c != CodecTypeUnknown
    ensures CodecTypeFromMimeType(ToUpper(MimeTypeOf(c))) == c
  {
    LowerOfUpper(MimeTypeOf(c));
    LowerIsIdentity(MimeTypeOf(c));
  }

  /** A string with no upper-case ASCII letter is its own lower case. */
  lemma {:induction false} LowerIsIdentity(s: string)
    requires forall i :: 0 <= i < |s| ==> !('A' <= s[i] <= 'Z')
    ensures ToLower(s) == s
  {
    if |s| > 0 {
      LowerIsIdentity(s[1..]);
    }
  }
}
