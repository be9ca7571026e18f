/**
 * `GetExtension` of `codecs/codecs.go`: the file extension of a recording
 * with the given video and audio codecs (`None` for an absent codec). With
 * both codecs the extension is that of the combined container, with video
 * alone that of a video-only file, with audio alone that of an audio-only
 * file, and with neither it is empty.
 */
module Codecs {
  import opened Base
  import opened Types
  import opened Containers

  datatype ExtensionResult = Extension(ext: string) | UnsupportedVideo(codec: CodecType) | UnsupportedAudio(codec: CodecType)

  /** The extensions of the container families. */
  predicate MatroskaFamily(ext: string) { ext == "webm" || ext == "mkv" || ext == "mka" }
  predicate Mp4Family(ext: string) { ext == "mp4" || ext == "m4v" || ext == "m4a" }

  /** Video and audio together, or video alone. */
  function VideoExtension(video: CodecType, withAudio: bool): ExtensionResult {
    match video
    case CodecTypeVP8 => Extension(if withAudio then "webm" else "mkv")
    case CodecTypeH264 => Extension(if withAudio then "mp4" else "m4v")
    case _ => UnsupportedVideo(video)
  }

  /** `GetExtension` as written: the audio-only case compares the audio codec
      with the VP8 and H.264 video codec types. */
  function GetExtension(video: Option<CodecType>, audio: Option<CodecType>): (r: ExtensionResult)
    ensures video.None? && audio.None? ==> r == Extension("")
    ensures video == Some(CodecTypeVP8) ==> r == Extension(if audio.Some? then "webm" else "mkv")
    ensures video == Some(CodecTypeH264) ==> r == Extension(if audio.Some? then "mp4" else "m4v")
    ensures r.UnsupportedVideo? <==> video.Some? && video.value != CodecTypeVP8 && video.value != CodecTypeH264
    ensures r.UnsupportedAudio? <==> video.None? && audio.Some? && audio.value != CodecTypeVP8 && audio.value != CodecTypeH264
  {
    if video.Some? then VideoExtension(video.value, audio.Some?)
    else if audio.Some? then
      match audio.value
      case CodecTypeVP8 => Extension("mka")
      case CodecTypeH264 => Extension("m4a")
      case _ => UnsupportedAudio(audio.value)
    else Extension("")
  }

  /** The audio-only case rejects every audio codec the system has: an Opus
      or AAC recording without video has no extension. */
  lemma AudioOnlyRejected(audio: CodecType)
    requires audio == CodecTypeOpus || audio == CodecTypeAAC
    ensures GetExtension(None, Some(audio)) == UnsupportedAudio(audio)
    ensures NewContainer(None, Some(audio)).Made?
  {
  }

  /** `GetExtension` with the audio-only case switching on the audio
      codecs, Opus to Matroska audio and AAC to MPEG-4 audio. */
  function FixedGetExtension(video: Option<CodecType>, audio: Option<CodecType>): (r: ExtensionResult)
    ensures video.Some? ==> r == GetExtension(video, audio)
    ensures video.None? && audio.None? ==> r == Extension("")
  {
    if video.Some? then VideoExtension(video.value, audio.Some?)
    else if audio.Some? then
      match audio.value
      case CodecTypeOpus => Extension("mka")
      case CodecTypeAAC => Extension("m4a")
      case _ => UnsupportedAudio(audio.value)
    else Extension("")
  }

  /** The corrected extension agrees with the container: exactly when a
      container can be made for the codecs, there is an extension, and it is
      one of that container's family. */
  lemma ExtensionMatchesContainer(video: Option<CodecType>, audio: Option<CodecType>)
    requires video.Some? || audio.Some?
    ensures NewContainer(video, audio).Made? <==> FixedGetExtension(video, audio).Extension?
    ensures NewContainer(video, audio) == Made(WebM) ==> MatroskaFamily(FixedGetExtension(video, audio).ext)
    ensures NewContainer(video, audio) == Made(MP4) ==> Mp4Family(FixedGetExtension(video, audio).ext)
  {
  }
}
