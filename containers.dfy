/**
 * `NewContainer` of `hubs/containers/containers.go`: the output container is
 * chosen by the video codec when there is one, otherwise by the audio codec.
 * A codec that is absent (a nil interface in Go) is `None`; the container
 * constructors are represented by the kind they build.
 */
module Containers {
  import opened Base
  import opened Types

  datatype ContainerKind = WebM | MP4

  datatype ContainerResult = Made(kind: ContainerKind) | Failed(reason: string)

  function NewContainer(video: Option<CodecType>, audio: Option<CodecType>): (r: ContainerResult)
    ensures video.Some? ==> (r == Made(WebM) <==> video.value == CodecTypeVP8) && (r == Made(MP4) <==> video.value == CodecTypeH264)
    ensures video.None? && audio.Some? ==> (r == Made(WebM) <==> audio.value == CodecTypeOpus) && (r == Made(MP4) <==> audio.value == CodecTypeAAC)
    ensures video.None? && audio.None? ==> r == Failed("unsupported codec")
  {
    if video.Some? then
      match video.value
      case CodecTypeVP8 => Made(WebM)
      case CodecTypeH264 => Made(MP4)
      case _ => Failed("unsupported video codec")
    else if audio.Some? then
      match audio.value
      case CodecTypeOpus => Made(WebM)
      case CodecTypeAAC => Made(MP4)
      case _ => Failed("unsupported audio codec")
    else Failed("unsupported codec")
  }

  /** With a video codec the audio codec plays no part in the choice. */
  lemma VideoDecides(video: CodecType, audio1: Option<CodecType>, audio2: Option<CodecType>)
    ensures NewContainer(Some(video), audio1) == NewContainer(Some(video), audio2)
  {
  }
}
