/**
 * The playlists of `HLSHandler` in `egress/servers/hls.go`. Media arrives
 * as numbered halves of segments; every second half completes a segment.
 * The HLS playlist keeps a sliding window of at most three segments and
 * counts the evicted ones in its media sequence number; the low-latency
 * playlist (LL-HLS) mirrors it with the two parts of each segment and a
 * preload hint for the next part. Each payload is stored under its file
 * name, and each stored file is announced once by closing its channel;
 * closing a channel twice is a Go panic.
 *
 * Durations are integers (microseconds) and the segments' wall-clock
 * dates are not modelled; the playlists are the values the library would
 * marshal.
 */
module HlsWindow {
  import opened Base

  const WindowSize: nat := 3

  datatype Part = Part(duration: int, uri: string, independent: bool)

  datatype Segment = Segment(uri: string, duration: int, title: string, parts: seq<Part>)

  /** A media playlist: the fields the handler changes. */
  datatype Playlist = Playlist(mediaSequence: int, segments: seq<Segment>, parts: seq<Part>, preloadHint: Option<string>)

  const EmptyPlaylist := Playlist(0, [], [], None)

  /** A stored file: whether its channel is closed, and its payload. */
  datatype Media = Media(closed: bool, payload: bytes)

  /** The handler's state. */
  datatype Hls = Hls(hls: Playlist, tempPayload: bytes, tempDuration: int, ll: Playlist, media: map<string, Media>)

  const Fresh := Hls(EmptyPlaylist, [], 0, EmptyPlaylist, map[])

  // Decimal numerals (`strconv.Itoa` and `%d`).

  function DigitChar(d: nat): (c: char)
    requires d < 10
    ensures '0' <= c <= '9'
  {
    ('0' as int + d) as char
  }

  function NatString(n: nat): (s: string)
    ensures |s| >= 1 && '0' <= s[0] <= '9'
    decreases n
  {
    if n < 10 then [DigitChar(n)] else NatString(n / 10) + [DigitChar(n % 10)]
  }

  function Itoa(n: int): (s: string)
    ensures |s| >= 1 && (s[0] == '-' || '0' <= s[0] <= '9')
  {
    if n < 0 then "-" + NatString(-n) else NatString(n)
  }

  /** `output_<seg>.m4s`. */
  function SegmentUri(segIndex: int): (s: string)
    ensures |s| >= 1 && s[0] == 'o'
  {
    "output_" + Itoa(segIndex) + ".m4s"
  }

  /** `output_<seg>_<part>.m4s`. */
  function PartUri(segIndex: int, partIndex: int): (s: string)
    ensures |s| >= 1 && s[0] == 'o'
  {
    "output_" + Itoa(segIndex) + "_" + Itoa(partIndex) + ".m4s"
  }

  /** Go's `/` and `%` on `int`, which truncate toward zero. */
  function GoDiv2(i: int): (q: int)
    ensures i >= 0 ==> q == i / 2
  {
    if i >= 0 then i / 2 else -((-i) / 2)
  }

  function GoRem2(i: int): (r: int)
    ensures i == 2 * GoDiv2(i) + r
    ensures i >= 0 ==> r == i % 2
  {
    if i >= 0 then i % 2 else -((-i) % 2)
  }

  /** `loadOrStoreMedia` on the map: an open, empty entry if there is none. */
  function LoadOrStore(m: map<string, Media>, key: string): (r: map<string, Media>)
    ensures key in r && (key in m ==> r == m) && (key !in m ==> r == m[key := Media(false, [])])
  {
    if key in m then m else m[key := Media(false, [])]
  }

  /** Storing a payload and closing the entry's channel: a panic if the
      entry was closed before. */
  function Publish(m: map<string, Media>, key: string, payload: bytes): (r: Exit<map<string, Media>>)
    ensures r.Panic? <==> key in m && m[key].closed
    ensures r.Normal? ==> r.value == m[key := Media(true, payload)]
  {
    var entry := LoadOrStore(m, key);
    if entry[key].closed then Panic else Normal(entry[key := Media(true, payload)])
  }

  /** The window after appending `seg`: the oldest segment goes when three
      are there already. */
  function Slide(p: Playlist, seg: Segment): (r: (Playlist, Option<Segment>))
    ensures |p.segments| >= WindowSize ==>
      r == (p.(mediaSequence := p.mediaSequence + 1, segments := p.segments[1..] + [seg]), Some(p.segments[0]))
    ensures |p.segments| < WindowSize ==> r == (p.(segments := p.segments + [seg]), None)
  {
    if |p.segments| >= WindowSize then
      (p.(mediaSequence := p.mediaSequence + 1, segments := p.segments[1..] + [seg]), Some(p.segments[0]))
    else (p.(segments := p.segments + [seg]), None)
  }

  /** The last `n` elements of a sequence (all of them if it is shorter). */
  function LastN<T>(xs: seq<T>, n: nat): (r: seq<T>)
    ensures |r| == if |xs| < n then |xs| else n
  {
    if |xs| <= n then xs else xs[|xs| - n..]
  }

  /** On a window of at most three, sliding keeps the three newest
      segments, and every segment that ever entered is either in the
      window or counted by the media sequence number. */
  lemma SlideWindow(p: Playlist, seg: Segment)
    requires |p.segments| <= WindowSize
    ensures var r := Slide(p, seg).0;
      && r.segments == LastN(p.segments + [seg], WindowSize)
      && r.mediaSequence + |r.segments| == p.mediaSequence + |p.segments| + 1
      && r.segments[|r.segments| - 1] == seg
      && (Slide(p, seg).1.Some? <==> |p.segments| == WindowSize)
  {
    if |p.segments| == WindowSize {
      assert (p.segments + [seg])[1..] == p.segments[1..] + [seg];
    }
  }

  /** `appendMediaHLS`: part 0 only stashes its payload and duration; part 1
      completes the segment, which enters the window and whose file is the
      stashed payload followed by this one. The evicted segment, if any, is
      returned. */
  function AppendHls(s: Hls, payload: bytes, segIndex: int, partIndex: int, duration: int): (r: Exit<(Hls, Option<Segment>)>)
    ensures partIndex == 0 ==> r == Normal((s.(tempPayload := payload, tempDuration := duration), None))
    ensures partIndex != 0 ==>
      (r.Panic? <==> SegmentUri(segIndex) in s.media && s.media[SegmentUri(segIndex)].closed)
    ensures partIndex != 0 && r.Normal? ==>
      var seg := Segment(SegmentUri(segIndex), duration + s.tempDuration, Itoa(segIndex), []);
      && (r.value.0.hls, r.value.1) == Slide(s.hls, seg)
      && r.value.0.media == s.media[SegmentUri(segIndex) := Media(true, s.tempPayload + payload)]
      && r.value.0 == s.(hls := r.value.0.hls, media := r.value.0.media)
  {
    if partIndex == 0 then Normal((s.(tempPayload := payload, tempDuration := duration), None))
    else
      var segOutput := SegmentUri(segIndex);
      var (hls, deleted) := Slide(s.hls, Segment(segOutput, duration + s.tempDuration, Itoa(segIndex), []));
      match Publish(s.media, segOutput, s.tempPayload + payload)
      case Panic => Panic
      case Normal(media) => Normal((s.(hls := hls, media := media), deleted))
  }

  /** `appendMediallhls`: part 0 becomes the single pending part with a
      hint for part 1; part 1 closes the segment that the HLS playlist has
      just completed (when there is one), with both parts, and hints at
      part 0 of the next segment. Each part's file is stored. */
  function AppendLlhls(s: Hls, payload: bytes, segIndex: int, partIndex: int, duration: int): (r: Exit<(Hls, Option<Segment>)>)
    ensures partIndex == 0 && r.Normal? ==>
      && r.value.0.ll.parts == [Part(duration, PartUri(segIndex, 0), true)]
      && r.value.0.ll.preloadHint == Some(PartUri(segIndex, 1))
      && r.value.0.ll.segments == s.ll.segments && r.value.1.None?
    ensures partIndex != 0 && r.Normal? ==>
      && r.value.0.ll.parts == []
      && r.value.0.ll.preloadHint == Some(PartUri(segIndex + 1, 0))
      && (|s.hls.segments| == 0 ==> r.value.0.ll.segments == s.ll.segments && r.value.1.None?)
    ensures partIndex != 0 && r.Normal? && |s.hls.segments| > 0 ==>
      var last := s.hls.segments[|s.hls.segments| - 1];
      var closed := last.(parts := s.ll.parts + [Part(duration, PartUri(segIndex, partIndex), true)]);
      && r.value.0.ll.segments == Slide(s.ll, closed).0.segments
      && r.value.0.ll.mediaSequence == Slide(s.ll, closed).0.mediaSequence
      && r.value.1 == Slide(s.ll, closed).1
    ensures r.Panic? <==> PartUri(segIndex, partIndex) in s.media && s.media[PartUri(segIndex, partIndex)].closed
    ensures r.Normal? ==>
      && r.value.0.media == s.media[PartUri(segIndex, partIndex) := Media(true, payload)]
      && r.value.0 == s.(ll := r.value.0.ll, media := r.value.0.media)
  {
    if partIndex == 0 then
      var part0Output := PartUri(segIndex, partIndex);
      var ll := s.ll.(parts := [Part(duration, part0Output, true)], preloadHint := Some(PartUri(segIndex, 1)));
      match Publish(s.media, part0Output, payload)
      case Panic => Panic
      case Normal(media) => Normal((s.(ll := ll, media := media), None))
    else
      var part1Output := PartUri(segIndex, partIndex);
      var (ll, deleted) :=
        if |s.hls.segments| > 0 then
          var lastSeg := s.hls.segments[|s.hls.segments| - 1];
          Slide(s.ll, Segment(lastSeg.uri, lastSeg.duration, lastSeg.title, s.ll.parts + [Part(duration, part1Output, true)]))
        else (s.ll, None);
      var ll' := ll.(parts := [], preloadHint := Some(PartUri(segIndex + 1, 0)));
      match Publish(s.media, part1Output, payload)
      case Panic => Panic
      case Normal(media) => Normal((s.(ll := ll', media := media), deleted))
  }

  /** Part 1 of a segment the HLS window holds makes that segment, with
      the pending parts and this one, the newest of the low-latency window,
      which keeps its three newest segments. */
  lemma LlhlsClosesSegment(s: Hls, payload: bytes, segIndex: int, partIndex: int, duration: int)
    requires partIndex != 0 && AppendLlhls(s, payload, segIndex, partIndex, duration).Normal?
    requires |s.hls.segments| > 0 && |s.ll.segments| <= WindowSize
    ensures var ll := AppendLlhls(s, payload, segIndex, partIndex, duration).value.0.ll;
      var last := s.hls.segments[|s.hls.segments| - 1];
      var closed := last.(parts := s.ll.parts + [Part(duration, PartUri(segIndex, partIndex), true)]);
      && ll.segments == LastN(s.ll.segments + [closed], WindowSize)
      && ll.segments[|ll.segments| - 1] == closed
      && ll.mediaSequence + |ll.segments| == s.ll.mediaSequence + |s.ll.segments| + 1
  {
    var last := s.hls.segments[|s.hls.segments| - 1];
    SlideWindow(s.ll, last.(parts := s.ll.parts + [Part(duration, PartUri(segIndex, partIndex), true)]));
  }

  /** The two appends of `AppendMedia` for media number `index`, and the
      segment the HLS window evicted. */
  function AppendBoth(s: Hls, payload: bytes, index: int, duration: int): Exit<(Hls, Option<Segment>)> {
    var segIndex := GoDiv2(index);
    var partIndex := GoRem2(index);
    match AppendHls(s, payload, segIndex, partIndex, duration)
    case Panic => Panic
    case Normal((s1, deleted)) =>
      match AppendLlhls(s1, payload, segIndex, partIndex, duration)
      case Panic => Panic
      case Normal((s2, _)) => Normal((s2, deleted))
  }

  /** `AppendMedia` as written: the evicted segment's entry is removed under
      the segment's title, which is its bare number. */
  function AppendMediaAsWritten(s: Hls, payload: bytes, index: int, duration: int): (r: Exit<Hls>) {
    match AppendBoth(s, payload, index, duration)
    case Panic => Panic
    case Normal((s2, deleted)) =>
      if deleted.None? then Normal(s2) else Normal(s2.(media := s2.media - {deleted.value.title}))
  }

  /** `AppendMedia` as evidently intended: the evicted segment's file,
      stored under its URI, is removed. */
  function AppendMediaCorrected(s: Hls, payload: bytes, index: int, duration: int): (r: Exit<Hls>) {
    match AppendBoth(s, payload, index, duration)
    case Panic => Panic
    case Normal((s2, deleted)) =>
      if deleted.None? then Normal(s2) else Normal(s2.(media := s2.media - {deleted.value.uri}))
  }

  /** Titles are numerals; stored files are named by words. */
  predicate Numeral(t: string) {
    |t| >= 1 && (t[0] == '-' || '0' <= t[0] <= '9')
  }

  predicate FileName(k: string) {
    |k| >= 1 && 'a' <= k[0] <= 'z'
  }

  /** What every state reached from `Fresh` satisfies: both windows hold
      at most three segments, titled by numerals, and the stored files
      have names. */
  predicate Inv(s: Hls) {
    && |s.hls.segments| <= WindowSize && |s.ll.segments| <= WindowSize
    && (forall i :: 0 <= i < |s.hls.segments| ==> Numeral(s.hls.segments[i].title))
    && (forall k :: k in s.media ==> FileName(k))
  }

  lemma FreshInv()
    ensures Inv(Fresh)
  {
  }

  lemma NumeralNotFileName(t: string)
    requires Numeral(t)
    ensures !FileName(t)
  {
  }

  /** `appendMediaHLS` keeps the invariant; what it evicts is the oldest
      segment of a full window. */
  lemma AppendHlsInv(s: Hls, payload: bytes, segIndex: int, partIndex: int, duration: int)
    requires Inv(s) && AppendHls(s, payload, segIndex, partIndex, duration).Normal?
    ensures var (s1, d) := AppendHls(s, payload, segIndex, partIndex, duration).value;
      && Inv(s1) && s1.ll == s.ll
      && (d.Some? ==> d.value == s.hls.segments[0] && |s.hls.segments| == WindowSize)
  {
    if partIndex != 0 {
      var s1 := AppendHls(s, payload, segIndex, partIndex, duration).value.0;
      var seg := Segment(SegmentUri(segIndex), duration + s.tempDuration, Itoa(segIndex), []);
      SlideWindow(s.hls, seg);
      assert forall i :: 0 <= i < |s1.hls.segments| ==> s1.hls.segments[i] == seg || s1.hls.segments[i] in s.hls.segments;
    }
  }

  /** `appendMediallhls` keeps the invariant. */
  lemma AppendLlhlsInv(s: Hls, payload: bytes, segIndex: int, partIndex: int, duration: int)
    requires Inv(s) && AppendLlhls(s, payload, segIndex, partIndex, duration).Normal?
    ensures Inv(AppendLlhls(s, payload, segIndex, partIndex, duration).value.0)
  {
    if partIndex != 0 && |s.hls.segments| > 0 {
      var lastSeg := s.hls.segments[|s.hls.segments| - 1];
      SlideWindow(s.ll, Segment(lastSeg.uri, lastSeg.duration, lastSeg.title, s.ll.parts + [Part(duration, PartUri(segIndex, partIndex), true)]));
    }
  }

  /** The two appends keep the invariant. */
  lemma AppendBothInv(s: Hls, payload: bytes, index: int, duration: int)
    requires Inv(s) && AppendBoth(s, payload, index, duration).Normal?
    ensures Inv(AppendBoth(s, payload, index, duration).value.0)
    ensures var d := AppendBoth(s, payload, index, duration).value.1;
      d.Some? ==> d.value == s.hls.segments[0] && |s.hls.segments| == WindowSize
  {
    var segIndex, partIndex := GoDiv2(index), GoRem2(index);
    AppendHlsInv(s, payload, segIndex, partIndex, duration);
    var s1 := AppendHls(s, payload, segIndex, partIndex, duration).value.0;
    AppendLlhlsInv(s1, payload, segIndex, partIndex, duration);
  }

  /** Both versions of `AppendMedia` keep the invariant. */
  lemma AppendMediaInv(s: Hls, payload: bytes, index: int, duration: int)
    requires Inv(s)
    ensures AppendMediaCorrected(s, payload, index, duration).Normal? ==> Inv(AppendMediaCorrected(s, payload, index, duration).value)
    ensures AppendMediaAsWritten(s, payload, index, duration).Normal? ==> Inv(AppendMediaAsWritten(s, payload, index, duration).value)
  {
    if AppendBoth(s, payload, index, duration).Normal? {
      AppendBothInv(s, payload, index, duration);
    }
  }

  /** As written, the removal never removes anything: the evicted
      segment's title is a numeral and never the name of a stored file, so
      the file of a segment that has left the window stays stored. */
  lemma AsWrittenKeepsEvicted(s: Hls, payload: bytes, index: int, duration: int)
    requires Inv(s) && AppendBoth(s, payload, index, duration).Normal?
    ensures var (s2, d) := AppendBoth(s, payload, index, duration).value;
      && AppendMediaAsWritten(s, payload, index, duration) == Normal(s2)
      && (d.Some? && d.value.uri in s.media ==> d.value.uri in s2.media)
  {
    var (s2, d) := AppendBoth(s, payload, index, duration).value;
    AppendBothInv(s, payload, index, duration);
    if d.Some? {
      NumeralNotFileName(d.value.title);
      assert d.value.title !in s2.media;
      assert s2.media - {d.value.title} == s2.media;
    }
  }

  /** Corrected, the evicted segment's file is removed and nothing else is. */
  lemma AppendMediaDropsEvicted(s: Hls, payload: bytes, index: int, duration: int)
    requires Inv(s) && AppendBoth(s, payload, index, duration).Normal?
    ensures var (s2, d) := AppendBoth(s, payload, index, duration).value;
      && AppendMediaCorrected(s, payload, index, duration).Normal?
      && (d.Some? ==> AppendMediaCorrected(s, payload, index, duration).value.media == s2.media - {d.value.uri}
                      && d.value.uri !in AppendMediaCorrected(s, payload, index, duration).value.media)
      && (d.None? ==> AppendMediaCorrected(s, payload, index, duration).value == s2)
  {
  }

  /** A concrete case: with segments 0, 1 and 2 in the window and part 0
      of segment 3 stashed, media number 7 completes segment 3 and evicts
      segment 0; as written its file `output_0.m4s` is still stored,
      corrected it is not. */
  lemma EvictedFileAsWritten(p: bytes)
    ensures var w := AppendMediaAsWritten(WindowOf(p), p, 7, 1);
      w.Normal? && SegmentUri(0) in w.value.media
    ensures var c := AppendMediaCorrected(WindowOf(p), p, 7, 1);
      c.Normal? && SegmentUri(0) !in c.value.media
  {
    WindowOfHolds(p);
    var s := WindowOf(p);
    assert Itoa(0) == "0" && Itoa(3) == "3";
    assert SegmentUri(3)[7] != SegmentUri(0)[7];
    AsWrittenKeepsEvicted(s, p, 7, 1);
    AppendMediaDropsEvicted(s, p, 7, 1);
  }

  /** A handler whose HLS window holds segments 0, 1 and 2, each of
      duration 2 and stored as `p + p`, with part 0 of segment 3 (payload
      `p`, duration 1) stashed and pending in the LL-HLS playlist. */
  function WindowOf(p: bytes): Hls {
    var segs := [Segment(SegmentUri(0), 2, "0", []), Segment(SegmentUri(1), 2, "1", []), Segment(SegmentUri(2), 2, "2", [])];
    Hls(Playlist(0, segs, [], None), p, 1,
        Playlist(0, [], [Part(1, PartUri(3, 0), true)], Some(PartUri(3, 1))),
        map[SegmentUri(0) := Media(true, p + p), SegmentUri(1) := Media(true, p + p), SegmentUri(2) := Media(true, p + p)])
  }

  lemma WindowOfHolds(p: bytes)
    ensures Inv(WindowOf(p))
    ensures WindowOf(p).hls.segments[0].uri == SegmentUri(0)
  {
    assert Itoa(0) == "0" && Itoa(1) == "1" && Itoa(2) == "2";
  }

  /** What `getMediaM3U8LLHLS` can answer for sequence number `sn`. */
  datatype Lookup = NoSegmentsFound | Marshalled(playlist: Playlist) | NotYet

  /** The request bound: a number below the media sequence number is an
      error; a number whose segment is in the LL-HLS window gives the
      playlist; any other number is not there yet. */
  function LookupLlhls(ll: Playlist, sn: int): (r: Lookup)
    ensures r == NoSegmentsFound <==> ll.mediaSequence > sn
    ensures r.Marshalled? <==> ll.mediaSequence <= sn && exists i :: 0 <= i < |ll.segments| && ll.segments[i].title == Itoa(sn)
    ensures r.Marshalled? ==> r.playlist == ll
  {
    if ll.mediaSequence > sn then NoSegmentsFound
    else if exists i :: 0 <= i < |ll.segments| && ll.segments[i].title == Itoa(sn) then Marshalled(ll)
    else NotYet
  }

  class HlsHandler {
    var hlsMedia: Playlist
    var hlsTempPayload: bytes
    var hlsTempDuration: int
    var llhlsMedia: Playlist
    var mediaPayload: map<string, Media>

    function State(): Hls
      reads this
    {
      Hls(hlsMedia, hlsTempPayload, hlsTempDuration, llhlsMedia, mediaPayload)
    }

    /** `newHLSStream` with the playlists `StartSession` gives it. */
    constructor ()
      ensures State() == Fresh
    {
      hlsMedia := EmptyPlaylist;
      hlsTempPayload := [];
      hlsTempDuration := 0;
      llhlsMedia := EmptyPlaylist;
      mediaPayload := map[];
    }

    method LoadOrStoreMedia(key: string) returns (media: Media)
      modifies this
      ensures mediaPayload == LoadOrStore(old(mediaPayload), key) && media == mediaPayload[key]
      ensures hlsMedia == old(hlsMedia) && llhlsMedia == old(llhlsMedia)
      ensures hlsTempPayload == old(hlsTempPayload) && hlsTempDuration == old(hlsTempDuration)
    {
      if key !in mediaPayload {
        mediaPayload := mediaPayload[key := Media(false, [])];
      }
      media := mediaPayload[key];
    }

    /** Storing a payload under `key` and closing its channel. */
    method StoreAndClose(key: string, payload: bytes) returns (panicked: bool)
      modifies this
      ensures panicked <==> Publish(old(mediaPayload), key, payload).Panic?
      ensures !panicked ==> mediaPayload == Publish(old(mediaPayload), key, payload).value
      ensures hlsMedia == old(hlsMedia) && llhlsMedia == old(llhlsMedia)
      ensures hlsTempPayload == old(hlsTempPayload) && hlsTempDuration == old(hlsTempDuration)
    {
      var media := LoadOrStoreMedia(key);
      if media.closed {
        return true;
      }
      mediaPayload := mediaPayload[key := Media(true, payload)];
      return false;
    }

    method AppendMediaHls(payload: bytes, segIndex: int, partIndex: int, duration: int) returns (deleted: Option<Segment>, panicked: bool)
      modifies this
      ensures var r := AppendHls(old(State()), payload, segIndex, partIndex, duration);
        (panicked <==> r.Panic?) && (!panicked ==> (State(), deleted) == r.value)
    {
      deleted := None;
      var segOutput := SegmentUri(segIndex);
      if partIndex == 0 {
        hlsTempPayload := payload;
        hlsTempDuration := duration;
        return None, false;
      }
      if |hlsMedia.segments| >= WindowSize {
        deleted := Some(hlsMedia.segments[0]);
        hlsMedia := hlsMedia.(mediaSequence := hlsMedia.mediaSequence + 1, segments := hlsMedia.segments[1..]);
      }
      hlsMedia := hlsMedia.(segments := hlsMedia.segments + [Segment(segOutput, duration + hlsTempDuration, Itoa(segIndex), [])]);
      panicked := StoreAndClose(segOutput, hlsTempPayload + payload);
    }

    method AppendMediaLlhls(payload: bytes, segIndex: int, partIndex: int, duration: int) returns (deleted: Option<Segment>, panicked: bool)
      modifies this
      ensures var r := AppendLlhls(old(State()), payload, segIndex, partIndex, duration);
        (panicked <==> r.Panic?) && (!panicked ==> (State(), deleted) == r.value)
    {
      deleted := None;
      if partIndex == 0 {
        var part0Output := PartUri(segIndex, partIndex);
        var nextOutput := PartUri(segIndex, 1);
        llhlsMedia := llhlsMedia.(parts := [Part(duration, part0Output, true)], preloadHint := Some(nextOutput));
        panicked := StoreAndClose(part0Output, payload);
        return;
      }
      var part1Output := PartUri(segIndex, partIndex);
      var nextOutput := PartUri(segIndex + 1, 0);
      if |hlsMedia.segments| > 0 {
        var lastSeg := hlsMedia.segments[|hlsMedia.segments| - 1];
        var seg := Segment(lastSeg.uri, lastSeg.duration, lastSeg.title, llhlsMedia.parts + [Part(duration, part1Output, true)]);
        if |llhlsMedia.segments| >= WindowSize {
          deleted := Some(llhlsMedia.segments[0]);
          llhlsMedia := llhlsMedia.(mediaSequence := llhlsMedia.mediaSequence + 1, segments := llhlsMedia.segments[1..]);
        }
        llhlsMedia := llhlsMedia.(segments := llhlsMedia.segments + [seg]);
      }
      llhlsMedia := llhlsMedia.(parts := [], preloadHint := Some(nextOutput));
      panicked := StoreAndClose(part1Output, payload);
    }

    /** `AppendMedia`, with the evicted segment's file removed under its
        URI. */
    method AppendMedia(payload: bytes, index: int, duration: int) returns (panicked: bool)
      modifies this
      ensures var r := AppendMediaCorrected(old(State()), payload, index, duration);
        (panicked <==> r.Panic?) && (!panicked ==> State() == r.value)
    {
      var segIndex := GoDiv2(index);
      var partIndex := GoRem2(index);
      var deleted;
      deleted, panicked := AppendMediaHls(payload, segIndex, partIndex, duration);
      if panicked {
        return;
      }
      var llDeleted;
      llDeleted, panicked := AppendMediaLlhls(payload, segIndex, partIndex, duration);
      if panicked {
        return;
      }
      if deleted.None? {
        return;
      }
      mediaPayload := mediaPayload - {deleted.value.uri};
    }

    /** `getMediaM3U8LLHLS`: the bound, then a search of the window for the
        segment titled `sn`. */
    method GetMediaM3U8Llhls(sn: int) returns (r: Lookup)
      ensures r == LookupLlhls(llhlsMedia, sn)
    {
      if llhlsMedia.mediaSequence > sn {
        return NoSegmentsFound;
      }
      var title := Itoa(sn);
      var i := 0;
      while i < |llhlsMedia.segments|
        invariant 0 <= i <= |llhlsMedia.segments|
        invariant forall j :: 0 <= j < i ==> llhlsMedia.segments[j].title != title
      {
        if llhlsMedia.segments[i].title == title {
          return Marshalled(llhlsMedia);
        }
        i := i + 1;
      }
      return NotYet;
    }
  }
}
