/**
  The sampler of `FrameCapture` (src/utils/frameCapture.ts): `captureFrame`,
  which resizes the instance's one canvas, draws the current video frame on it
  and encodes it, and `getFrameMetadata`, a read-only projection of a frame.

  The browser calls are parameters: the encoder (`canvas.toBlob`,
  `canvas.toDataURL`), the two `Date.now()` readings and the base-36 text of
  `Math.random()` come in a `Host` value.  Pixels are not modelled: a canvas
  is its size.
*/
module Sampler {
  import opened Wrappers
  import opened JsString

  datatype Format = Jpeg | Png | Webp

  function FormatName(f: Format): string {
    match f
    case Jpeg => "jpeg"
    case Png => "png"
    case Webp => "webp"
  }

  /** The MIME type handed to the encoder: `image/${settings.format}`. */
  function MimeType(f: Format): (m: string)
    ensures |m| >= 6 && m[..6] == "image/" && m[6..] == FormatName(f)
  {
    "image/" + FormatName(f)
  }

  /** `FrameCaptureSettings`.  `quality` is an opaque encoder parameter; an
      absent or zero `width`/`height` means "use the video's own size". */
  datatype Settings = Settings(
    quality: real,
    format: Format,
    width: Option<nat>,
    height: Option<nat>,
    intervalMs: Option<nat>)

  /** The default argument of `captureFrame`. */
  const DefaultSettings := Settings(0.8, Jpeg, None, None, None)

  /** The part of an `HTMLVideoElement` the sampler reads: its native size now. */
  datatype Video = Video(videoWidth: nat, videoHeight: nat)

  /** A `Blob`: its byte size and its `type`. */
  datatype Blob = Blob(size: nat, mimeType: string)

  /** The instance's offscreen canvas; a new canvas element is 300 by 150. */
  datatype Canvas = Canvas(width: nat, height: nat)

  const InitialCanvas := Canvas(300, 150)

  /** `CapturedFrame`.  The optional `processed` field is never filled in by
      the capture engine and is not modelled. */
  datatype Frame = Frame(
    id: string,
    timestamp: nat,
    blob: Blob,
    dataUrl: string,
    width: nat,
    height: nat)

  /** What `canvas.toBlob` does: call back with a blob, call back with `null`,
      or throw synchronously (inside the `try`). */
  datatype Encoding = Encoded(blob: Blob) | NoBlob | Threw

  datatype CaptureError =
    | BlobFailed   // "Failed to create blob from canvas"
    | HostThrew    // an exception caught by the `try` and passed to `reject`

  /** Everything `captureFrame` asks the browser for. */
  datatype Host = Host(
    toBlob: (Canvas, string, real) -> Encoding,
    toDataUrl: (Canvas, string, real) -> string,
    idClock: nat,      // the `Date.now()` read for the id
    clock: nat,        // the `Date.now()` read for `timestamp`
    random: string)    // `Math.random().toString(36)`

  /** One call's effect: the canvas it leaves behind and how the promise settles. */
  datatype Capture = Capture(canvas: Canvas, result: Result<Frame, CaptureError>)

  /** `settings.width || video.videoWidth`: a present, non-zero setting wins. */
  function ResolveDimension(setting: Option<nat>, native: nat): (r: nat)
    ensures setting.Some? && setting.value != 0 ==> r == setting.value
    ensures setting.None? || setting.value == 0 ==> r == native
  {
    match setting
    case Some(v) => if v != 0 then v else native
    case None => native
  }

  /** The frame id `frame_<ms>_<up to 9 random base-36 characters>`: the
      clock reading reads back from the digits after the prefix, and the
      random suffix follows the second underscore. */
  function FrameId(ms: nat, random: string): (id: string)
    ensures var n := |NatToString(ms)|;
            && |id| >= 7 + n && id[..6] == "frame_"
            && AllDigits(id[6..6 + n]) && ParseDecimal(id[6..6 + n]) == ms
            && id[6 + n] == '_'
            && id[7 + n..] == Substr(random, 2, 9)
  {
    var digits := NatToString(ms);
    var id := "frame_" + digits + "_" + Substr(random, 2, 9);
    assert id[6..6 + |digits|] == digits;
    assert id[7 + |digits|..] == Substr(random, 2, 9);
    ParseNatToString(ms);
    id
  }

  /** Ids built from different clock readings or different random suffixes
      differ: an id collision needs both to coincide. */
  lemma FrameIdInjective(m1: nat, r1: string, m2: nat, r2: string)
    requires FrameId(m1, r1) == FrameId(m2, r2)
    ensures m1 == m2 && Substr(r1, 2, 9) == Substr(r2, 2, 9)
  {
    var d1, d2 := NatToString(m1), NatToString(m2);
    var id := FrameId(m1, r1);
    assert id == "frame_" + d1 + "_" + Substr(r1, 2, 9);
    assert id == "frame_" + d2 + "_" + Substr(r2, 2, 9);
    // the first '_' after the prefix ends the number, so both numbers have
    // the same length
    assert id[6 + |d1|] == '_' && id[6 + |d2|] == '_';
    assert forall k :: 0 <= k < |d1| ==> id[6 + k] == d1[k];
    assert forall k :: 0 <= k < |d2| ==> id[6 + k] == d2[k];
    assert |d1| == |d2|;
    assert d1 == id[6..6 + |d1|] == d2;
    NatToStringInjective(m1, m2);
    assert Substr(r1, 2, 9) == id[7 + |d1|..] == Substr(r2, 2, 9);
  }

  /** `captureFrame(video, settings)` run against `canvas`.  The canvas is
      resized to the resolved size before anything can fail; the frame, when
      there is one, has exactly that size and carries the blob the encoder gave. */
  function CaptureFrame(canvas: Canvas, video: Video, settings: Option<Settings>, host: Host): (r: Capture)
    ensures var s := if settings.Some? then settings.value else DefaultSettings;
            r.canvas == Canvas(ResolveDimension(s.width, video.videoWidth),
                               ResolveDimension(s.height, video.videoHeight))
    ensures var s := if settings.Some? then settings.value else DefaultSettings;
            var enc := host.toBlob(r.canvas, MimeType(s.format), s.quality);
            && (r.result.Ok? <==> enc.Encoded?)
            && (enc.NoBlob? ==> r.result == Err(BlobFailed))
            && (enc.Threw? ==> r.result == Err(HostThrew))
            && (r.result.Ok? ==>
                  && r.result.value.blob == enc.blob
                  && r.result.value.dataUrl == host.toDataUrl(r.canvas, MimeType(s.format), s.quality)
                  && r.result.value.id == FrameId(host.idClock, host.random)
                  && r.result.value.timestamp == host.clock)
    ensures r.result.Ok? ==> r.result.value.width == r.canvas.width
                             && r.result.value.height == r.canvas.height
  {
    var s := if settings.Some? then settings.value else DefaultSettings;
    var width := ResolveDimension(s.width, video.videoWidth);
    var height := ResolveDimension(s.height, video.videoHeight);
    var surface := Canvas(width, height);
    var mime := MimeType(s.format);
    match host.toBlob(surface, mime, s.quality)
    case Threw => Capture(surface, Err(HostThrew))
    case NoBlob => Capture(surface, Err(BlobFailed))
    case Encoded(blob) =>
      var frame := Frame(FrameId(host.idClock, host.random), host.clock, blob,
                         host.toDataUrl(surface, mime, s.quality), width, height);
      Capture(surface, Ok(frame))
  }

  /** The canvas is reused but fully overwritten: what a capture produces does
      not depend on what earlier captures left on it. */
  lemma CaptureIgnoresPreviousCanvas(c1: Canvas, c2: Canvas, video: Video, settings: Option<Settings>, host: Host)
    ensures CaptureFrame(c1, video, settings, host) == CaptureFrame(c2, video, settings, host)
  {
  }

  /** A frame captured with explicit non-zero dimensions has exactly those
      dimensions, whatever the video's own size. */
  lemma ExplicitSizeIsFrameSize(canvas: Canvas, video: Video, s: Settings, host: Host, w: nat, h: nat)
    requires s.width == Some(w) && s.height == Some(h) && w > 0 && h > 0
    requires CaptureFrame(canvas, video, Some(s), host).result.Ok?
    ensures var f := CaptureFrame(canvas, video, Some(s), host).result.value;
            f.width == w && f.height == h
  {
  }

  /** `getFrameMetadata`'s result. */
  datatype Metadata = Metadata(
    id: string,
    timestamp: nat,
    date: string,
    width: nat,
    height: nat,
    size: nat,
    mimeType: string)

  /** `getFrameMetadata(frame)`; `new Date(t).toISOString()` is the opaque
      `toIso`.  The frame is a value, so it cannot be changed. */
  function FrameMetadata(frame: Frame, toIso: nat -> string): (m: Metadata)
    ensures m.id == frame.id && m.timestamp == frame.timestamp
    ensures m.width == frame.width && m.height == frame.height
    ensures m.size == frame.blob.size && m.mimeType == frame.blob.mimeType
    ensures m.date == toIso(frame.timestamp)
  {
    Metadata(frame.id, frame.timestamp, toIso(frame.timestamp), frame.width, frame.height,
             frame.blob.size, frame.blob.mimeType)
  }

  /** The metadata of a captured frame reports the resolved capture size and
      the encoder's blob, and its id comes from the capture-time clock. */
  lemma CapturedFrameMetadata(canvas: Canvas, video: Video, s: Settings, host: Host, toIso: nat -> string)
    requires CaptureFrame(canvas, video, Some(s), host).result.Ok?
    ensures var c := CaptureFrame(canvas, video, Some(s), host);
            var m := FrameMetadata(c.result.value, toIso);
            && m.width == ResolveDimension(s.width, video.videoWidth)
            && m.height == ResolveDimension(s.height, video.videoHeight)
            && Encoded(Blob(m.size, m.mimeType)) == host.toBlob(c.canvas, MimeType(s.format), s.quality)
            && m.id == FrameId(host.idClock, host.random)
  {
  }
}
