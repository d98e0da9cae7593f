/**
  The export side of `FrameCapture` (src/utils/frameCapture.ts):
  `downloadFrame`'s choice of file name and `downloadFramesAsZip`'s plan of
  staggered single-file downloads.  Creating and clicking the anchor element
  and the timers themselves are left to the browser; what is modelled is the
  name each download gets and the delay it is scheduled with.
*/
module Export {
  import opened Wrappers
  import opened JsString
  import opened Sampler

  /** The extension `downloadFrame` infers: `png` when the data URL mentions
      "png" anywhere, `jpg` in every other case (webp included). */
  function DefaultExtension(dataUrl: string): (e: string)
    ensures e == "png" <==> Includes(dataUrl, "png")
    ensures e == "png" || e == "jpg"
  {
    if Includes(dataUrl, "png") then "png" else "jpg"
  }

  /** The name `downloadFrame` makes up, `frame_<timestamp>.<ext>`: the
      timestamp is written in its canonical decimal form (no leading zero)
      and reads back from it, and the extension is the inferred one. */
  function DefaultName(frame: Frame): (r: string)
    ensures |r| == 10 + |NatToString(frame.timestamp)| && r[..6] == "frame_"
    ensures r[|r| - 4..] == ".png" <==> Includes(frame.dataUrl, "png")
    ensures r[|r| - 4..] == ".jpg" <==> !Includes(frame.dataUrl, "png")
    ensures AllDigits(r[6..|r| - 4]) && ParseDecimal(r[6..|r| - 4]) == frame.timestamp
  {
    var digits := NatToString(frame.timestamp);
    var ext := DefaultExtension(frame.dataUrl);
    NameParts(digits, ext);
    assert ".jpg"[1] != ".png"[1];
    ParseNatToString(frame.timestamp);
    "frame_" + digits + "." + ext
  }

  /** Where the pieces of `frame_<digits>.<ext>` sit, for a three-letter
      extension. */
  lemma NameParts(digits: string, ext: string)
    requires |ext| == 3
    ensures var r := "frame_" + digits + "." + ext;
            && |r| == 10 + |digits| && r[..6] == "frame_"
            && r[6..|r| - 4] == digits && r[|r| - 4..] == "." + ext
  {
    var r := "frame_" + digits + "." + ext;
    assert r == "frame_" + (digits + ("." + ext));
  }

  /** `link.download` in `downloadFrame(frame, filename)`: a non-empty
      caller-supplied name is used verbatim, otherwise the made-up name. */
  function DownloadName(frame: Frame, filename: Option<string>): (r: string)
    ensures filename.Some? && filename.value != [] ==> r == filename.value
    ensures filename.None? || filename.value == [] ==> r == DefaultName(frame)
  {
    if filename.Some? && filename.value != [] then filename.value else DefaultName(frame)
  }

  /** The extension test reads the whole data URL, payload included: a JPEG
      whose base64 text happens to contain "png" is saved as `.png`. */
  lemma PngTestReadsPayload(frame: Frame)
    requires frame.dataUrl == "data:image/jpeg;base64,/9j/png"
    ensures DownloadName(frame, None)[|DownloadName(frame, None)| - 4..] == ".png"
  {
    assert MatchAt(frame.dataUrl, "png", |frame.dataUrl| - 3);
  }

  /** A WebP data URL without "png" in it is saved as `.jpg`. */
  lemma WebpSavedAsJpg(frame: Frame)
    requires frame.dataUrl == "data:image/webp;base64,UklGR"
    ensures DownloadName(frame, None)[|DownloadName(frame, None)| - 4..] == ".jpg"
  {
    // the URL has a 'p' (in "webp") but no 'n'
    MissingCharNoMatch(frame.dataUrl, "png", 1);
  }

  /** The default `zipName` of `downloadFramesAsZip`. */
  const DefaultZipName := "frames.zip"

  /** `zipName.replace('.zip', '')`: the first ".zip" is removed. */
  function ZipBase(zipName: Option<string>): string {
    ReplaceFirst(if zipName.Some? then zipName.value else DefaultZipName, ".zip", "")
  }

  /** Without a `zipName` the files are called `frames_<n>.jpg`. */
  lemma DefaultZipBase()
    ensures ZipBase(None) == "frames"
  {
    ZipExtensionBorderFree();
    MissingCharNoMatch("frames", ".zip", 0);
    RemoveSuffixOccurrence("frames", ".zip");
    assert "frames" + ".zip" == DefaultZipName;
  }

  /** A name `b.zip` whose stem holds no ".zip" yields the stem. */
  lemma ZipBaseStripsExtension(b: string)
    requires !Includes(b, ".zip")
    ensures ZipBase(Some(b + ".zip")) == b
  {
    ZipExtensionBorderFree();
    RemoveSuffixOccurrence(b, ".zip");
  }

  /** A name without ".zip" is used as it is. */
  lemma ZipBaseKeepsOtherNames(name: string)
    requires !Includes(name, ".zip")
    ensures ZipBase(Some(name)) == name
  {
  }

  /** One download `downloadFramesAsZip` schedules. */
  datatype ScheduledDownload = ScheduledDownload(delayMs: nat, frame: Frame, filename: string)

  /** The file name of the frame at 0-based position `index`. */
  function ZipEntryName(base: string, index: nat): string {
    base + "_" + NatToString(index + 1) + ".jpg"
  }

  /** A zip plan for `frames`: the frame at position i is downloaded after
      i * 100 ms under its 1-based entry name. */
  predicate IsZipPlan(frames: seq<Frame>, base: string, plan: seq<ScheduledDownload>) {
    && |plan| == |frames|
    && forall i :: 0 <= i < |plan| ==>
         plan[i] == ScheduledDownload(i * 100, frames[i], ZipEntryName(base, i))
  }

  /** The `frames.forEach` of `downloadFramesAsZip`. */
  method ScheduleZipDownloads(frames: seq<Frame>, zipName: Option<string>) returns (plan: seq<ScheduledDownload>)
    ensures IsZipPlan(frames, ZipBase(zipName), plan)
  {
    var base := ZipBase(zipName);
    plan := [];
    var index := 0;
    while index < |frames|
      invariant index <= |frames| && |plan| == index
      invariant forall i :: 0 <= i < index ==>
                  plan[i] == ScheduledDownload(i * 100, frames[i], ZipEntryName(base, i))
    {
      plan := plan + [ScheduledDownload(index * 100, frames[index], ZipEntryName(base, index))];
      index := index + 1;
    }
  }

  /** Downloads are staggered in input order: a later frame always fires
      strictly later, 100 ms per position. */
  lemma ZipDelaysIncrease(frames: seq<Frame>, base: string, plan: seq<ScheduledDownload>, i: nat, j: nat)
    requires IsZipPlan(frames, base, plan) && i < j < |plan|
    ensures plan[i].delayMs + 100 * (j - i) == plan[j].delayMs
    ensures plan[i].delayMs < plan[j].delayMs
  {
  }

  /** Different positions get different file names. */
  lemma ZipEntryNamesDistinct(base: string, i: nat, j: nat)
    requires i != j
    ensures ZipEntryName(base, i) != ZipEntryName(base, j)
  {
    var di, dj := NatToString(i + 1), NatToString(j + 1);
    if ZipEntryName(base, i) == ZipEntryName(base, j) {
      var n := ZipEntryName(base, i);
      assert |di| == |dj|;
      assert di == n[|base| + 1..|base| + 1 + |di|] == dj;
      NatToStringInjective(i + 1, j + 1);
      assert false;
    }
  }

  /** Each entry name is non-empty, so `downloadFrame` uses it verbatim; every
      entry ends in `.jpg`, whatever the frame's format. */
  lemma ZipEntryUsedVerbatim(frame: Frame, base: string, i: nat)
    ensures DownloadName(frame, Some(ZipEntryName(base, i))) == ZipEntryName(base, i)
    ensures var n := ZipEntryName(base, i); n[|n| - 4..] == ".jpg"
  {
  }
}
