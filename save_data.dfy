/**
 * The data-saving mode of the newer front-end script
 * (`App.enableSaveDataMode`, run once on load when the browser asks to save
 * data): videos lose their `autoplay` attribute, and every lazily loaded
 * image whose `data-src` mentions `webp` is pointed at a `.jpeg` file.
 */
module SaveData {
  import opened Text
  import opened Flags

  const WebpExtension: string := ".webp"
  const JpegExtension: string := ".jpeg"

  /**
   * The new `data-src`: a value containing `webp` has its first `.webp`
   * replaced by `.jpeg` (JavaScript's `replace` with a string pattern);
   * any other value is kept.
   */
  function SaveDataSrc(src: string): (r: string)
    ensures |r| == |src|
  {
    ReplaceFirstLength(src, WebpExtension, JpegExtension);
    if Contains(src, "webp") then ReplaceFirst(src, WebpExtension, JpegExtension) else src
  }

  /** A value without `.webp` is kept, even when it mentions `webp` elsewhere. */
  lemma NoWebpExtensionKept(src: string)
    requires !Contains(src, WebpExtension)
    ensures SaveDataSrc(src) == src
  {
    if Contains(src, "webp") {
      ReplaceFirstAbsent(src, WebpExtension, JpegExtension);
    }
  }

  /**
   * Exactly the first `.webp` becomes `.jpeg`: when `x` is the text before
   * the first occurrence, whatever follows it, later `.webp`s included, is
   * kept.
   */
  lemma FirstWebpBecomesJpeg(x: string, y: string)
    requires forall j :: 0 <= j < |x| ==> !OccursAt(x + WebpExtension + y, WebpExtension, j)
    ensures SaveDataSrc(x + WebpExtension + y) == x + JpegExtension + y
  {
    var s := x + WebpExtension + y;
    var k := |x|;
    assert s[k..k + 5] == WebpExtension;
    assert s[k + 1..k + 5] == "webp";
    assert OccursAt(s, "webp", k + 1);
    ReplaceFirstAt(s, WebpExtension, JpegExtension, k);
    assert s[..k] == x && s[k + 5..] == y;
  }

  /**
   * `enableSaveDataMode` over the page: `autoplay[i]` is whether video `i`
   * has the attribute, `dataSrc[i]` the `data-src` of image `i`.
   */
  method EnableSaveDataMode(autoplay: array<bool>, dataSrc: array<string>)
    modifies autoplay, dataSrc
    ensures autoplay[..] == Cleared(autoplay.Length)
    ensures forall i :: 0 <= i < dataSrc.Length ==> dataSrc[i] == SaveDataSrc(old(dataSrc[i]))
  {
    ClearAll(autoplay);
    for i := 0 to dataSrc.Length
      modifies dataSrc
      invariant forall j :: 0 <= j < i ==> dataSrc[j] == SaveDataSrc(old(dataSrc[j]))
      invariant forall j :: i <= j < dataSrc.Length ==> dataSrc[j] == old(dataSrc[j])
    {
      if Contains(dataSrc[i], "webp") {
        dataSrc[i] := ReplaceFirst(dataSrc[i], WebpExtension, JpegExtension);
      }
    }
  }
}
