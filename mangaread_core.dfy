/**
 * The pure pieces of the chapter scraper (scripts/mangaread-core.js): which
 * attribute of an <img> names the image, how a protocol-relative source is
 * made absolute, how a downloaded image is classified as JPEG or PNG and
 * embedded page by page, and the file name derived from the chapter URL.
 *
 * URL parsing (`new URL`) is not modelled: the result of resolving or parsing
 * is an input, None when the constructor throws.
 */
module MangareadCore {
  import opened Types
  import opened Strings

  /**
   * resolveImageUrl. A missing or empty source resolves to nothing; a source
   * starting with `//` gets the `https:` scheme without URL parsing; any other
   * source is what resolving it against the page URL gives (`resolved`).
   */
  function ResolveImageUrl(src: Option<string>, resolved: Option<string>): (r: Option<string>)
    ensures (src.None? || src == Some("")) ==> r.None?
    ensures src.Some? && StartsWith(src.value, "//") ==> r == Some("https:" + src.value)
    ensures src.Some? && src.value != "" && !StartsWith(src.value, "//") ==> r == resolved
  {
    if src.None? || src.value == "" then None
    else if StartsWith(src.value, "//") then Some("https:" + src.value)
    else resolved
  }

  /** A resolved protocol-relative source keeps its host and path and is an https URL. */
  lemma ProtocolRelativeIsHttps(src: string, resolved: Option<string>)
    requires StartsWith(src, "//")
    ensures var r := ResolveImageUrl(Some(src), resolved);
      r.Some? && StartsWith(r.value, "https://") && r.value[6..] == src
  {
  }

  /** The attributes pickImageSource consults, in order. */
  const ImageAttributes: seq<string> := ["data-src", "data-lazy-src", "data-original", "src"]

  /**
   * An attribute value that may name the image: not inline image data, and
   * non-blank, that is, not emptied by `trim` (TrimEmptyIffBlank).
   */
  predicate Usable(value: string)
  {
    !Blank(value) && !StartsWith(value, "data:image")
  }

  /** attributes[k] is set on the element to a usable value. */
  predicate UsableAt(element: map<string, string>, names: seq<string>, k: int)
  {
    0 <= k < |names| && names[k] in element && Usable(element[names[k]])
  }

  /** attributes[k] is the first usable one from position `from` on. */
  predicate FirstUsable(element: map<string, string>, names: seq<string>, from: int, k: int)
  {
    from <= k && UsableAt(element, names, k) && forall j :: from <= j < k ==> !UsableAt(element, names, j)
  }

  /** The first position from `from` on where `flags` holds; None when there is none. */
  function FirstSet(flags: seq<bool>, from: nat): (r: Option<nat>)
    requires from <= |flags|
    ensures r.None? <==> forall k :: from <= k < |flags| ==> !flags[k]
    ensures r.Some? ==> from <= r.value < |flags| && flags[r.value]
    ensures r.Some? ==> forall j :: from <= j < r.value ==> !flags[j]
    decreases |flags| - from
  {
    if from == |flags| then None
    else if flags[from] then Some(from)
    else FirstSet(flags, from + 1)
  }

  /** For each attribute name, whether the element holds a usable value for it. */
  function UsableFlags(element: map<string, string>, names: seq<string>): (flags: seq<bool>)
    ensures |flags| == |names|
    ensures forall k :: 0 <= k < |names| ==> flags[k] == UsableAt(element, names, k)
  {
    if |names| == 0 then []
    else [UsableAt(element, names, 0)] + UsableFlags(element, names[1..])
  }

  /**
   * pickImageSource, for an element given as its attribute map. The loop over
   * data-src, data-lazy-src, data-original and src stops at the first usable
   * value and returns it trimmed, so the result is never blank; none is usable
   * gives None.
   */
  function PickImageSource(element: map<string, string>): (r: Option<string>)
    ensures r.None? <==> forall k :: 0 <= k < |ImageAttributes| ==> !UsableAt(element, ImageAttributes, k)
    ensures r.Some? ==> exists k :: FirstUsable(element, ImageAttributes, 0, k) && r.value == Trim(element[ImageAttributes[k]])
    ensures r.Some? ==> r.value != "" && Trim(r.value) == r.value
  {
    match FirstSet(UsableFlags(element, ImageAttributes), 0)
    case None => None
    case Some(k) =>
      assert FirstUsable(element, ImageAttributes, 0, k);
      TrimEmptyIffBlank(element[ImageAttributes[k]]);
      TrimIdempotent(element[ImageAttributes[k]]);
      Some(Trim(element[ImageAttributes[k]]))
  }

  /** A lazy-loading source wins over the plain `src`. */
  lemma LazySourceFirst(element: map<string, string>)
    requires "data-src" in element && Usable(element["data-src"])
    ensures PickImageSource(element) == Some(Trim(element["data-src"]))
  {
    assert UsableAt(element, ImageAttributes, 0);
  }

  /** Inline image data is never picked, however many attributes hold it. */
  lemma InlineDataSkipped(element: map<string, string>)
    requires forall k :: (0 <= k < |ImageAttributes| && ImageAttributes[k] in element
                          ==> StartsWith(element[ImageAttributes[k]], "data:image"))
    ensures PickImageSource(element).None?
  {
  }

  /**
   * The URL, compared without regard to ASCII case, has `ext` at position i,
   * followed by `?` or by the end of the URL.
   */
  predicate ExtensionAt(url: string, ext: string, i: int)
  {
    var u := Lower(url);
    OccursAt(u, ext, i) && (i + |ext| == |u| || u[i + |ext|] == '?')
  }

  /** `/\.ext(\?|$)/i` finds a match. */
  predicate HasExtension(url: string, ext: string)
  {
    exists i :: 0 <= i <= |url| && ExtensionAt(url, ext, i)
  }

  /** isJpeg */
  predicate IsJpeg(contentType: string, url: string)
  {
    Contains(contentType, "jpeg") || Contains(contentType, "jpg")
    || HasExtension(url, ".jpg") || HasExtension(url, ".jpeg")
  }

  /** isPng */
  predicate IsPng(contentType: string, url: string)
  {
    Contains(contentType, "png") || HasExtension(url, ".png")
  }

  datatype ImageKind = Jpeg | Png

  /** A downloaded image: its URL and its Content-Type header (empty when absent). */
  datatype Download = Download(url: string, contentType: string)

  /** The embedding buildPdfBuffer chooses for an image: the JPEG test first, then PNG, else none. */
  function EmbedKind(image: Download): (r: Option<ImageKind>)
    ensures r == Some(Jpeg) <==> IsJpeg(image.contentType, image.url)
    ensures r == Some(Png) <==> !IsJpeg(image.contentType, image.url) && IsPng(image.contentType, image.url)
    ensures r.None? <==> !IsJpeg(image.contentType, image.url) && !IsPng(image.contentType, image.url)
  {
    if IsJpeg(image.contentType, image.url) then Some(Jpeg)
    else if IsPng(image.contentType, image.url) then Some(Png)
    else None
  }

  /** A JPEG URL query string does not hide the extension, whatever the case. */
  lemma JpegWithQuery(stem: string, query: string)
    ensures EmbedKind(Download(stem + ".JPG?" + query, "")) == Some(Jpeg)
  {
    var url := stem + ".JPG?" + query;
    var u := Lower(url);
    var i := |stem|;
    assert u[i..i + 4] == ".jpg" && u[i + 4] == '?';
    assert ExtensionAt(url, ".jpg", i);
  }

  /** The unsupported-image error: which image, and its type or `unknown`. */
  datatype Unsupported = Unsupported(index: nat, contentType: string)

  /**
   * The embedding loop of buildPdfBuffer over already downloaded images: one
   * page per image, in order, embedded as its EmbedKind says. The first image
   * that is neither JPEG nor PNG stops the loop with an error naming it, after
   * the pages of the images before it and before any page for it.
   */
  method BuildPages(images: seq<Download>) returns (pages: seq<ImageKind>, failure: Option<Unsupported>)
    ensures failure.None? ==> |pages| == |images|
    ensures failure.Some? ==> (failure.value.index < |images| && |pages| == failure.value.index
                               && EmbedKind(images[failure.value.index]).None?
                               && failure.value.contentType == OrUnknown(images[failure.value.index].contentType))
    ensures forall k :: 0 <= k < |pages| ==> EmbedKind(images[k]) == Some(pages[k])
  {
    pages := [];
    var index := 0;
    while index < |images|
      invariant 0 <= index <= |images| && |pages| == index
      invariant forall k :: 0 <= k < index ==> EmbedKind(images[k]) == Some(pages[k])
    {
      var image := images[index];
      var embedded: ImageKind;
      if IsJpeg(image.contentType, image.url) {
        embedded := Jpeg;
      } else if IsPng(image.contentType, image.url) {
        embedded := Png;
      } else {
        return pages, Some(Unsupported(index, OrUnknown(image.contentType)));
      }
      pages := pages + [embedded];
      index := index + 1;
    }
    return pages, None;
  }

  /** The non-empty segments of a path, as `split('/').filter(Boolean)` gives them. */
  function Segments(path: string): (r: seq<string>)
    ensures forall k :: 0 <= k < |r| ==> r[k] != "" && '/' !in r[k]
  {
    NonEmpty(Split(path, '/'))
  }

  function NonEmpty(pieces: seq<string>): (r: seq<string>)
    ensures forall k :: 0 <= k < |r| ==> r[k] != "" && r[k] in pieces
    ensures forall p :: p in pieces && p != "" ==> p in r
  {
    if |pieces| == 0 then []
    else if pieces[0] == "" then NonEmpty(pieces[1..])
    else [pieces[0]] + NonEmpty(pieces[1..])
  }

  /**
   * deriveOutputName, for the pathname the URL parses to (None when it does not
   * parse): the last non-empty path segment with `.pdf` appended, or
   * `chapter.pdf` when there is no such segment or no URL.
   */
  function DeriveOutputName(pathname: Option<string>): (r: string)
    ensures EndsWith(r, ".pdf")
    ensures pathname.None? ==> r == "chapter.pdf"
    ensures pathname.Some? && Segments(pathname.value) == [] ==> r == "chapter.pdf"
    ensures pathname.Some? && Segments(pathname.value) != [] ==>
      var segs := Segments(pathname.value); r == segs[|segs| - 1] + ".pdf"
  {
    if pathname.None? then "chapter.pdf"
    else
      var segs := Segments(pathname.value);
      var last := if segs == [] then "chapter" else segs[|segs| - 1];
      last + ".pdf"
  }

  /**
   * The derived name is a single path segment: it holds no `/` and its stem is
   * a non-empty piece of the path between two slashes, or `chapter`.
   */
  lemma {:induction false} DerivedNameIsOneSegment(pathname: Option<string>)
    ensures var r := DeriveOutputName(pathname);
      '/' !in r && |r| > 4
      && (r[..|r| - 4] == "chapter" || (pathname.Some? && r[..|r| - 4] in Split(pathname.value, '/')))
  {
    var r := DeriveOutputName(pathname);
    if pathname.Some? && Segments(pathname.value) != [] {
      var segs := Segments(pathname.value);
      var last := segs[|segs| - 1];
      assert r == last + ".pdf" && r[..|r| - 4] == last;
      assert forall i :: 0 <= i < |r| ==> r[i] != '/' by {
        forall i | 0 <= i < |r| ensures r[i] != '/' {
          if i < |last| { assert r[i] == last[i]; }
        }
      }
    } else {
      assert r == "chapter.pdf";
      assert r[..|r| - 4] == "chapter";
    }
  }
}
