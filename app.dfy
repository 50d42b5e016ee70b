/**
 * The reader application's state (src/App.tsx): the current panel index and
 * the playing flag driven by the navigation handlers, the autoplay tick and
 * the keyboard; the per-page detect, sequence and frame pipeline that fills
 * the list of framed panels; and the recompute of that list on resize.
 *
 * React state setters become field assignments; the timers that schedule the
 * tick and the switch to viewing become methods the environment calls.
 */
module MangaApp {
  import opened Types
  import PanelDetection
  import PanelSequencing
  import AutoFraming

  datatype AppState = Upload | Processing | Viewing

  // ------------------------------------------------------------ navigation

  /** handleNext: one panel on, unless already at the last one. */
  function NextIndex(i: int, n: int): int
  {
    if i < n - 1 then i + 1 else i
  }

  /** handlePrevious: one panel back, unless already at the first one. */
  function PreviousIndex(i: int): int
  {
    if i > 0 then i - 1 else i
  }

  /** An index into a list of n framed panels, or 0 when the list is empty. */
  predicate IndexInRange(i: int, n: int)
  {
    0 <= i && (i < n || i == 0)
  }

  /**
   * Next and previous keep the index in range; each moves by exactly one
   * where it moves at all; and going back undoes going forward and forward
   * undoes going back.
   */
  lemma NavigationBounds(i: int, n: int)
    requires IndexInRange(i, n)
    ensures IndexInRange(NextIndex(i, n), n) && IndexInRange(PreviousIndex(i), n)
    ensures NextIndex(i, n) == i + 1 <==> i < n - 1
    ensures PreviousIndex(i) == i - 1 <==> i > 0
    ensures i < n - 1 ==> PreviousIndex(NextIndex(i, n)) == i
    ensures i > 0 ==> NextIndex(PreviousIndex(i), n) == i
  {
  }

  // ------------------------------------------------------------- framing

  /** Each panel of a list framed against one page's size, in list order. */
  function Frames(ps: seq<Panel>, pageWidth: real, pageHeight: real, vw: real, vh: real): (fs: seq<FramedPanel>)
    ensures |fs| == |ps|
    ensures forall k :: 0 <= k < |fs| ==> fs[k].panel == ps[k]
  {
    if |ps| == 0 then []
    else
      var init := Frames(ps[..|ps| - 1], pageWidth, pageHeight, vw, vh);
      init + [AutoFraming.CreateFramedPanel(ps[|ps| - 1], pageWidth, pageHeight, vw, vh)]
  }

  /** The framed list of the pipeline: each page's sequenced panels framed against that page, in page order. */
  function FrameAll(pages: seq<PageData>, vw: real, vh: real): seq<FramedPanel>
  {
    if |pages| == 0 then []
    else
      var page := pages[|pages| - 1];
      FrameAll(pages[..|pages| - 1], vw, vh)
        + Frames(page.sequencedPanels, page.width as real, page.height as real, vw, vh)
  }

  /** Every framed panel names a page that exists. */
  predicate OnKnownPages(fps: seq<FramedPanel>, pages: seq<PageData>)
  {
    forall k :: 0 <= k < |fps| ==> fps[k].panel.pageIndex < |pages|
  }

  /** The resize recompute: each framed panel reframed against its own page for the new viewport. */
  function Reframe(fps: seq<FramedPanel>, pages: seq<PageData>, vw: real, vh: real): (r: seq<FramedPanel>)
    requires OnKnownPages(fps, pages)
    ensures |r| == |fps|
    ensures forall k :: 0 <= k < |r| ==> r[k].panel == fps[k].panel
  {
    if |fps| == 0 then []
    else
      var fp := fps[|fps| - 1];
      var page := pages[fp.panel.pageIndex];
      Reframe(fps[..|fps| - 1], pages, vw, vh)
        + [AutoFraming.CreateFramedPanel(fp.panel, page.width as real, page.height as real, vw, vh)]
  }

  /** Every sequenced panel of page i says it is on page i. */
  predicate Indexed(pages: seq<PageData>)
  {
    forall i, k :: 0 <= i < |pages| && 0 <= k < |pages[i].sequencedPanels| ==>
      pages[i].sequencedPanels[k].pageIndex == i
  }

  lemma {:induction false} ReframeAppend(a: seq<FramedPanel>, b: seq<FramedPanel>,
                                          pages: seq<PageData>, vw: real, vh: real)
    requires OnKnownPages(a, pages) && OnKnownPages(b, pages)
    ensures OnKnownPages(a + b, pages)
    ensures Reframe(a + b, pages, vw, vh) == Reframe(a, pages, vw, vh) + Reframe(b, pages, vw, vh)
  {
    if |b| > 0 {
      var init := b[..|b| - 1];
      assert (a + b)[..|a + b| - 1] == a + init;
      assert OnKnownPages(init, pages) by {
        forall k | 0 <= k < |init| ensures init[k].panel.pageIndex < |pages| {
          assert init[k] == b[k];
        }
      }
      ReframeAppend(a, init, pages, vw, vh);
    } else {
      assert a + b == a;
    }
  }

  /** Reframing the frames of page i's panels frames them against page i for the new viewport. */
  lemma {:induction false} ReframeFrames(ps: seq<Panel>, pages: seq<PageData>, i: nat, vw: real, vh: real, vw': real, vh': real)
    requires i < |pages| && forall k :: 0 <= k < |ps| ==> ps[k].pageIndex == i
    ensures var page := pages[i]; var fs := Frames(ps, page.width as real, page.height as real, vw, vh);
      OnKnownPages(fs, pages) && Reframe(fs, pages, vw', vh') == Frames(ps, page.width as real, page.height as real, vw', vh')
  {
    var page := pages[i];
    if |ps| > 0 {
      var init := ps[..|ps| - 1];
      ReframeFrames(init, pages, i, vw, vh, vw', vh');
      var fs := Frames(ps, page.width as real, page.height as real, vw, vh);
      assert fs[..|fs| - 1] == Frames(init, page.width as real, page.height as real, vw, vh);
    }
  }

  /**
   * The pipeline's framed list names only existing pages, and reframing it for
   * a new viewport gives exactly the list the pipeline would have built for
   * that viewport: the resize recompute agrees with framing from scratch.
   */
  lemma {:induction false} ResizeAgreesWithFraming(pages: seq<PageData>, vw: real, vh: real, vw': real, vh': real)
    requires Indexed(pages)
    ensures OnKnownPages(FrameAll(pages, vw, vh), pages)
    ensures Reframe(FrameAll(pages, vw, vh), pages, vw', vh') == FrameAll(pages, vw', vh')
  {
    if |pages| > 0 {
      var n := |pages| - 1;
      var init := pages[..n];
      assert Indexed(init);
      ResizeAgreesWithFraming(init, vw, vh, vw', vh');
      KnownPagesGrow(FrameAll(init, vw, vh), init, pages);
      KnownPagesGrowReframe(FrameAll(init, vw, vh), init, pages, vw', vh');
      ReframeFrames(pages[n].sequencedPanels, pages, n, vw, vh, vw', vh');
      ReframeAppend(FrameAll(init, vw, vh),
                    Frames(pages[n].sequencedPanels, pages[n].width as real, pages[n].height as real, vw, vh),
                    pages, vw', vh');
    }
  }

  lemma KnownPagesGrow(fps: seq<FramedPanel>, init: seq<PageData>, pages: seq<PageData>)
    requires OnKnownPages(fps, init) && |init| <= |pages|
    ensures OnKnownPages(fps, pages)
  {
  }

  /** Reframing against a prefix of the pages is reframing against all of them. */
  lemma {:induction false} KnownPagesGrowReframe(fps: seq<FramedPanel>, init: seq<PageData>,
                                                  pages: seq<PageData>, vw: real, vh: real)
    requires OnKnownPages(fps, init) && |init| <= |pages| && init == pages[..|init|]
    ensures OnKnownPages(fps, pages) && Reframe(fps, init, vw, vh) == Reframe(fps, pages, vw, vh)
  {
    if |fps| > 0 {
      KnownPagesGrowReframe(fps[..|fps| - 1], init, pages, vw, vh);
      assert init[fps[|fps| - 1].panel.pageIndex] == pages[fps[|fps| - 1].panel.pageIndex];
    }
  }

  /** A page after the pipeline: detected, sequenced right to left, all else as converted. */
  ghost predicate PageDone(converted: PageData, page: PageData)
  {
    && page == converted.(panels := page.panels, sequencedPanels := page.sequencedPanels)
    && PanelDetection.Detected(converted, page.panels)
    && page.sequencedPanels == PanelSequencing.Sequence(page.panels, Rtl)
  }

  /** PageDone, with the segmentation the panels came from. */
  ghost predicate PageDoneWith(converted: PageData, page: PageData, regions: seq<seq<int>>)
  {
    && page == converted.(panels := page.panels, sequencedPanels := page.sequencedPanels)
    && PanelDetection.RasterFits(converted)
    && PanelDetection.DetectedWith(converted, page.panels, regions)
    && page.sequencedPanels == PanelSequencing.Sequence(page.panels, Rtl)
  }

  /** The sequenced panels of a finished page carry that page's index. */
  lemma PageDoneIndexed(converted: PageData, page: PageData)
    requires PageDone(converted, page)
    ensures forall k :: 0 <= k < |page.sequencedPanels| ==> page.sequencedPanels[k].pageIndex == converted.pageIndex
  {
    PanelDetection.DetectedOnPage(converted, page.panels);
    PanelSequencing.SequencePermutes(page.panels, Rtl);
    forall k | 0 <= k < |page.sequencedPanels| ensures page.sequencedPanels[k].pageIndex == converted.pageIndex {
      var q := page.sequencedPanels[k];
      assert q in multiset(page.panels);
      var j :| 0 <= j < |page.panels| && page.panels[j] == q;
    }
  }

  /** A page whose panels are detected from its raster and then sequenced right to left is finished. */
  lemma PageFinished(converted: PageData, page: PageData, regions: seq<seq<int>>)
    requires PageDoneWith(converted, page, regions)
    ensures PageDone(converted, page)
  {
  }

  /** One more page adds its frames at the end of the framed list. */
  lemma FrameAllStep(pages: seq<PageData>, i: nat, vw: real, vh: real)
    requires i < |pages|
    ensures FrameAll(pages[..i + 1], vw, vh)
      == FrameAll(pages[..i], vw, vh) + Frames(pages[i].sequencedPanels, pages[i].width as real, pages[i].height as real, vw, vh)
  {
    assert pages[..i + 1][..i] == pages[..i];
  }

  /**
   * The inner loop of handleFileSelect: each sequenced panel of one page
   * framed against the page for the viewport, in order.
   */
  method FramePanels(sequenced: seq<Panel>, pageWidth: real, pageHeight: real, viewportWidth: real, viewportHeight: real)
    returns (framed: seq<FramedPanel>)
    ensures framed == Frames(sequenced, pageWidth, pageHeight, viewportWidth, viewportHeight)
  {
    framed := [];
    var k := 0;
    while k < |sequenced|
      invariant 0 <= k <= |sequenced|
      invariant framed == Frames(sequenced[..k], pageWidth, pageHeight, viewportWidth, viewportHeight)
    {
      var f := AutoFraming.CreateFramedPanel(sequenced[k], pageWidth, pageHeight, viewportWidth, viewportHeight);
      assert sequenced[..k + 1][..k] == sequenced[..k];
      framed := framed + [f];
      k := k + 1;
    }
    assert sequenced[..k] == sequenced;
  }

  /**
   * One iteration of handleFileSelect's outer loop: detect the page's panels,
   * sequence them right to left, and frame the sequenced panels for the viewport.
   */
  method ProcessPage(converted: PageData, viewportWidth: real, viewportHeight: real)
    returns (page: PageData, framed: seq<FramedPanel>)
    requires PanelDetection.RasterFits(converted)
    ensures PageDone(converted, page)
    ensures framed == Frames(page.sequencedPanels, page.width as real, page.height as real, viewportWidth, viewportHeight)
  {
    page := converted;
    var panels, regions := PanelDetection.DetectPanels(page);
    page := page.(panels := panels);
    var sequenced := PanelSequencing.SequencePanels(panels, Rtl);
    page := page.(sequencedPanels := sequenced);
    framed := FramePanels(sequenced, page.width as real, page.height as real, viewportWidth, viewportHeight);
    PageFinished(converted, page, regions);
  }

  /**
   * The outer loop of handleFileSelect over the converted pages: each page is
   * detected, its panels sequenced right to left, and its sequenced panels
   * framed against the page for the viewport and pushed, in page order.
   */
  method RunPipeline(converted: seq<PageData>, viewportWidth: real, viewportHeight: real)
    returns (pageData: seq<PageData>, allPanels: seq<FramedPanel>)
    requires forall i {:trigger PanelDetection.RasterFits(converted[i])} ::
      0 <= i < |converted| ==> PanelDetection.RasterFits(converted[i])
    ensures |pageData| == |converted|
    ensures forall i {:trigger PageDone(converted[i], pageData[i])} ::
      0 <= i < |pageData| ==> PageDone(converted[i], pageData[i])
    ensures allPanels == FrameAll(pageData, viewportWidth, viewportHeight)
  {
    pageData := converted;
    allPanels := [];
    var i := 0;
    while i < |pageData|
      invariant 0 <= i <= |pageData| == |converted|
      invariant forall j {:trigger PageDone(converted[j], pageData[j])} ::
        0 <= j < i ==> PageDone(converted[j], pageData[j])
      invariant forall j :: i <= j < |pageData| ==> pageData[j] == converted[j]
      invariant allPanels == FrameAll(pageData[..i], viewportWidth, viewportHeight)
    {
      var page, framed := ProcessPage(pageData[i], viewportWidth, viewportHeight);
      allPanels := allPanels + framed;
      assert pageData[i := page][..i] == pageData[..i];
      pageData := pageData[i := page];
      FrameAllStep(pageData, i, viewportWidth, viewportHeight);
      i := i + 1;
    }
    assert pageData[..i] == pageData;
  }

  // ----------------------------------------------------------- the state

  class App {
    var appState: AppState
    var pages: seq<PageData>
    var allFramedPanels: seq<FramedPanel>
    var currentPanelIndex: int
    var isPlaying: bool

    /** The index is in range for the framed list, and every framed panel names a loaded page. */
    ghost predicate Valid()
      reads this
    {
      IndexInRange(currentPanelIndex, |allFramedPanels|) && OnKnownPages(allFramedPanels, pages)
    }

    /** The initial state: upload screen, nothing loaded, first panel, not playing. */
    constructor()
      ensures Valid()
      ensures appState == Upload && pages == [] && allFramedPanels == []
      ensures currentPanelIndex == 0 && !isPlaying
    {
      appState := Upload;
      pages := [];
      allFramedPanels := [];
      currentPanelIndex := 0;
      isPlaying := false;
    }

    /** handleNext */
    method HandleNext()
      requires Valid()
      modifies this
      ensures Valid()
      ensures currentPanelIndex == NextIndex(old(currentPanelIndex), |allFramedPanels|)
      ensures appState == old(appState) && pages == old(pages) && allFramedPanels == old(allFramedPanels)
      ensures isPlaying == old(isPlaying)
    {
      NavigationBounds(currentPanelIndex, |allFramedPanels|);
      if currentPanelIndex < |allFramedPanels| - 1 {
        currentPanelIndex := currentPanelIndex + 1;
      }
    }

    /** handlePrevious */
    method HandlePrevious()
      requires Valid()
      modifies this
      ensures Valid()
      ensures currentPanelIndex == PreviousIndex(old(currentPanelIndex))
      ensures appState == old(appState) && pages == old(pages) && allFramedPanels == old(allFramedPanels)
      ensures isPlaying == old(isPlaying)
    {
      NavigationBounds(currentPanelIndex, |allFramedPanels|);
      if currentPanelIndex > 0 {
        currentPanelIndex := currentPanelIndex - 1;
      }
    }

    /**
     * One autoplay interval tick. The interval runs only while playing with a
     * non-empty list; a tick advances one panel, or at the last panel stops
     * playing and keeps the index.
     */
    method Tick()
      requires Valid()
      modifies this
      ensures Valid()
      ensures appState == old(appState) && pages == old(pages) && allFramedPanels == old(allFramedPanels)
      ensures var n := |allFramedPanels|;
        if old(isPlaying) && n > 0 then
          if old(currentPanelIndex) < n - 1 then currentPanelIndex == old(currentPanelIndex) + 1 && isPlaying
          else currentPanelIndex == old(currentPanelIndex) && !isPlaying
        else currentPanelIndex == old(currentPanelIndex) && isPlaying == old(isPlaying)
    {
      if isPlaying && |allFramedPanels| > 0 {
        var prev := currentPanelIndex;
        if prev < |allFramedPanels| - 1 {
          currentPanelIndex := prev + 1;
        } else {
          isPlaying := false;
          currentPanelIndex := prev;
        }
      }
    }

    /**
     * The keydown handler, installed only while viewing: ArrowRight and space
     * go to the next panel when there is one, ArrowLeft to the previous one when
     * there is one, Escape stops playback, and any other key does nothing.
     */
    method HandleKey(key: string)
      requires Valid()
      modifies this
      ensures Valid()
      ensures appState == old(appState) && pages == old(pages) && allFramedPanels == old(allFramedPanels)
      ensures var i, n := old(currentPanelIndex), |allFramedPanels|;
        if old(appState) != Viewing then currentPanelIndex == i && isPlaying == old(isPlaying)
        else if key == "ArrowRight" || key == " " then currentPanelIndex == NextIndex(i, n) && isPlaying == old(isPlaying)
        else if key == "ArrowLeft" then currentPanelIndex == PreviousIndex(i) && isPlaying == old(isPlaying)
        else if key == "Escape" then currentPanelIndex == i && !isPlaying
        else currentPanelIndex == i && isPlaying == old(isPlaying)
    {
      if appState != Viewing {
        return;
      }
      if key == "ArrowRight" || key == " " {
        if currentPanelIndex < |allFramedPanels| - 1 {
          HandleNext();
        }
      } else if key == "ArrowLeft" {
        if currentPanelIndex > 0 {
          HandlePrevious();
        }
      } else if key == "Escape" {
        isPlaying := false;
      }
    }

    /** The switch to viewing after processing; the effect on appState turns playback on. */
    method EnterViewing()
      requires Valid()
      modifies this
      ensures Valid()
      ensures appState == Viewing && isPlaying
      ensures pages == old(pages) && allFramedPanels == old(allFramedPanels) && currentPanelIndex == old(currentPanelIndex)
    {
      appState := Viewing;
      isPlaying := true;
    }

    /**
     * handleFileSelect. Without a file nothing changes. Otherwise playback
     * stops and processing starts; `converted` is what convertPDFToImages
     * resolved to (None when it failed, which returns to the upload screen).
     * Each page is detected, its panels sequenced right to left and framed
     * against the page for the viewport, in page order; the index goes back
     * to the first panel.
     */
    method HandleFileSelect(fileGiven: bool, converted: Option<seq<PageData>>, viewportWidth: real, viewportHeight: real)
      requires Valid()
      requires converted.Some? ==> forall i :: 0 <= i < |converted.value| ==>
        converted.value[i].pageIndex == i && PanelDetection.RasterFits(converted.value[i])
      modifies this
      ensures Valid()
      ensures !fileGiven ==>
        (appState == old(appState) && isPlaying == old(isPlaying)
         && pages == old(pages) && allFramedPanels == old(allFramedPanels) && currentPanelIndex == old(currentPanelIndex))
      ensures fileGiven && converted.None? ==>
        (appState == Upload && !isPlaying
         && pages == old(pages) && allFramedPanels == old(allFramedPanels) && currentPanelIndex == old(currentPanelIndex))
      ensures fileGiven && converted.Some? ==>
        && appState == Processing && !isPlaying && currentPanelIndex == 0
        && |pages| == |converted.value|
        && (forall i :: 0 <= i < |pages| ==> PageDone(converted.value[i], pages[i]))
        && allFramedPanels == FrameAll(pages, viewportWidth, viewportHeight)
    {
      if !fileGiven {
        return;
      }
      isPlaying := false;
      appState := Processing;
      if converted.None? {
        appState := Upload;
        return;
      }
      var pageData, allPanels := RunPipeline(converted.value, viewportWidth, viewportHeight);
      pages := pageData;
      IndexedAfterPipeline(converted.value, pages);
      ResizeAgreesWithFraming(pages, viewportWidth, viewportHeight, viewportWidth, viewportHeight);
      allFramedPanels := allPanels;
      currentPanelIndex := 0;
    }

    /**
     * The resize handler: with panels and pages loaded, every framed panel is
     * reframed against its own page for the new window size; the list keeps
     * its length, order and panels.
     */
    method HandleResize(innerWidth: real, innerHeight: real)
      requires Valid()
      modifies this
      ensures Valid()
      ensures appState == old(appState) && pages == old(pages) && currentPanelIndex == old(currentPanelIndex)
      ensures isPlaying == old(isPlaying)
      ensures if |old(allFramedPanels)| > 0 && |pages| > 0
        then allFramedPanels == Reframe(old(allFramedPanels), pages, innerWidth, innerHeight)
        else allFramedPanels == old(allFramedPanels)
    {
      if |allFramedPanels| > 0 && |pages| > 0 {
        allFramedPanels := Reframe(allFramedPanels, pages, innerWidth, innerHeight);
      }
    }
  }

  /** After the pipeline every page's sequenced panels carry that page's index. */
  lemma IndexedAfterPipeline(converted: seq<PageData>, pages: seq<PageData>)
    requires |pages| == |converted|
    requires forall i :: 0 <= i < |converted| ==> converted[i].pageIndex == i
    requires forall i :: 0 <= i < |pages| ==> PageDone(converted[i], pages[i])
    ensures Indexed(pages)
  {
    forall i | 0 <= i < |pages| ensures forall k :: 0 <= k < |pages[i].sequencedPanels| ==> pages[i].sequencedPanels[k].pageIndex == i {
      PageDoneIndexed(converted[i], pages[i]);
    }
  }
}
