# Manga panel reader — a Dafny model of its core

The application reads a manga chapter one panel at a time. Its pipeline works page by page:

- **Segmentation.** Each PDF page is rasterised and a Sobel edge map is taken. The non-edge pixels are split into 4-connected regions by a stack-based flood fill. Every region larger than 2% of the page becomes a panel: its tight bounding box, widened by a gutter and clamped to the page. When no region survives, the whole page is one splash panel. Pages larger than 1200 px are segmented downscaled and their boxes scaled back up.
- **Sequencing.** The panels are put in reading order. They are banded into rows against each row's founding panel, with a 5 px tolerance. The rows are sorted top to bottom, and each row is sorted right to left (or left to right).
- **Framing.** Each panel is framed for the viewport: cropped to the page, fitted to the viewport width, centred vertically, with a decision on background suppression. The viewer sizes and centres the focused canvas over a contain-fitted background.
- **Navigation.** The app keeps a bounded panel index, driven by next, previous, autoplay ticks and the keyboard. It re-frames every panel when the window is resized.

Around this pipeline sit smaller pieces:

- upload validation of the PDF;
- keyword classification of dialogue mood and scene ambience;
- the chapter scraper's image-source choice, image-type test and output-file name;
- its command line;
- the server's `.env.local` parser, its `/api/mangaread` input checks, and the text-to-speech voice selection and settings clamp.

Modules, one per source file plus shared ones:

| module | file | models |
|---|---|---|
| Types | types.dfy | the records of src/types.ts, JavaScript numbers (NaN, ±Infinity) where a division can produce them, `Math.round`, panel ids |
| Strings | strings.dfy | `trim`, ASCII `toLowerCase`, `startsWith`/`endsWith`/`includes`, `indexOf`, `split`, whole-word regular expressions |
| Grid | grid.dfy | row-major pixel indexing, 4-neighbourhoods, connected components |
| PanelDetection | panel_detection.dfy | src/utils/panelDetection.ts |
| PanelSequencing | panel_sequencing.dfy | src/utils/panelSequencing.ts |
| AutoFraming | auto_framing.dfy | `createFramedPanel` of src/utils/autoFraming.ts |
| PanelViewer | panel_viewer.dfy | the layout computation of src/components/PanelViewer.tsx |
| MangaApp | app.dfy | the state and handlers of src/App.tsx |
| PdfProcessor | pdf_processor.dfy | `validatePDF` of src/utils/pdfProcessor.ts |
| MoodAnalysis | mood_analysis.dfy | src/utils/moodAnalysis.ts |
| MangareadCore | mangaread_core.dfy | the pure parts of scripts/mangaread-core.js |
| MangareadCli | mangaread_cli.dfy | the argument handling of scripts/mangaread-to-pdf.js |
| Server | server.dfy | the input handling of server/index.js |

The model follows the form of each source file. The imperative code keeps its shape:

- the edge-map fill, the flood fill, the region scan and the bounding-box loop;
- row banding, the layout's chain of caps, the app's handlers and its page loop;
- the environment loader.

These become methods with loops, or a class whose methods update its fields. Each is proved against a specification function, and the properties are proved about that function. The pure code becomes functions and lemmas.

## Model

| member | source | states |
|---|---|---|
| PanelDetection.EdgeAt | src/utils/panelDetection.ts:69-84 | an edge value is 0 or 255; border pixels are 0; an interior pixel is 255 exactly when gx²+gy² exceeds 200² |
| PanelDetection.Gx | src/utils/panelDetection.ts:73-75 | definition: the horizontal Sobel sum of the six neighbouring channel-0 samples; its use is stated by EdgeAt |
| PanelDetection.Gy | src/utils/panelDetection.ts:77-79 | definition: the vertical Sobel sum of the six neighbouring channel-0 samples; its use is stated by EdgeAt |
| PanelDetection.StrongEdge | src/utils/panelDetection.ts:81-82 | definition: gx²+gy² exceeds 200², which for integer gradients is the square-root test; EdgeAt states the edge value it selects |
| PanelDetection.EdgeMapOf | src/utils/panelDetection.ts:69-84 | the edge map has one entry per pixel and every entry is 0 or 255 |
| PanelDetection.EdgeMap | src/utils/panelDetection.ts:69-84 | the nested loops fill the edge array with exactly the edge map of the raster |
| PanelDetection.EdgeRow | src/utils/panelDetection.ts:71-83 | one pass of the inner loop writes the edge value of every interior pixel of its row and leaves the rest of the array as it was |
| PanelDetection.FirstRowIsBorder | src/utils/panelDetection.ts:70 | the first row is never written by the loops and maps to 0 in the edge map |
| PanelDetection.LastRowIsBorder | src/utils/panelDetection.ts:70 | the last row is never written by the loops and maps to 0 in the edge map |
| PanelDetection.BorderOnly | src/utils/panelDetection.ts:71-72 | a raster narrower or lower than 3 pixels has no edge pixel at all |
| PanelDetection.FloodFill | src/utils/panelDetection.ts:140-166 | the fill adds exactly its region to `visited`; the region is empty exactly when the start is out of bounds, an edge or already visited; otherwise it is the 4-connected non-edge component of the start among unvisited pixels, each pixel once |
| PanelDetection.FillStep | src/utils/panelDetection.ts:147-165 | one pop of the stack keeps the fill invariant, and either visits a new pixel of the page or only shortens the stack |
| PanelDetection.FewerUnvisited | src/utils/panelDetection.ts:158-160 | visiting a pixel not yet visited leaves fewer pixels to visit, so the fill ends |
| PanelDetection.FillDone | src/utils/panelDetection.ts:147-165 | when the stack is empty, the pixels collected form the component of the start pixel |
| PanelDetection.ExtremesBound | src/utils/panelDetection.ts:174-186 | the least and greatest column (row) of a region bound every member's and are attained by a member |
| PanelDetection.TightBoxBounds | src/utils/panelDetection.ts:168-189 | the bounding box contains every pixel of the region, has width and height at least 1, and each of its four edges passes through a member pixel |
| PanelDetection.TightBox | src/utils/panelDetection.ts:183-188 | definition: from the least to the greatest column and row, width and height counted inclusively; TightBoxBounds and CalculateBoundingBox state its properties |
| PanelDetection.CalculateBoundingBox | src/utils/panelDetection.ts:168-189 | the min/max loop computes exactly the tight box of the region |
| PanelDetection.Gutter | src/utils/panelDetection.ts:66 | the gutter is non-negative and no larger than either side of the page |
| PanelDetection.ExpandBox | src/utils/panelDetection.ts:102-107 | definition: each side moved out by the gutter, x and y clamped at 0, width and height capped from the tight box's own left and top side; ExpandBoxBounds and ExpandCanClip state its properties |
| PanelDetection.TightBoxWithin | src/utils/panelDetection.ts:99 | the tight box of pixels of the page lies within the page |
| PanelDetection.ExpandBoxBounds | src/utils/panelDetection.ts:102-107 | the expanded box stays within the page and starts at most one gutter before the tight box; it reaches the tight box's right (bottom) edge when there is room for the gutter there |
| PanelDetection.ExpandCanClip | src/utils/panelDetection.ts:102-107 | a region touching the right edge gets an expanded box that no longer reaches the tight box's right edge |
| PanelDetection.Survivors | src/utils/panelDetection.ts:98 | every region kept has more than 2% of the page's pixels, and no more regions are kept than were found |
| PanelDetection.Survives | src/utils/panelDetection.ts:98 | a region survives only with more pixels than 2% of the page, so a survivor is non-empty |
| PanelDetection.PanelsOfSnoc | src/utils/panelDetection.ts:98-120 | scanning one more region adds one panel, numbered by the panels so far, exactly when the region survives |
| PanelDetection.SegmentPanels | src/utils/panelDetection.ts:98-135 | there is always at least one panel; ids are `page-p-panel-k` in order and no panel is nested; with no survivor the result is the single whole-page panel; otherwise panel k has the expanded tight box of surviving region k |
| PanelDetection.SurvivorsInRaster | src/utils/panelDetection.ts:98 | filtering keeps every region inside the raster |
| PanelDetection.SegmentPanelsWellFormed | src/utils/panelDetection.ts:102-135 | every panel box lies within the page, its area is width times height, and it is a splash exactly when that area exceeds 80% of the page |
| PanelDetection.WholePageWellFormed | src/utils/panelDetection.ts:126-135 | the whole-page fallback covers the page, has width times height as its area and is a splash panel |
| PanelDetection.WholePage | src/utils/panelDetection.ts:126-135 | definition: panel 0 spanning the page, a splash, not nested, with area W·H; WholePageWellFormed states its properties |
| PanelDetection.SurvivorPanelWithin | src/utils/panelDetection.ts:99-107 | the expanded tight box of a region on the page lies within the page |
| PanelDetection.MakePanel | src/utils/panelDetection.ts:109-119 | the panel record carries its box, its id and page, width times height as its area, and is a splash exactly when that area exceeds 80% of the page |
| PanelDetection.ScanAdd | src/utils/panelDetection.ts:93-97 | recording the component found at the current pixel keeps the scan invariant |
| PanelDetection.ScanDone | src/utils/panelDetection.ts:87-123 | after the row-major scan the regions found form a segmentation of the edge map |
| PanelDetection.ScanRegions | src/utils/panelDetection.ts:87-135 | the scan loop finds a segmentation of the edge map and returns exactly the panels SegmentPanels gives for it |
| PanelDetection.ScanRow | src/utils/panelDetection.ts:92-122 | scanning one row from the left keeps the scan invariant and moves it to the start of the next row, with the panels still those of the regions found |
| PanelDetection.ScanPixel | src/utils/panelDetection.ts:93-120 | one pixel of the scan keeps the scan invariant one pixel further on, with the panels still those of the regions found |
| PanelDetection.UnionOfMember | src/utils/panelDetection.ts:87-97 | a pixel is covered by the regions exactly when some region holds it |
| PanelDetection.SegmentationPartitions | src/utils/panelDetection.ts:87-97 | the regions lie in the raster and hold only non-edge pixels; they are pairwise disjoint; every non-edge pixel is in one of them |
| PanelDetection.RegionMemberFree | src/utils/panelDetection.ts:94-96 | every member of a region is a non-edge pixel of the page that no earlier region took |
| PanelDetection.AnalyzeImageForPanels | src/utils/panelDetection.ts:54-138 | the panels are those of a segmentation of the raster's edge map |
| PanelDetection.DetectScale | src/utils/panelDetection.ts:13-15 | the detection scale lies in (0, 1] and is 1 exactly when neither side exceeds 1200 |
| PanelDetection.DetectSide | src/utils/panelDetection.ts:16-17 | definition: the scaled side rounded, and at least 1; DetectSizeBounds and ScaledSideRounded state its bounds |
| PanelDetection.DetectWidth | src/utils/panelDetection.ts:16 | definition: the detection width; DetectSizeBounds states it lies in 1..1200 |
| PanelDetection.DetectHeight | src/utils/panelDetection.ts:17 | definition: the detection height; DetectSizeBounds states it lies in 1..1200 |
| PanelDetection.ScaledSideBound | src/utils/panelDetection.ts:14-17 | a side scaled by 1200 over the longest side is at most 1200, and the longest one is exactly 1200 |
| PanelDetection.DetectSizeBounds | src/utils/panelDetection.ts:13-17 | the detection size is between 1 and 1200 on each side; small pages keep their size; the longer side of a large page becomes 1200 |
| PanelDetection.ScaledSideRounded | src/utils/panelDetection.ts:14-17 | a side of a page that is too large rounds to between 1 and 1200, and the longest side to exactly 1200 |
| PanelDetection.RescaleBounds | src/utils/panelDetection.ts:26-46 | rescaling keeps the number of panels and renumbers them in order; boxes start at non-negative coordinates and are no larger than the page; area is recomputed and the splash test is re-run against the full page |
| PanelDetection.RescaleBox | src/utils/panelDetection.ts:29-34 | a box scaled back starts at non-negative coordinates and is no wider and no taller than the page |
| PanelDetection.RescalePanel | src/utils/panelDetection.ts:28-44 | definition: the rescaled box in a panel renumbered by position, area and splash recomputed; RescalePanelBounds states its properties |
| PanelDetection.Rescale | src/utils/panelDetection.ts:26-45 | definition: the map of RescalePanel over the panels; RescaleBounds states its properties |
| PanelDetection.RescalePanelBounds | src/utils/panelDetection.ts:26-46 | one rescaled panel is numbered by its position, keeps its nesting flag, lies within the bounds above, and has its area and splash flag recomputed |
| PanelDetection.SegmentPanelsOnPage | src/utils/panelDetection.ts:98-135 | segmented panels are numbered on their page, not nested, and within the detection raster |
| PanelDetection.RescaleOnPage | src/utils/panelDetection.ts:26-46 | rescaled panels are numbered on their page, not nested, and within the page's size |
| PanelDetection.DetectPanels | src/utils/panelDetection.ts:3-52 | the panels are the rescaled panels of a segmentation of the downscaled raster's edge map |
| PanelDetection.DetectedPanelsWellFormed | src/utils/panelDetection.ts:3-52 | detection gives at least one panel, and every panel is numbered on its page and within the page's size |
| PanelDetection.DetectedOnPage | src/utils/panelDetection.ts:3-52 | the same holds for any detection result, whatever the segmentation |
| PanelSequencing.KeepAppend | src/utils/panelSequencing.ts:27-36 | the elements with one key value, in order, split over a concatenation |
| PanelSequencing.InsertPermutes | src/utils/panelSequencing.ts:27-36 | inserting into a sorted list adds exactly that element |
| PanelSequencing.InsertSorted | src/utils/panelSequencing.ts:27-36 | inserting keeps the list sorted by key |
| PanelSequencing.InsertKeeps | src/utils/panelSequencing.ts:27-36 | inserting keeps the relative order of elements with equal keys |
| PanelSequencing.SortBySorted | src/utils/panelSequencing.ts:27-36 | the sort result is sorted by key |
| PanelSequencing.SortByPermutes | src/utils/panelSequencing.ts:27-36 | the sort result is a permutation of its input |
| PanelSequencing.SortByStable | src/utils/panelSequencing.ts:27-36 | the sort keeps the input order of elements with equal keys |
| PanelSequencing.SortByIsStableSort | src/utils/panelSequencing.ts:27-36 | the sort result is sorted, a permutation of its input, and keeps the input order of equal keys (a stable sort) |
| PanelSequencing.FirstJoin | src/utils/panelSequencing.ts:13-20 | a panel joins the first row whose founder is less than 5 away in y, and no earlier row |
| PanelSequencing.Joins | src/utils/panelSequencing.ts:14-15 | definition: the row's founding panel is less than 5 away in y; FirstJoin and BandShape use it |
| PanelSequencing.Place | src/utils/panelSequencing.ts:12-23 | definition: push on the first row the panel joins, or found a new row; PlaceBanded states what it keeps |
| PanelSequencing.Band | src/utils/panelSequencing.ts:8-24 | definition: the rows the grouping loop builds in creation order; BandShape, BandStep and GroupRows state its properties |
| PanelSequencing.FlattenBag | src/utils/panelSequencing.ts:39 | flattening keeps every panel of every row, with multiplicity |
| PanelSequencing.BagPush | src/utils/panelSequencing.ts:16 | pushing onto a row adds exactly that panel |
| PanelSequencing.PushBanded | src/utils/panelSequencing.ts:15-16 | joining a row whose founder is near keeps every panel within 5 of its founder and founders at least 5 apart |
| PanelSequencing.FoundBanded | src/utils/panelSequencing.ts:21-23 | founding a new row when no row is near keeps the banding and adds exactly that panel |
| PanelSequencing.FoundBag | src/utils/panelSequencing.ts:21-23 | founding a row adds exactly that panel |
| PanelSequencing.ExtendBanded | src/utils/panelSequencing.ts:21-23 | a new single-panel row for a panel near no founder keeps the rows banded |
| PanelSequencing.PlaceBanded | src/utils/panelSequencing.ts:11-24 | placing a panel keeps the banding and adds exactly that panel |
| PanelSequencing.BandShape | src/utils/panelSequencing.ts:8-24 | the rows built hold exactly the input panels; each panel is within 5 in y of its row's founder; founders are pairwise at least 5 apart |
| PanelSequencing.BandStep | src/utils/panelSequencing.ts:11-24 | the rows after one more panel are the rows so far with that panel placed |
| PanelSequencing.InsertBag | src/utils/panelSequencing.ts:27 | inserting a row into the row list adds exactly its panels |
| PanelSequencing.SortByBag | src/utils/panelSequencing.ts:27 | sorting rows keeps the panels |
| PanelSequencing.SortedRowsBag | src/utils/panelSequencing.ts:30-36 | permuting within each row keeps the panels |
| PanelSequencing.PermutedBanded | src/utils/panelSequencing.ts:27 | a permutation of banded rows is banded |
| PanelSequencing.OrderedRowsBanded | src/utils/panelSequencing.ts:8-27 | the rows sorted top to bottom are banded and hold exactly the input panels |
| PanelSequencing.OrderedRows | src/utils/panelSequencing.ts:27 | definition: the rows stably sorted by founder y; OrderedRowsBanded and RowsTopToBottom state its properties |
| PanelSequencing.XKey | src/utils/panelSequencing.ts:30-36 | definition: x for left to right, −x for right to left; RowsInReadingOrder states the order it gives |
| PanelSequencing.DistinctRows | src/utils/panelSequencing.ts:8-27 | any two rows' founders are at least 5 apart in y |
| PanelSequencing.OneCopy | src/utils/panelSequencing.ts:8-24 | no row occurs twice in the banding |
| PanelSequencing.SequencePermutes | src/utils/panelSequencing.ts:3-40 | the sequenced list is a permutation of the input |
| PanelSequencing.Sequence | src/utils/panelSequencing.ts:3-40 | definition: identity for 0 or 1 panels, else the flattened, x-sorted ordered rows; SequencePermutes, RowsTopToBottom, RowsInReadingOrder and DirectionOnlyOrdersWithinRows state its properties |
| PanelSequencing.RowsTopToBottom | src/utils/panelSequencing.ts:8-27 | rows are non-empty; every panel is within 5 of its row's founder; rows are in increasing founder y, at least 5 apart |
| PanelSequencing.RowsInReadingOrder | src/utils/panelSequencing.ts:30-36 | each output row is a permutation of its banded row, in non-increasing x for right-to-left and non-decreasing x for left-to-right, with equal x in insertion order |
| PanelSequencing.DirectionOnlyOrdersWithinRows | src/utils/panelSequencing.ts:27-39 | both directions give the same number of rows and the same panels in each row |
| PanelSequencing.FirstJoinAt | src/utils/panelSequencing.ts:13-20 | the row the inner loop stops at is the first row the panel joins |
| PanelSequencing.PlacePanel | src/utils/panelSequencing.ts:12-23 | the inner loop puts the panel in the first row it joins, or founds a new row for it |
| PanelSequencing.GroupRows | src/utils/panelSequencing.ts:8-24 | the outer loop builds exactly the banding of the panels, in input order |
| PanelSequencing.SortRows | src/utils/panelSequencing.ts:30-36 | every row is sorted by x in the reading direction, and the number of rows is kept |
| PanelSequencing.SequencePanels | src/utils/panelSequencing.ts:3-40 | the banding loop, the row sort, the within-row sorts and the flattening compute Sequence: the input itself for 0 or 1 panels |
| AutoFraming.CreateFramedPanel | src/utils/autoFraming.ts:3-50 | the panel is copied unchanged, scaling is always contain, offsetX is 0, and the suppression type is combined when applied and blur otherwise |
| AutoFraming.Crop | src/utils/autoFraming.ts:13-18 | definition: x and y raised to 0, width and height capped by what is left of the page; CropWithinPage states its properties |
| AutoFraming.FitScale | src/utils/autoFraming.ts:21-24 | definition: viewport width over crop width, as a JavaScript number; FramingFitsWidth and FramingZeroWidth state its values |
| AutoFraming.ScaledHeight | src/utils/autoFraming.ts:27 | definition: crop height times the scale; FramingFitsWidth states its value |
| AutoFraming.NeedsSuppression | src/utils/autoFraming.ts:34 | definition: scaled height below the viewport height, or not a splash; CreateFramedPanel states the suppression it selects |
| AutoFraming.CropWithinPage | src/utils/autoFraming.ts:13-18 | for a box starting at non-negative coordinates, the crop keeps its origin, lies within the page, is no larger than the box, and is the box itself when the box fits |
| AutoFraming.FramingFitsWidth | src/utils/autoFraming.ts:24-43 | with a non-zero crop width the crop fills the viewport width, is centred vertically, has a negative offset exactly when it is taller than the viewport, and suppression applies exactly when it is shorter than the viewport or not a splash |
| AutoFraming.FramingZeroWidth | src/utils/autoFraming.ts:24-43 | with a zero crop width the scale is +Infinity, the offset is -Infinity or NaN, and suppression applies exactly when the panel is not a splash |
| AutoFraming.ReframeIgnoresOldFrame | src/utils/autoFraming.ts:3-50 | framing an already framed panel for a new viewport gives the same result as framing the original panel |
| PanelViewer.FitBackground | src/components/PanelViewer.tsx:65-78 | the background fills the container in one direction, fits inside it, keeps the page's aspect ratio and is centred |
| PanelViewer.ContainFitUnique | src/components/PanelViewer.tsx:65-78 | two boxes that both fit inside the container, fill it one way, keep the page ratio and are centred are equal, so the background placement is determined by the page and container sizes |
| PanelViewer.CanvasHeight | src/components/PanelViewer.tsx:61-107 | closed form of the caps: min(max(min(container height, background height), min(height at 75% of the background width, background height)), height at 90% of the container width, 90% of the container height); SizeCanvas is proved to compute it |
| PanelViewer.SizeCanvas | src/components/PanelViewer.tsx:61-107 | the chain of caps ends at exactly the height CanvasHeight gives, with the width at the crop's aspect ratio; so the canvas is no taller than the background and takes at most 90% of the container each way |
| PanelViewer.CapToBackground | src/components/PanelViewer.tsx:61-85 | starting at the container height and capping at the background's, the height is the smaller of the two, with the width at the aspect ratio |
| PanelViewer.WidenToBackground | src/components/PanelViewer.tsx:87-95 | a panel narrower than 75% of the background gets the height at which it is that wide, capped at the background's height; a wider one is left unchanged; so the height is the larger of the two, and the ratio and the background cap are kept |
| PanelViewer.CapToViewport | src/components/PanelViewer.tsx:97-107 | the height becomes the least of the incoming height, the height at which the width is 90% of the container, and 90% of the container height; the ratio is kept and the panel never grows |
| PanelViewer.ComputeLayout | src/components/PanelViewer.tsx:50-139 | the returned background is the contain fit of the page in the container (the only one, by ContainFitUnique); the stored canvas height is CanvasHeight for the crop's ratio and that background, the width follows the ratio; it stays within the background's height and 90% of the container, is centred with at least 5% margin each way, and starts at translate 0,0 and scale 0.96 |
| PanelViewer.WiderFit | src/components/PanelViewer.tsx:72-74 | a page wider than the container fills its width and fits its height |
| PanelViewer.TallerFit | src/components/PanelViewer.tsx:75-77 | any other page fills the container's height and fits its width |
| PanelViewer.ShrinkWidth | src/components/PanelViewer.tsx:98-107 | capping the width and recomputing the height keeps the ratio and shrinks the height |
| MangaApp.NavigationBounds | src/App.tsx:217-227 | next and previous keep an in-range index; next moves on exactly when not at the last panel, previous moves back exactly when not at the first; they undo each other there |
| MangaApp.NextIndex | src/App.tsx:217-221 | definition: one on unless at the last panel; NavigationBounds states its properties |
| MangaApp.PreviousIndex | src/App.tsx:223-227 | definition: one back unless at the first panel; NavigationBounds states its properties |
| MangaApp.Frames | src/App.tsx:168-177 | one framed panel per sequenced panel, in order |
| MangaApp.Reframe | src/App.tsx:33-44 | the resize recompute keeps the length and the panels, in order |
| MangaApp.ReframeAppend | src/App.tsx:34-43 | re-framing distributes over concatenation |
| MangaApp.ReframeFrames | src/App.tsx:34-43 | re-framing one page's framed panels gives that page's panels framed for the new viewport |
| MangaApp.ResizeAgreesWithFraming | src/App.tsx:33-44 | re-framing the whole framed list for a new viewport gives what the pipeline would have framed for that viewport |
| MangaApp.KnownPagesGrow | src/App.tsx:35 | framed panels that name loaded pages still do when more pages are loaded |
| MangaApp.KnownPagesGrowReframe | src/App.tsx:35 | re-framing does not depend on pages beyond those the panels name |
| MangaApp.PageDoneIndexed | src/App.tsx:159-165 | every sequenced panel of a processed page names that page |
| MangaApp.PageFinished | src/App.tsx:159-165 | a page whose panels are detected and then sequenced right to left is processed |
| MangaApp.FrameAllStep | src/App.tsx:159-188 | the framed list grows by the framed panels of one page per iteration |
| MangaApp.FramePanels | src/App.tsx:168-177 | the inner loop frames each sequenced panel in order |
| MangaApp.ProcessPage | src/App.tsx:159-177 | one page is detected, sequenced right to left and its sequenced panels framed against it |
| MangaApp.RunPipeline | src/App.tsx:157-188 | every page is detected and sequenced right to left, and the framed list is the concatenation, in page order, of each page's sequenced panels framed against that page's size |
| MangaApp.IndexedAfterPipeline | src/App.tsx:157-188 | after the pipeline every sequenced panel names its own page |
| MangaApp.App.constructor | src/App.tsx:14-27 | the app starts in upload, with no pages, no panels, index 0, not playing |
| MangaApp.App.HandleNext | src/App.tsx:217-221 | the index moves on by one only when not at the last panel; nothing else changes |
| MangaApp.App.HandlePrevious | src/App.tsx:223-227 | the index moves back by one only when not at the first panel; nothing else changes |
| MangaApp.App.Tick | src/App.tsx:52-63 | while playing with panels, a tick advances by one, or at the last panel stops playback and keeps the index |
| MangaApp.App.HandleKey | src/App.tsx:86-103 | in viewing, ArrowRight and space run a guarded next, ArrowLeft a guarded previous, Escape stops playback, and other keys change nothing; outside viewing no key changes anything |
| MangaApp.App.EnterViewing | src/App.tsx:78-82 | entering viewing turns playback on |
| MangaApp.App.HandleFileSelect | src/App.tsx:109-215 | no file changes nothing; a failed conversion returns to upload with playback off; a converted PDF enters processing with playback off, every page processed, the framed list built by the pipeline and the index reset to 0 |
| MangaApp.App.HandleResize | src/App.tsx:30-50 | with panels and pages loaded the framed list is re-framed for the new window size; otherwise nothing changes |
| PdfProcessor.ValidatePdf | src/utils/pdfProcessor.ts:28-72 | a file is valid exactly when it has a size, its name or MIME type says PDF, and it is not empty and at most 50 MiB; each rejection is the first failing check in the order object, type, empty, size, and carries the MIME type (or `unknown`) or the size |
| PdfProcessor.PdfExtension | src/utils/pdfProcessor.ts:43-44 | definition: the lower-cased, trimmed name ends in `.pdf`; ExtensionIgnoresCase states it ignores case |
| PdfProcessor.PdfMimeType | src/utils/pdfProcessor.ts:45 | definition: the MIME type is `application/pdf`, empty or `application/octet-stream` |
| PdfProcessor.LooksLikePdf | src/utils/pdfProcessor.ts:49 | definition: the extension or the MIME type says PDF; ValidatePdf states the type check by it |
| PdfProcessor.SizeLimitInclusive | src/utils/pdfProcessor.ts:62-64 | exactly 50 MiB is accepted and one byte more is rejected as too large |
| PdfProcessor.ExtensionIgnoresCase | src/utils/pdfProcessor.ts:43-44 | the extension test judges a name and its lower-cased form alike |
| PdfProcessor.UpperCaseExtensionAccepted | src/utils/pdfProcessor.ts:43-56 | a non-empty file of allowed size named `….PDF` is valid whatever its MIME type |
| Strings.OrUnknown | src/utils/pdfProcessor.ts:55 | the `x \|\| 'unknown'` fallback is never empty and keeps a non-empty value |
| MoodAnalysis.FirstMatch | src/utils/moodAnalysis.ts:29-31 | the search returns the first group, from a position on, whose words match, or none when no group matches |
| MoodAnalysis.InferMood | src/utils/moodAnalysis.ts:11-37 | empty text is neutral; the first keyword group that matches the lower-cased text decides; the fallbacks apply only when none matches |
| MoodAnalysis.InferMoodCases | src/utils/moodAnalysis.ts:11-37 | the mood is neutral exactly for empty text or a neutral fallback; a keyword mood comes from the first matching group; with no match the mood is the fallback's |
| MoodAnalysis.FallbackMood | src/utils/moodAnalysis.ts:33-36 | definition: four capitals and `!` give angry, else `!` and `?` surprised, else `?` tense, else neutral; InferMood and InferMoodCases state when it applies |
| MoodAnalysis.LoveIsHappy | src/utils/moodAnalysis.ts:20-21 | text with the word `love` and no angry keyword is happy |
| MoodAnalysis.LoveYouNeverRomantic | src/utils/moodAnalysis.ts:21-26 | text holding `love you` is never romantic |
| MoodAnalysis.VoiceSettingsForMood | src/utils/moodAnalysis.ts:39-58 | every mood has settings in [0, 1]; neutral has 0.45 and 0.8 |
| MoodAnalysis.InferAmbient | src/utils/moodAnalysis.ts:69-81 | empty input has no ambient; there is an ambient exactly when some category matches, and then the first matching category decides |
| MoodAnalysis.QuietIsRoom | src/utils/moodAnalysis.ts:69-81 | `quiet` with no word of an earlier category gives a room |
| MangareadCore.ResolveImageUrl | scripts/mangaread-core.js:10-21 | a missing or empty source gives nothing; a `//` source gets the `https:` scheme; any other source is its resolution against the page |
| MangareadCore.ProtocolRelativeIsHttps | scripts/mangaread-core.js:12-14 | a protocol-relative source becomes an `https://` URL keeping the rest of the source |
| MangareadCore.FirstSet | scripts/mangaread-core.js:25-31 | the loop stops at the first set flag from a position on, and finds none exactly when no flag from there is set |
| MangareadCore.UsableFlags | scripts/mangaread-core.js:26-27 | one flag per attribute, set exactly when its value is non-blank and not inline image data |
| MangareadCore.PickImageSource | scripts/mangaread-core.js:23-32 | none exactly when no attribute is usable; otherwise the trimmed value of the first usable attribute among data-src, data-lazy-src, data-original and src, which is non-blank and already trimmed |
| MangareadCore.LazySourceFirst | scripts/mangaread-core.js:23-32 | a usable `data-src` wins over every other attribute |
| MangareadCore.InlineDataSkipped | scripts/mangaread-core.js:27-29 | inline `data:image` values are never picked |
| MangareadCore.EmbedKind | scripts/mangaread-core.js:118-126 | an image is embedded as JPEG exactly when the JPEG test holds, as PNG exactly when only the PNG test holds, and not at all otherwise |
| MangareadCore.JpegWithQuery | scripts/mangaread-core.js:52-55 | a `.JPG?…` URL is a JPEG whatever its content type |
| MangareadCore.IsJpeg | scripts/mangaread-core.js:52-55 | definition: the content type contains `jpeg` or `jpg`, or the URL has `.jpg` or `.jpeg` before `?` or its end, in any case; JpegWithQuery and EmbedKind use it |
| MangareadCore.IsPng | scripts/mangaread-core.js:57-58 | definition: the content type contains `png`, or the URL has `.png` before `?` or its end, in any case; EmbedKind uses it |
| MangareadCore.BuildPages | scripts/mangaread-core.js:108-134 | pages are added in image order, each as its embedding says; the first unsupported image stops the loop before any page for it, with its index and its type or `unknown` |
| MangareadCore.Segments | scripts/mangaread-core.js:62-63 | the path segments kept are non-empty and contain no `/` |
| MangareadCore.DeriveOutputName | scripts/mangaread-core.js:60-68 | the name always ends in `.pdf`; it is the last non-empty path segment plus `.pdf`, or `chapter.pdf` without a segment or a URL |
| MangareadCore.DerivedNameIsOneSegment | scripts/mangaread-core.js:60-68 | the derived name contains no `/` and its stem is a piece of the path or `chapter` |
| MangareadCli.FirstIndex | scripts/mangaread-to-pdf.js:22 | `indexOf` returns the first position of an argument, or -1 exactly when it is absent |
| MangareadCli.SelectInvocation | scripts/mangaread-to-pdf.js:8-23 | help exactly when there are no arguments or `--help`/`-h` is among them; otherwise the URL is the first argument; the output is the argument after the first `--out` whenever one follows it, and none without `--out` or when nothing follows it |
| MangareadCli.NormalizeOutputPath | scripts/mangaread-to-pdf.js:25-31 | a non-empty output ending in `.pdf` (any case) is kept, another gets `.pdf` appended, and a missing or empty one falls back to the derived name |
| MangareadCli.AppendedSuffix | scripts/mangaread-to-pdf.js:28 | appending `.pdf` gives a path ending in `.pdf` ignoring case |
| MangareadCli.NormalizedIsPdf | scripts/mangaread-to-pdf.js:25-31 | the normalised path always ends in `.pdf` ignoring case |
| MangareadCli.NormalizeIdempotent | scripts/mangaread-to-pdf.js:25-31 | normalising a normalised path changes nothing |
| Server.StripQuotes | server/index.js:21 | a leading and a trailing double quote are each removed on their own: both ends quoted loses both, only the first or only the last quoted loses just that one, a lone `"` becomes empty, and an unquoted value is unchanged |
| Server.ParseEnvLine | server/index.js:16 | definition: a line is parsed after trimming; ParsedKeyValid, ParseFormatted, ParseQuoted and FormattedSplits state its properties |
| Server.ParseTrimmed | server/index.js:17-18 | definition: a blank or `#` line defines nothing, else the entry at the first `=` |
| Server.EntryAt | server/index.js:19-22 | definition: no `=` or an empty key defines nothing; else the trimmed key before and the trimmed, quote-stripped value after the first `=` |
| Server.NoSeparatorNoEntry | server/index.js:18-19 | a line without `=` defines nothing |
| Server.ParsedKeyValid | server/index.js:16-22 | a parsed key is non-empty, trimmed, free of `=` and does not start with `#` |
| Server.ParseFormatted | server/index.js:15-22 | a `KEY=value` line with a valid key and a plain value parses back to that key and value |
| Server.ParseQuoted | server/index.js:21 | a `KEY="value"` line parses to the value without its quotes |
| Server.FormattedSplits | server/index.js:18-21 | the value is everything after the first `=`, trimmed, even when it contains `=`, with its edge quotes stripped |
| Server.Entries | server/index.js:15-21 | one parse result per line, in order |
| Server.EnvAfterStep | server/index.js:15-24 | the environment after one more line is that line applied to the environment so far |
| Server.ApplyEntry | server/index.js:22-23 | definition: a definition of an unset key sets it, anything else changes nothing; ApplyNew and ApplyNothing state it |
| Server.EnvAfter | server/index.js:15-24 | definition: the entries applied in order; ExistingKept and FirstDefinitionWins state its properties |
| Server.ApplyNew | server/index.js:22-23 | a line defining an unset key sets it |
| Server.ApplyNothing | server/index.js:17-22 | a line defining nothing, or a key already set, leaves the environment unchanged |
| Server.ProcessEnv.ApplyEntries | server/index.js:15-24 | the loop over the parsed lines leaves the environment as EnvAfter gives it |
| Server.ExistingKept | server/index.js:22 | a key already in the environment keeps its value whatever the file says |
| Server.FirstDefinitionWins | server/index.js:22-23 | a new key is defined exactly when some line defines it, and then the first such line's value wins |
| Server.ProcessEnv.constructor | server/index.js:11 | the process environment starts as given |
| Server.ProcessEnv.LoadLocalEnv | server/index.js:11-25 | without a file the environment is unchanged; otherwise it is the old environment with every line applied in order |
| Server.ProcessEnv.Lookup | server/index.js:69-77 | definition: `process.env[name]` when set and non-empty; HandleTts uses it for the API key and the voice id |
| Server.ProcessEnv.HandleTts | server/index.js:62-92 | missing text is rejected first, then a missing or empty API key; otherwise the request carries the text, the key, the selected voice and exactly the settings SafeSettings gives for the request, which lie in [0, 1] |
| Server.SelectVoiceId | server/index.js:74-77 | the trimmed request voice when not blank, else the environment's voice, else the default; never empty |
| Server.RequestVoiceIdTrimmed | server/index.js:75-76 | a request voice id is used without surrounding whitespace |
| Server.Clamp01 | server/index.js:87-90 | the clamp lies in [0, 1], keeps values already there, maps finite values below to 0 and above to 1, +Infinity to 1 and -Infinity to 0 |
| Server.Clamp01Monotone | server/index.js:87-90 | the clamp preserves order |
| Server.SafeField | server/index.js:84-91 | one field is its default when NaN and otherwise clamped, and always lies in [0, 1] |
| Server.SafeSettings | server/index.js:79-92 | the settings are the defaults {0.4, 0.8} without a settings object, otherwise each field through SafeField; they always lie in [0, 1] |
| Server.SafeVoiceSettings | server/index.js:79-92 | the method computes exactly SafeSettings: settings default to 0.4 and 0.8; a supplied number is clamped to [0, 1]; NaN keeps the default; the result always lies in [0, 1] |
| Server.CheckMangareadRequest | server/index.js:31-45 | a request passes exactly when the URL is given, parses and names mangaread.org; a missing URL is reported first, then an unparsable one, then an unsupported host |
| Server.SupportedHost | server/index.js:43 | definition: the host is `www.mangaread.org` or `mangaread.org`; CheckMangareadRequest states its use |
| Types.Round | src/utils/panelDetection.ts:16-17 | `Math.round` gives the integer within one half of its argument, halves rounded up |
| Types.Div | src/utils/autoFraming.ts:24 | a division is exact for a non-zero divisor and NaN or a signed infinity for zero |
| Types.Decimal | src/utils/panelDetection.ts:113 | the decimal form of a number is a non-empty string of digits ending in its last digit |
| Types.DecimalInjective | src/utils/panelDetection.ts:113 | different numbers have different decimal forms |
| Types.PanelIdInjective | src/utils/panelDetection.ts:113 | panel ids on one page are distinct |
| Strings.Trim | server/index.js:16 | the trimmed string is a slice of the original with no whitespace at either end |
| Strings.TrimIdempotent | server/index.js:16 | trimming twice is trimming once |
| Strings.TrimEmptyIffBlank | scripts/mangaread-core.js:27 | a string trims to empty exactly when all its characters are whitespace |
| Strings.LowerIdempotent | src/utils/pdfProcessor.ts:43 | lower-casing twice is lower-casing once |
| Strings.IndexOf | server/index.js:18 | the first position of the character, or -1 exactly when it is absent |
| Strings.Split | server/index.js:15 | the pieces contain no separator and join back to the string |
| Strings.SplitJoin | server/index.js:15 | splitting joined pieces gives them back |
| Strings.JoinCons | server/index.js:15 | a piece without the separator, the separator and the rest split into that piece and the rest's pieces |

## Left out

- Rasterisation and decoding are not modelled. `convertPDFToImages`, the pdf.js worker, the image decode and `getImageData` are foreign I/O. A page carries its channel-0 raster at the detection size as an input.
- Canvas drawing is not modelled: background blur and compositing, image loading, `drawImage`, the rounding of canvas sizes, and all JSX.
- Timers and asynchrony become steps. The autoplay interval, the yield inside the page loop, the 500 ms delay before viewing and React's batching become explicit method calls (`Tick`, `EnterViewing`). Their timing is not modelled.
- Fetching and PDF assembly are not modelled: HTML scraping, image download, PDF assembly, express routing, the text-to-speech fetch, and file reads and writes. `BuildPages` takes the downloaded images and records one page kind per image.
- URL parsing and resolution (the WHATWG URL Standard) are inputs. The resolved URL, pathname and hostname are given, and a URL that fails to parse is `None`.
- `Number()` conversion of request fields is not modelled. The settings arrive as JavaScript numbers (finite, ±Infinity or NaN). A non-string or missing `url`, `text` or `voiceId` is `None`.
- Floating point is modelled as exact reals. Rounding of `0.02·min(W,H)`, of the scale factors and of the divisions is not captured.
- `Strings.Lower` folds only ASCII letters. Unicode case mapping in `toLowerCase` is not modelled, nor is Unicode whitespace beyond the characters `IsWhitespace` lists.
- The direction argument of `detectPanels` is ignored by the source and is not a parameter of `DetectPanels`. The pipeline sequences right to left, as App.tsx does.
- PanelDetection.FloodFill takes and returns `visited` as a value instead of mutating a shared set. `CalculateBoundingBox` starts its running bounds at the first pixel instead of ±Infinity; the result is the same for the non-empty regions it is called with.
- PanelDetection.ExpandBoxBounds does not state that the expanded box contains the tight box, because it need not (ExpandCanClip shows a case).
- PanelDetection.RescaleBounds does not bound x+width or y+height by the page, because the source does not clamp them.
- PanelSequencing.SequencePanels sorts with a stable insertion sort on values rather than in place. Only the stability of JavaScript's `Array.prototype.sort` is relied on. Two panels less than 5 apart in y need not share a row, and no lemma claims it.
- Several loop bodies are separate methods in the model: the rows of the edge map (`EdgeRow`), one pop of the flood fill (`FillStep`), the rows and pixels of the scan (`ScanRow`, `ScanPixel`), the three size caps of the panel view (`CapToBackground`, `WidenToBackground`, `CapToViewport`), one page of the pipeline (`ProcessPage`) and the loop over parsed lines of the environment file (`ApplyEntries`). Each runs the same steps in the same order as the inline source code.
- PanelViewer.ComputeLayout requires positive crop, page and container sizes. The source divides by them without a guard, and zero sizes are not modelled.
- MangaApp.App.HandleFileSelect takes the conversion's result as an input: `None` stands for a thrown error. Only a failed conversion is modelled as an error; a detection error thrown after `setPages(pageData)` (App.tsx:147), which would leave the new, partly processed pages beside the old framed list, is not, since detection is modelled as total. The progress messages and the alert are not modelled.
- PdfProcessor.ValidatePdf takes a file object. The source's logging line reads `file.name` before its `!file` guard, so a null file throws instead of returning the invalid-object error; the model's `InvalidFileObject` covers a file without a size.
- Server.ProcessEnv.LoadLocalEnv checks keys against the environment map only. `key in process.env` also sees inherited object properties such as `constructor`, which the model does not.
- The `deriveOutputName` call in the `/api/mangaread` endpoint, the headers and the response bodies are not modelled. The endpoint's input checks are `CheckMangareadRequest`.
- Console logging and the message texts are left out. Errors are datatype variants.
