/** The older copy of the placement engine in script.js, which takes one uniform page
    margin instead of four, and the way the live preview feeds it from the list of
    selected images (caption sizes defaulting to 10, a caption gap of 5). */
module Script {
  import opened Wrappers
  import Utils

  // ---------------------------------------------------------------- the selected images

  /** One selected image as the list keeps it: its id (a timestamp plus a random
      fraction), its width / height ratio, its caption font size (the `parseInt` of an
      input, so possibly `NaN`, here `None`) and its caption colour as `#rrggbb`
      (possibly empty). */
  datatype ImageFile = ImageFile(id: real, aspectRatio: real, captionFontSize: Option<int>,
                                 captionFontColor: string)

  /** `captionFontSize || 10` (script.js:444, 795, 829): a size that is `NaN` or 0 is
      falsy and becomes 10; every other size is kept.  The size used is never 0. */
  function CaptionFontSize(f: ImageFile): (size: int)
    ensures size != 0
    ensures size == 10 <==> f.captionFontSize in {None, Some(0), Some(10)}
    ensures f.captionFontSize.Some? && f.captionFontSize.value != 0 ==> size == f.captionFontSize.value
  {
    match f.captionFontSize
    case None => 10
    case Some(n) => if n == 0 then 10 else n
  }

  /** The caption sizes handed to the engine, one per image in list order (script.js:444). */
  function CaptionFontSizes(files: seq<ImageFile>): (sizes: seq<real>)
    ensures |sizes| == |files|
    ensures forall k :: 0 <= k < |files| ==> sizes[k] == CaptionFontSize(files[k]) as real && sizes[k] != 0.0
  {
    seq(|files|, k requires 0 <= k < |files| => CaptionFontSize(files[k]) as real)
  }

  /** The images' own ratios, in list order (script.js:443). */
  function AspectRatios(files: seq<ImageFile>): seq<real>
  {
    seq(|files|, k requires 0 <= k < |files| => files[k].aspectRatio)
  }

  /** The gap above and below every caption in both callers (script.js:445, 796). */
  const CaptionMarginTopBottom: real := 5.0

  /** A request whose four margins are one and the same. */
  predicate UniformMargins(req: Utils.Request) {
    req.marginTop == req.marginBottom == req.marginLeft == req.marginRight
  }

  /** The uniform-margin engine's arguments as a request of the four-margin engine. */
  function UniformRequest(numImages: nat, pageWidth: real, pageHeight: real, margin: real,
                          imageSpacing: real, userColumns: int, imageAspectRatios: seq<real>,
                          captionFontSizes: seq<real>, captionMarginTopBottom: real): (req: Utils.Request)
    ensures UniformMargins(req) && req.marginLeft == margin
    ensures Utils.UsableWidth(req) == pageWidth - 2.0 * margin
    ensures Utils.UsableHeight(req) == pageHeight - 2.0 * margin
  {
    Utils.Request(numImages, pageWidth, pageHeight, margin, margin, margin, margin, imageSpacing, userColumns,
                  imageAspectRatios, captionFontSizes, captionMarginTopBottom)
  }

  /** What the live preview passes to the engine (script.js:429-457): one item per
      selected image, the images' own ratios, the defaulted caption sizes, gap 5. */
  function PreviewRequest(files: seq<ImageFile>, pageWidth: real, pageHeight: real,
                          margin: int, imageSpacing: int, userColumns: int): Utils.Request
  {
    UniformRequest(|files|, pageWidth, pageHeight, margin as real, imageSpacing as real, userColumns,
                   AspectRatios(files), CaptionFontSizes(files), CaptionMarginTopBottom)
  }

  /** The preview always calls the engine with matching lists; only the ratios, which
      come from loaded images, must be positive. */
  lemma PreviewRequestWellFormed(files: seq<ImageFile>, pageWidth: real, pageHeight: real,
                                 margin: int, imageSpacing: int, userColumns: int)
    requires forall k :: 0 <= k < |files| ==> files[k].aspectRatio > 0.0
    ensures var req := PreviewRequest(files, pageWidth, pageHeight, margin, imageSpacing, userColumns);
      && Utils.WellFormed(req)
      && req.numImages == |files|
      && req.captionMarginTopBottom == 5.0
      && UniformMargins(req) && req.marginLeft == margin as real
      && (forall k :: 0 <= k < |files| ==> req.imageAspectRatios[k] == files[k].aspectRatio)
      && (forall k :: 0 <= k < |files| ==>
            req.captionFontSizes[k] == CaptionFontSize(files[k]) as real && req.captionFontSizes[k] != 0.0)
  {
  }

  // ---------------------------------------------------------------- the uniform-margin engine

  /** `calculateImagePlacements` of script.js (script.js:263-392).  Its prologue is its
      own; its two loops (script.js:283-326, 343-390) repeat those of the four-margin
      engine, so they are the same methods here, run with the usable area
      `page - 2 * margin` and the margin as the origin of both axes.  It returns
      exactly what the four-margin engine returns when all four margins are equal. */
  method CalculateImagePlacements(numImages: nat, pageWidth: real, pageHeight: real, margin: real,
                                  imageSpacing: real, userColumns: int,
                                  imageAspectRatios: seq<real>, captionFontSizes: seq<real>,
                                  captionMarginTopBottom: real)
    returns (placements: Option<seq<Utils.Placement>>)
    requires Utils.WellFormed(UniformRequest(numImages, pageWidth, pageHeight, margin, imageSpacing, userColumns,
                                             imageAspectRatios, captionFontSizes, captionMarginTopBottom))
    ensures placements == Utils.Layout(UniformRequest(numImages, pageWidth, pageHeight, margin, imageSpacing,
                                                      userColumns, imageAspectRatios, captionFontSizes,
                                                      captionMarginTopBottom))
  {
    ghost var req := UniformRequest(numImages, pageWidth, pageHeight, margin, imageSpacing, userColumns,
                                    imageAspectRatios, captionFontSizes, captionMarginTopBottom);
    var usableWidth := pageWidth - 2.0 * margin;
    var usableHeight := pageHeight - 2.0 * margin;
    assert usableWidth == Utils.UsableWidth(req) && usableHeight == Utils.UsableHeight(req);
    var bestCols: nat := if userColumns > 0 then userColumns as nat else 1;
    var bestRows := Utils.CeilDiv(numImages, bestCols);
    if userColumns == 0 {
      bestCols, bestRows := Utils.SearchColumns(numImages, usableWidth, usableHeight, imageSpacing,
                                                imageAspectRatios, captionFontSizes, captionMarginTopBottom);
    }
    assert Utils.Grid(bestCols, bestRows) == Utils.ChooseGrid(req);
    if bestCols == 0 || bestRows == 0 {
      return None;
    }
    var gridCellWidth := usableWidth / bestCols as real;
    var gridCellHeight := usableHeight / bestRows as real;
    var blockUsableWidth := gridCellWidth - imageSpacing;
    var blockUsableHeight := gridCellHeight - imageSpacing;
    if blockUsableWidth <= 0.0 || blockUsableHeight <= 0.0 {
      return None;
    }
    var cells := Utils.Cells(bestCols, bestRows, gridCellWidth, gridCellHeight, blockUsableWidth, blockUsableHeight);
    assert cells == Utils.FinalCells(req);
    var items := Utils.PlaceImages(numImages, cells, margin, margin, pageHeight,
                                   imageAspectRatios, captionFontSizes, captionMarginTopBottom);
    return Some(items);
  }

  /** The uniform engine returns `null` exactly when there are no images, or when the
      chosen grid's block, a cell of `(page - 2 * margin) / count` minus the spacing, is
      not positive in width or height (script.js:278-279, 329-341). */
  lemma UniformNullIff(numImages: nat, pageWidth: real, pageHeight: real, margin: real,
                       imageSpacing: real, userColumns: int, imageAspectRatios: seq<real>,
                       captionFontSizes: seq<real>, captionMarginTopBottom: real)
    requires Utils.WellFormed(UniformRequest(numImages, pageWidth, pageHeight, margin, imageSpacing, userColumns,
                                             imageAspectRatios, captionFontSizes, captionMarginTopBottom))
    ensures var req := UniformRequest(numImages, pageWidth, pageHeight, margin, imageSpacing, userColumns,
                                      imageAspectRatios, captionFontSizes, captionMarginTopBottom);
      var g := Utils.ChooseGrid(req);
      && (numImages == 0 ==> Utils.Layout(req) == None)
      && (numImages > 0 ==>
            && g.cols > 0 && g.rows > 0
            && (Utils.Layout(req) == None <==>
                  || (pageWidth - 2.0 * margin) / g.cols as real - imageSpacing <= 0.0
                  || (pageHeight - 2.0 * margin) / g.rows as real - imageSpacing <= 0.0))
  {
    var req := UniformRequest(numImages, pageWidth, pageHeight, margin, imageSpacing, userColumns,
                              imageAspectRatios, captionFontSizes, captionMarginTopBottom);
    Utils.LayoutNullIff(req);
  }

  /** Item i of a successful layout with one margin on all four sides, which is what
      the uniform engine computes (`CalculateImagePlacements` above).  The cells divide
      the page minus that margin on each side evenly (script.js:333-334), and the
      image is centred horizontally, and with its caption band vertically, in the
      block of cell (i % cols, i / cols), cells being measured from the margin on both
      axes (script.js:343-368). */
  lemma UniformItemCentred(req: Utils.Request, i: nat)
    requires Utils.WellFormed(req) && UniformMargins(req)
    requires Utils.Layout(req).Some? && i < req.numImages
    ensures var g, cells, p := Utils.ChooseGrid(req), Utils.FinalCells(req), Utils.Layout(req).value[i];
      var margin, sp := req.marginLeft, req.imageSpacing;
      var band := req.captionFontSizes[i] + req.captionMarginTopBottom * 2.0;
      && g.cols == cells.cols > 0 && g.rows == cells.rows > 0
      && cells.cellWidth == (req.pageWidth - 2.0 * margin) / g.cols as real
      && cells.cellHeight == (req.pageHeight - 2.0 * margin) / g.rows as real
      && p.image.x + p.image.width / 2.0
         == margin + (i % g.cols) as real * cells.cellWidth + (cells.cellWidth - sp) / 2.0
      && p.image.yRealtime + (p.image.height + band) / 2.0
         == margin + (i / g.cols) as real * cells.cellHeight + (cells.cellHeight - sp) / 2.0
  {
    Utils.LayoutInInputOrder(req);
    Utils.LayoutCells(req);
    Utils.PlaceItemGeometry(Utils.FinalCells(req), req.marginLeft, req.marginTop, req.pageHeight,
                            req.captionMarginTopBottom, i, req.imageAspectRatios[i], req.captionFontSizes[i]);
  }

  /** The same item keeps its aspect ratio exactly, carries its own caption one gap
      below it, and both rectangles' two vertical positions mirror each other
      (script.js:345-372). */
  lemma UniformItemGeometry(req: Utils.Request, i: nat)
    requires Utils.WellFormed(req) && UniformMargins(req)
    requires Utils.Layout(req).Some? && i < req.numImages
    ensures var p := Utils.Layout(req).value[i];
      && p.image.width == p.image.height * req.imageAspectRatios[i]
      && p.caption.x == p.image.x && p.caption.width == p.image.width
      && p.caption.height == req.captionFontSizes[i]
      && p.caption.yRealtime == p.image.yRealtime + p.image.height + req.captionMarginTopBottom
      && p.image.yPdf + p.image.height == req.pageHeight - p.image.yRealtime
      && p.caption.yPdf + p.caption.height == req.pageHeight - p.caption.yRealtime
  {
    Utils.LayoutInInputOrder(req);
    Utils.PlaceItemGeometry(Utils.FinalCells(req), req.marginLeft, req.marginTop, req.pageHeight,
                            req.captionMarginTopBottom, i, req.imageAspectRatios[i], req.captionFontSizes[i]);
  }
}
