/** The grid placement engine of utils.js: `calculateImagePlacements` with four
    independent page margins.  Lengths are exact reals (JavaScript numbers without
    rounding), counts and indices are naturals.

    The engine is written as the source has it, as methods with loops
    (AllImagesFit, SearchColumns, PlaceImages, CalculateImagePlacements), and each
    method is proved equal to a specification function (SearchUpTo, ChooseGrid,
    PlaceAll, Layout).  The lemmas below state what those functions guarantee. */
module Utils {
  import opened Wrappers

  // ---------------------------------------------------------------- data model

  /** A rectangle, with its vertical position in both frames: `yRealtime` is the top
      edge measured downwards from the top of the page (the on-screen preview),
      `yPdf` is the bottom edge measured upwards from the bottom (page embedding). */
  datatype Rect = Rect(x: real, yPdf: real, yRealtime: real, width: real, height: real)

  /** What the engine returns for one item: the image and its caption. */
  datatype Placement = Placement(image: Rect, caption: Rect)

  datatype Size = Size(width: real, height: real)

  /** A grid shape: columns by rows. */
  datatype Grid = Grid(cols: nat, rows: nat)

  /** The state of the automatic column search: best columns and rows so far and
      the block area they give. */
  datatype Best = Best(cols: nat, rows: nat, area: real)

  /** The sizes of the chosen grid: a cell is one slot of the usable area, a block
      is a cell minus the inter-image spacing. */
  datatype Cells = Cells(cols: nat, rows: nat, cellWidth: real, cellHeight: real,
                         blockWidth: real, blockHeight: real)

  /** The arguments of `calculateImagePlacements`, in the source's order. */
  datatype Request = Request(
    numImages: nat,
    pageWidth: real, pageHeight: real,
    marginTop: real, marginBottom: real, marginLeft: real, marginRight: real,
    imageSpacing: real,
    userColumns: int,
    imageAspectRatios: seq<real>,
    captionFontSizes: seq<real>,
    captionMarginTopBottom: real)

  predicate AllPositive(s: seq<real>) {
    forall j :: 0 <= j < |s| ==> s[j] > 0.0
  }

  /** What every caller supplies: one aspect ratio and one caption size per image,
      the ratios being width / height of real images. */
  predicate WellFormed(req: Request) {
    && |req.imageAspectRatios| == req.numImages
    && |req.captionFontSizes| == req.numImages
    && AllPositive(req.imageAspectRatios)
  }

  function UsableWidth(req: Request): real {
    req.pageWidth - req.marginLeft - req.marginRight
  }

  function UsableHeight(req: Request): real {
    req.pageHeight - req.marginTop - req.marginBottom
  }

  // ---------------------------------------------------------------- arithmetic helpers

  /** `Math.ceil(n / d)` for a count and a positive divisor: the least k with k * d >= n. */
  function CeilDiv(n: nat, d: nat): (k: nat)
    requires d > 0
    ensures k * d >= n
    ensures k == 0 || (k - 1) * d < n
  {
    var q := (n + d - 1) / d;
    var r := (n + d - 1) % d;
    assert n + d - 1 == q * d + r && 0 <= r < d;
    assert q * d >= n;
    assert q == 0 || (q - 1) * d == q * d - d;
    q
  }

  /** Every item's row index `Math.floor(i / cols)` is a row of the grid. */
  lemma RowInRange(i: nat, n: nat, cols: nat)
    requires cols > 0 && i < n
    ensures 0 <= i / cols < CeilDiv(n, cols)
    ensures 0 <= i % cols < cols
  {
    var k := CeilDiv(n, cols);
    var q := i / cols;
    assert q * cols <= i;
  }

  /** `Math.max(...s)` of a non-empty list. */
  function MaxOf(s: seq<real>): (m: real)
    requires |s| > 0
    ensures m in s
    ensures forall j :: 0 <= j < |s| ==> s[j] <= m
  {
    if |s| == 1 then s[0]
    else
      var rest := MaxOf(s[1..]);
      assert forall j :: 1 <= j < |s| ==> s[j] == s[1..][j - 1];
      if s[0] > rest then s[0] else rest
  }

  // ---------------------------------------------------------------- fitting one image

  /** Width first, then clamped to the height: the image takes the whole block width
      unless that makes it taller than `roomHeight`, and then it takes `roomHeight`
      and the width that keeps its aspect ratio (utils.js:127-133 and 176-182). */
  function FitImage(blockWidth: real, roomHeight: real, aspectRatio: real): (s: Size)
    requires aspectRatio > 0.0
    ensures s.width == s.height * aspectRatio
    ensures s.width <= blockWidth && s.height <= roomHeight
    ensures s.width == blockWidth || s.height == roomHeight
  {
    assert blockWidth / aspectRatio * aspectRatio == blockWidth;
    if blockWidth / aspectRatio > roomHeight then
      assert roomHeight * aspectRatio < blockWidth / aspectRatio * aspectRatio;
      Size(roomHeight * aspectRatio, roomHeight)
    else
      Size(blockWidth, blockWidth / aspectRatio)
  }

  /** No image of the same aspect ratio that keeps within both bounds is larger
      than the one FitImage picks. */
  lemma FitImageIsLargest(blockWidth: real, roomHeight: real, aspectRatio: real, other: Size)
    requires aspectRatio > 0.0
    requires other.width == other.height * aspectRatio
    requires other.width <= blockWidth && other.height <= roomHeight
    ensures other.width <= FitImage(blockWidth, roomHeight, aspectRatio).width
    ensures other.height <= FitImage(blockWidth, roomHeight, aspectRatio).height
  {
    var s := FitImage(blockWidth, roomHeight, aspectRatio);
    if s.height == roomHeight {
      assert other.height * aspectRatio <= roomHeight * aspectRatio;
    } else {
      assert s.width == blockWidth;
    }
  }

  /** With a positive block width, the fitted image has a positive height exactly when
      there is positive room under the caption band; otherwise its height is that room. */
  lemma FitImagePositive(blockWidth: real, roomHeight: real, aspectRatio: real)
    requires blockWidth > 0.0 && aspectRatio > 0.0
    ensures FitImage(blockWidth, roomHeight, aspectRatio).height > 0.0 <==> roomHeight > 0.0
    ensures roomHeight <= 0.0 ==> FitImage(blockWidth, roomHeight, aspectRatio).height == roomHeight
  {
    assert blockWidth / aspectRatio > 0.0;
  }

  /** The test the column search makes for one image (utils.js:121-138): there must
      be room for an image under the caption band, and the fitted image must not
      exceed the block width or that room. */
  predicate ImagePassesFitTest(blockWidth: real, roomHeight: real, aspectRatio: real)
    requires aspectRatio > 0.0
  {
    && roomHeight > 0.0
    && var s := FitImage(blockWidth, roomHeight, aspectRatio);
       !(s.width > blockWidth || s.height > roomHeight)
  }

  // ---------------------------------------------------------------- the column search

  function BlockWidth(usableWidth: real, imageSpacing: real, cols: nat): real
    requires cols > 0
  {
    usableWidth / cols as real - imageSpacing
  }

  function BlockHeight(usableHeight: real, imageSpacing: real, rows: nat): real
    requires rows > 0
  {
    usableHeight / rows as real - imageSpacing
  }

  /** Whether the search accepts `cols` columns for `numImages` images
      (utils.js:105-139), as the source tests it. */
  predicate CandidateFits(numImages: nat, usableWidth: real, usableHeight: real, imageSpacing: real,
                          captionBand: real, aspectRatios: seq<real>, cols: nat)
    requires 0 < cols <= numImages && AllPositive(aspectRatios)
  {
    var blockWidth := BlockWidth(usableWidth, imageSpacing, cols);
    var blockHeight := BlockHeight(usableHeight, imageSpacing, CeilDiv(numImages, cols));
    && blockWidth > 0.0
    && blockHeight > 0.0
    && forall j :: 0 <= j < |aspectRatios| ==>
         ImagePassesFitTest(blockWidth, blockHeight - captionBand, aspectRatios[j])
  }

  /** The plain condition behind CandidateFits: both block sides are positive and
      the block is taller than the caption band. */
  predicate HasRoom(numImages: nat, usableWidth: real, usableHeight: real, imageSpacing: real,
                    captionBand: real, cols: nat)
    requires 0 < cols <= numImages
  {
    var blockWidth := BlockWidth(usableWidth, imageSpacing, cols);
    var blockHeight := BlockHeight(usableHeight, imageSpacing, CeilDiv(numImages, cols));
    blockWidth > 0.0 && blockHeight > 0.0 && blockHeight - captionBand > 0.0
  }

  /** The block area `blockUsableWidth * blockUsableHeight` the search maximises. */
  function CandidateArea(numImages: nat, usableWidth: real, usableHeight: real, imageSpacing: real,
                         cols: nat): real
    requires 0 < cols <= numImages
  {
    BlockWidth(usableWidth, imageSpacing, cols)
      * BlockHeight(usableHeight, imageSpacing, CeilDiv(numImages, cols))
  }

  /** For positive aspect ratios the overflow test after the clamp never fires, so a
      candidate fits exactly when it has room (utils.js:114-139). */
  lemma CandidateFitsIffHasRoom(numImages: nat, usableWidth: real, usableHeight: real,
                                imageSpacing: real, captionBand: real, aspectRatios: seq<real>,
                                cols: nat)
    requires 0 < cols <= numImages && |aspectRatios| == numImages && AllPositive(aspectRatios)
    ensures CandidateFits(numImages, usableWidth, usableHeight, imageSpacing, captionBand, aspectRatios, cols)
        <==> HasRoom(numImages, usableWidth, usableHeight, imageSpacing, captionBand, cols)
  {
    var blockWidth := BlockWidth(usableWidth, imageSpacing, cols);
    var blockHeight := BlockHeight(usableHeight, imageSpacing, CeilDiv(numImages, cols));
    assert ImagePassesFitTest(blockWidth, blockHeight - captionBand, aspectRatios[0])
       <==> blockHeight - captionBand > 0.0;
  }

  /** The search over `cols = 1 .. k` (utils.js:103-148): a candidate replaces the
      best so far only when it fits and its area is strictly larger.  Before any
      candidate the best is one column, `ceil(n / 1)` rows and area 0. */
  function SearchUpTo(numImages: nat, usableWidth: real, usableHeight: real, imageSpacing: real,
                      captionBand: real, aspectRatios: seq<real>, k: nat): (b: Best)
    requires k <= numImages && AllPositive(aspectRatios)
    ensures 1 <= b.cols && (k > 0 ==> b.cols <= k)
    ensures b.rows == CeilDiv(numImages, b.cols) && b.area >= 0.0
  {
    if k == 0 then
      assert CeilDiv(numImages, 1) == numImages;
      Best(1, numImages, 0.0)
    else
      var before := SearchUpTo(numImages, usableWidth, usableHeight, imageSpacing, captionBand, aspectRatios, k - 1);
      if CandidateFits(numImages, usableWidth, usableHeight, imageSpacing, captionBand, aspectRatios, k)
         && CandidateArea(numImages, usableWidth, usableHeight, imageSpacing, k) > before.area
      then Best(k, CeilDiv(numImages, k), CandidateArea(numImages, usableWidth, usableHeight, imageSpacing, k))
      else before
  }

  /** One step of the search, in the terms the source's loop body computes: the
      block sides of the candidate and the verdict of the inner fit loop. */
  lemma SearchUpToStep(numImages: nat, usableWidth: real, usableHeight: real, imageSpacing: real,
                       captionBand: real, aspectRatios: seq<real>, k: nat,
                       blockWidth: real, blockHeight: real, allImagesFit: bool)
    requires 0 < k <= numImages && |aspectRatios| == numImages && AllPositive(aspectRatios)
    requires blockWidth == BlockWidth(usableWidth, imageSpacing, k)
    requires blockHeight == BlockHeight(usableHeight, imageSpacing, CeilDiv(numImages, k))
    requires blockWidth > 0.0 && blockHeight > 0.0 ==> (allImagesFit <==> blockHeight - captionBand > 0.0)
    ensures var before := SearchUpTo(numImages, usableWidth, usableHeight, imageSpacing, captionBand, aspectRatios, k - 1);
      SearchUpTo(numImages, usableWidth, usableHeight, imageSpacing, captionBand, aspectRatios, k)
        == if blockWidth > 0.0 && blockHeight > 0.0 && allImagesFit && blockWidth * blockHeight > before.area
           then Best(k, CeilDiv(numImages, k), blockWidth * blockHeight)
           else before
  {
    CandidateFitsIffHasRoom(numImages, usableWidth, usableHeight, imageSpacing, captionBand, aspectRatios, k);
    assert CandidateArea(numImages, usableWidth, usableHeight, imageSpacing, k) == blockWidth * blockHeight;
    assert HasRoom(numImages, usableWidth, usableHeight, imageSpacing, captionBand, k)
       == (blockWidth > 0.0 && blockHeight > 0.0 && blockHeight - captionBand > 0.0);
  }

  /** One step of the search, with the plain room condition in place of the fit test. */
  lemma SearchUpToRoomStep(numImages: nat, usableWidth: real, usableHeight: real, imageSpacing: real,
                           captionBand: real, aspectRatios: seq<real>, k: nat)
    requires 0 < k <= numImages && |aspectRatios| == numImages && AllPositive(aspectRatios)
    ensures var before := SearchUpTo(numImages, usableWidth, usableHeight, imageSpacing, captionBand, aspectRatios, k - 1);
      SearchUpTo(numImages, usableWidth, usableHeight, imageSpacing, captionBand, aspectRatios, k)
        == if HasRoom(numImages, usableWidth, usableHeight, imageSpacing, captionBand, k)
              && CandidateArea(numImages, usableWidth, usableHeight, imageSpacing, k) > before.area
           then Best(k, CeilDiv(numImages, k), CandidateArea(numImages, usableWidth, usableHeight, imageSpacing, k))
           else before
  {
    CandidateFitsIffHasRoom(numImages, usableWidth, usableHeight, imageSpacing, captionBand, aspectRatios, k);
  }

  /** A candidate with room has a positive block area, so it beats the initial area 0. */
  lemma RoomGivesPositiveArea(numImages: nat, usableWidth: real, usableHeight: real, imageSpacing: real,
                              captionBand: real, cols: nat)
    requires 0 < cols <= numImages
    requires HasRoom(numImages, usableWidth, usableHeight, imageSpacing, captionBand, cols)
    ensures CandidateArea(numImages, usableWidth, usableHeight, imageSpacing, cols) > 0.0
  {
    var blockWidth := BlockWidth(usableWidth, imageSpacing, cols);
    var blockHeight := BlockHeight(usableHeight, imageSpacing, CeilDiv(numImages, cols));
    assert blockWidth * blockHeight > 0.0;
  }

  /** While no candidate among 1 .. k has room, the search keeps its initial state:
      one column, `ceil(n / 1)` rows, area 0. */
  lemma {:induction false} SearchUpToWithoutRoom(numImages: nat, usableWidth: real, usableHeight: real,
                                                 imageSpacing: real, captionBand: real,
                                                 aspectRatios: seq<real>, k: nat)
    requires k <= numImages && |aspectRatios| == numImages && AllPositive(aspectRatios)
    requires forall c :: 1 <= c <= k ==> !HasRoom(numImages, usableWidth, usableHeight, imageSpacing, captionBand, c)
    ensures SearchUpTo(numImages, usableWidth, usableHeight, imageSpacing, captionBand, aspectRatios, k)
         == Best(1, numImages, 0.0)
  {
    if k > 0 {
      SearchUpToWithoutRoom(numImages, usableWidth, usableHeight, imageSpacing, captionBand, aspectRatios, k - 1);
      SearchUpToRoomStep(numImages, usableWidth, usableHeight, imageSpacing, captionBand, aspectRatios, k);
    }
  }

  /** The search result after the candidates 1 .. k, when one of them has room:
      a candidate with room, of largest block area among those with room, and every
      candidate with room before it has a strictly smaller area (the first maximum
      wins, because the comparison at utils.js:142 is strict). */
  predicate IsFirstLargest(numImages: nat, usableWidth: real, usableHeight: real, imageSpacing: real,
                           captionBand: real, k: nat, b: Best)
    requires k <= numImages
  {
    && 1 <= b.cols <= k
    && HasRoom(numImages, usableWidth, usableHeight, imageSpacing, captionBand, b.cols)
    && b.rows == CeilDiv(numImages, b.cols)
    && b.area == CandidateArea(numImages, usableWidth, usableHeight, imageSpacing, b.cols)
    && (forall c :: 1 <= c <= k && HasRoom(numImages, usableWidth, usableHeight, imageSpacing, captionBand, c)
          ==> CandidateArea(numImages, usableWidth, usableHeight, imageSpacing, c) <= b.area)
    && (forall c :: 1 <= c < b.cols && HasRoom(numImages, usableWidth, usableHeight, imageSpacing, captionBand, c)
          ==> CandidateArea(numImages, usableWidth, usableHeight, imageSpacing, c) < b.area)
  }

  lemma {:induction false} SearchUpToIsFirstLargest(numImages: nat, usableWidth: real, usableHeight: real,
                                                    imageSpacing: real, captionBand: real,
                                                    aspectRatios: seq<real>, k: nat, roomy: nat)
    requires k <= numImages && |aspectRatios| == numImages && AllPositive(aspectRatios)
    requires 1 <= roomy <= k && HasRoom(numImages, usableWidth, usableHeight, imageSpacing, captionBand, roomy)
    ensures IsFirstLargest(numImages, usableWidth, usableHeight, imageSpacing, captionBand, k,
                           SearchUpTo(numImages, usableWidth, usableHeight, imageSpacing, captionBand, aspectRatios, k))
  {
    var room := HasRoom(numImages, usableWidth, usableHeight, imageSpacing, captionBand, k);
    SearchUpToRoomStep(numImages, usableWidth, usableHeight, imageSpacing, captionBand, aspectRatios, k);
    if roomy == k {
      RoomGivesPositiveArea(numImages, usableWidth, usableHeight, imageSpacing, captionBand, k);
      if exists c :: 1 <= c <= k - 1 && HasRoom(numImages, usableWidth, usableHeight, imageSpacing, captionBand, c) {
        var c :| 1 <= c <= k - 1 && HasRoom(numImages, usableWidth, usableHeight, imageSpacing, captionBand, c);
        SearchUpToIsFirstLargest(numImages, usableWidth, usableHeight, imageSpacing, captionBand, aspectRatios, k - 1, c);
      } else {
        SearchUpToWithoutRoom(numImages, usableWidth, usableHeight, imageSpacing, captionBand, aspectRatios, k - 1);
      }
    } else {
      SearchUpToIsFirstLargest(numImages, usableWidth, usableHeight, imageSpacing, captionBand, aspectRatios, k - 1, roomy);
      if room {
        RoomGivesPositiveArea(numImages, usableWidth, usableHeight, imageSpacing, captionBand, k);
      }
    }
  }

  // ---------------------------------------------------------------- choosing the grid

  /** `userColumns > 0` pins the columns, a negative hint pins one column, and 0 runs
      the search with the largest caption size standing in for every caption
      (utils.js:99-149). */
  function ChooseGrid(req: Request): (g: Grid)
    requires WellFormed(req)
    ensures 1 <= g.cols && g.rows == CeilDiv(req.numImages, g.cols)
    ensures req.userColumns > 0 ==> g.cols == req.userColumns
    ensures req.userColumns < 0 ==> g.cols == 1
    ensures req.userColumns == 0 && req.numImages > 0 ==> g.cols <= req.numImages
  {
    var initial: nat := if req.userColumns > 0 then req.userColumns as nat else 1;
    if req.userColumns == 0 && req.numImages > 0 then
      var b := SearchUpTo(req.numImages, UsableWidth(req), UsableHeight(req), req.imageSpacing,
                          SearchCaptionBand(req), req.imageAspectRatios, req.numImages);
      Grid(b.cols, b.rows)
    else
      Grid(initial, CeilDiv(req.numImages, initial))
  }

  /** The caption band the search uses for every item: the largest caption size
      plus the gap above and below it (utils.js:117-118). */
  function SearchCaptionBand(req: Request): real
    requires WellFormed(req) && req.numImages > 0
  {
    MaxOf(req.captionFontSizes) + req.captionMarginTopBottom * 2.0
  }

  function MakeCells(usableWidth: real, usableHeight: real, imageSpacing: real, g: Grid): Cells
    requires g.cols > 0 && g.rows > 0
  {
    var cellWidth := usableWidth / g.cols as real;
    var cellHeight := usableHeight / g.rows as real;
    Cells(g.cols, g.rows, cellWidth, cellHeight, cellWidth - imageSpacing, cellHeight - imageSpacing)
  }

  function FinalCells(req: Request): Cells
    requires WellFormed(req) && ChooseGrid(req).cols > 0 && ChooseGrid(req).rows > 0
  {
    MakeCells(UsableWidth(req), UsableHeight(req), req.imageSpacing, ChooseGrid(req))
  }

  // ---------------------------------------------------------------- placing the items

  /** Item i of the grid (utils.js:167-213) sits in column `i % cols` and row `i / cols`. */
  function PlaceItem(cells: Cells, originX: real, originY: real, pageHeight: real, captionGap: real,
                     i: nat, aspectRatio: real, captionFontSize: real): Placement
    requires cells.cols > 0 && aspectRatio > 0.0
  {
    PlaceAt(cells, originX, originY, pageHeight, captionGap, i % cells.cols, i / cells.cols,
            aspectRatio, captionFontSize)
  }

  /** The item in cell (col, row) (utils.js:170-213): its image is fitted under its own
      caption band and centred with the band inside the block; the caption follows the
      image one gap lower. */
  function PlaceAt(cells: Cells, originX: real, originY: real, pageHeight: real, captionGap: real,
                   col: nat, row: nat, aspectRatio: real, captionFontSize: real): (p: Placement)
    requires aspectRatio > 0.0
    ensures var band := captionFontSize + captionGap * 2.0;
      && p.image.width == p.image.height * aspectRatio
      && p.image.width <= cells.blockWidth && p.image.height <= cells.blockHeight - band
      && p.image.x + p.image.width / 2.0 == originX + col as real * cells.cellWidth + cells.blockWidth / 2.0
      && p.image.yRealtime + (p.image.height + band) / 2.0
         == originY + row as real * cells.cellHeight + cells.blockHeight / 2.0
  {
    var band := captionFontSize + captionGap * 2.0;
    var s := FitImage(cells.blockWidth, cells.blockHeight - band, aspectRatio);
    var x := originX + col as real * cells.cellWidth + (cells.blockWidth - s.width) / 2.0;
    var y := originY + row as real * cells.cellHeight + (cells.blockHeight - (s.height + band)) / 2.0;
    var captionY := y + s.height + captionGap;
    Placement(Rect(x, pageHeight - (y + s.height), y, s.width, s.height),
              Rect(x, pageHeight - (captionY + captionFontSize), captionY, s.width, captionFontSize))
  }

  function PlaceAll(cells: Cells, originX: real, originY: real, pageHeight: real, captionGap: real,
                    aspectRatios: seq<real>, captionFontSizes: seq<real>): (r: seq<Placement>)
    requires cells.cols > 0 && |aspectRatios| == |captionFontSizes| && AllPositive(aspectRatios)
    ensures |r| == |aspectRatios|
    ensures forall i :: 0 <= i < |r| ==>
      r[i].image.width == r[i].image.height * aspectRatios[i] && r[i].caption.height == captionFontSizes[i]
  {
    seq(|aspectRatios|, i requires 0 <= i < |aspectRatios| =>
      PlaceItem(cells, originX, originY, pageHeight, captionGap, i, aspectRatios[i], captionFontSizes[i]))
  }

  /** What `calculateImagePlacements` returns: `None` for `null`. */
  function Layout(req: Request): (r: Option<seq<Placement>>)
    requires WellFormed(req)
    ensures req.numImages == 0 ==> r == None
    ensures r.Some? ==> |r.value| == req.numImages
  {
    var g := ChooseGrid(req);
    if g.cols == 0 || g.rows == 0 then None
    else
      var cells := FinalCells(req);
      if cells.blockWidth <= 0.0 || cells.blockHeight <= 0.0 then None
      else Some(PlaceAll(cells, req.marginLeft, req.marginTop, req.pageHeight, req.captionMarginTopBottom,
                         req.imageAspectRatios, req.captionFontSizes))
  }

  // ---------------------------------------------------------------- what the result guarantees

  /** A positive hint pins the columns and a negative hint pins one column; no search
      runs (utils.js:99-102). */
  lemma ColumnsFromHint(req: Request)
    requires WellFormed(req) && req.userColumns != 0
    ensures req.userColumns > 0 ==>
      ChooseGrid(req) == Grid(req.userColumns as nat, CeilDiv(req.numImages, req.userColumns as nat))
    ensures req.userColumns < 0 ==> ChooseGrid(req) == Grid(1, req.numImages)
  {
  }

  /** Automatic mode (utils.js:102-148).  The columns are in 1 .. n and the rows are
      `ceil(n / cols)`.  When a candidate has room, the chosen one has room, has the
      largest block area among those with room, and every earlier candidate with room
      has a strictly smaller area.  When none has room, one column and n rows remain. */
  lemma AutoColumns(req: Request)
    requires WellFormed(req) && req.userColumns == 0 && req.numImages > 0
    ensures var g := ChooseGrid(req);
      1 <= g.cols <= req.numImages && g.rows == CeilDiv(req.numImages, g.cols)
    ensures var g, n, w, h, sp, band := ChooseGrid(req), req.numImages, UsableWidth(req), UsableHeight(req),
                                        req.imageSpacing, SearchCaptionBand(req);
      (exists c :: 1 <= c <= n && HasRoom(n, w, h, sp, band, c)) ==>
        && 1 <= g.cols <= n
        && HasRoom(n, w, h, sp, band, g.cols)
        && (forall c :: 1 <= c <= n && HasRoom(n, w, h, sp, band, c) ==>
              CandidateArea(n, w, h, sp, c) <= CandidateArea(n, w, h, sp, g.cols))
        && (forall c :: 1 <= c < g.cols && HasRoom(n, w, h, sp, band, c) ==>
              CandidateArea(n, w, h, sp, c) < CandidateArea(n, w, h, sp, g.cols))
    ensures var n, w, h, sp, band := req.numImages, UsableWidth(req), UsableHeight(req),
                                     req.imageSpacing, SearchCaptionBand(req);
      (forall c :: 1 <= c <= n ==> !HasRoom(n, w, h, sp, band, c)) ==> ChooseGrid(req) == Grid(1, n)
  {
    var n, w, h, sp, band := req.numImages, UsableWidth(req), UsableHeight(req), req.imageSpacing, SearchCaptionBand(req);
    if exists c :: 1 <= c <= n && HasRoom(n, w, h, sp, band, c) {
      var c :| 1 <= c <= n && HasRoom(n, w, h, sp, band, c);
      SearchUpToIsFirstLargest(n, w, h, sp, band, req.imageAspectRatios, n, c);
    } else {
      SearchUpToWithoutRoom(n, w, h, sp, band, req.imageAspectRatios, n);
    }
  }

  /** With at least one image the chosen grid has at least one column and
      `ceil(n / cols) >= 1` rows. */
  lemma GridIsProper(req: Request)
    requires WellFormed(req) && req.numImages > 0
    ensures ChooseGrid(req).cols > 0 && ChooseGrid(req).rows > 0
    ensures ChooseGrid(req).rows == CeilDiv(req.numImages, ChooseGrid(req).cols)
  {
    if req.userColumns == 0 {
      AutoColumns(req);
    }
  }

  /** The result is `null` exactly when there are no images, or when the chosen grid's
      block width or height is not positive (utils.js:151-164). */
  lemma LayoutNullIff(req: Request)
    requires WellFormed(req)
    ensures req.numImages == 0 ==> Layout(req) == None
    ensures req.numImages > 0 ==>
      && ChooseGrid(req).cols > 0 && ChooseGrid(req).rows > 0
      && (Layout(req) == None <==>
            || BlockWidth(UsableWidth(req), req.imageSpacing, ChooseGrid(req).cols) <= 0.0
            || BlockHeight(UsableHeight(req), req.imageSpacing, ChooseGrid(req).rows) <= 0.0)
  {
    if req.numImages > 0 {
      GridIsProper(req);
    }
  }

  /** A page whose margins leave no usable width or height gives `null`, whatever the
      columns, when the spacing is not negative. */
  lemma NoUsableAreaGivesNull(req: Request)
    requires WellFormed(req) && req.imageSpacing >= 0.0
    requires UsableWidth(req) <= 0.0 || UsableHeight(req) <= 0.0
    ensures Layout(req) == None
  {
    LayoutNullIff(req);
    if req.numImages > 0 {
      var g := ChooseGrid(req);
      if UsableWidth(req) <= 0.0 {
        NoShareOfNothing(UsableWidth(req), g.cols, req.imageSpacing);
      } else {
        NoShareOfNothing(UsableHeight(req), g.rows, req.imageSpacing);
      }
    }
  }

  /** Dividing a span that is not positive into cells leaves no positive block. */
  lemma NoShareOfNothing(span: real, count: nat, imageSpacing: real)
    requires count > 0 && span <= 0.0 && imageSpacing >= 0.0
    ensures span / count as real - imageSpacing <= 0.0
  {
    assert span / count as real <= 0.0;
  }

  /** On success there is one placement per image, in input order, and placement i is
      item i of the chosen grid fitted with its own aspect ratio and caption size. */
  lemma LayoutInInputOrder(req: Request)
    requires WellFormed(req) && Layout(req).Some?
    ensures ChooseGrid(req).cols > 0 && ChooseGrid(req).rows > 0
    ensures |Layout(req).value| == req.numImages
    ensures forall i :: 0 <= i < req.numImages ==>
      Layout(req).value[i] == PlaceItem(FinalCells(req), req.marginLeft, req.marginTop, req.pageHeight,
                                        req.captionMarginTopBottom, i, req.imageAspectRatios[i],
                                        req.captionFontSizes[i])
  {
  }

  /** The geometry of one item (utils.js:167-213).  The image keeps its aspect ratio
      exactly, stays within the block width and the room under its caption band, and
      fills one of the two.  The image is centred horizontally in the block of cell
      (i % cols, i / cols), and the image with its caption band vertically.  The caption
      has the image's x and width, its own font size as height, and starts one gap
      below the image.  Top-down and bottom-up positions mirror each other. */
  lemma PlaceItemGeometry(cells: Cells, originX: real, originY: real, pageHeight: real, captionGap: real,
                          i: nat, aspectRatio: real, captionFontSize: real)
    requires cells.cols > 0 && aspectRatio > 0.0
    ensures var p := PlaceItem(cells, originX, originY, pageHeight, captionGap, i, aspectRatio, captionFontSize);
      var band := captionFontSize + captionGap * 2.0;
      var cellX := originX + (i % cells.cols) as real * cells.cellWidth;
      var cellY := originY + (i / cells.cols) as real * cells.cellHeight;
      && p.image.width == p.image.height * aspectRatio
      && p.image.width <= cells.blockWidth
      && p.image.height <= cells.blockHeight - band
      && (p.image.width == cells.blockWidth || p.image.height == cells.blockHeight - band)
      && p.image.x + p.image.width / 2.0 == cellX + cells.blockWidth / 2.0
      && p.image.yRealtime + (p.image.height + band) / 2.0 == cellY + cells.blockHeight / 2.0
      && p.caption.x == p.image.x
      && p.caption.width == p.image.width
      && p.caption.height == captionFontSize
      && p.caption.yRealtime == p.image.yRealtime + p.image.height + captionGap
      && p.image.yPdf + p.image.height == pageHeight - p.image.yRealtime
      && p.caption.yPdf + p.caption.height == pageHeight - p.caption.yRealtime
  {
  }

  /** When the block is wider than 0 and taller than the caption band, the image has a
      positive size, and image and caption lie inside the block of their cell, the
      caption below the image (utils.js:184-196). */
  lemma PlaceAtInsideBlock(cells: Cells, originX: real, originY: real, pageHeight: real, captionGap: real,
                           col: nat, row: nat, aspectRatio: real, captionFontSize: real)
    requires aspectRatio > 0.0 && captionGap >= 0.0
    requires cells.blockWidth > 0.0 && cells.blockHeight - (captionFontSize + captionGap * 2.0) > 0.0
    ensures var p := PlaceAt(cells, originX, originY, pageHeight, captionGap, col, row, aspectRatio, captionFontSize);
      var cellX := originX + col as real * cells.cellWidth;
      var cellY := originY + row as real * cells.cellHeight;
      && 0.0 < p.image.width && 0.0 < p.image.height
      && cellX <= p.image.x && p.image.x + p.image.width <= cellX + cells.blockWidth
      && cellY <= p.image.yRealtime
      && p.image.yRealtime + p.image.height <= p.caption.yRealtime
      && p.caption.yRealtime + p.caption.height <= cellY + cells.blockHeight
  {
    var band := captionFontSize + captionGap * 2.0;
    var s := FitImage(cells.blockWidth, cells.blockHeight - band, aspectRatio);
    assert cells.blockWidth / aspectRatio > 0.0;
    assert s.height > 0.0;
    assert s.width > 0.0;
  }

  /** A block of cell k of `count` equal cells spanning `span` lies inside the span. */
  lemma CellInsideSpan(k: nat, count: nat, span: real, cell: real, block: real)
    requires k < count && cell == span / count as real && 0.0 < cell && block <= cell
    ensures 0.0 <= k as real * cell
    ensures k as real * cell + block <= span
  {
    assert (k + 1) as real <= count as real;
    assert (k + 1) as real * cell <= count as real * cell;
    assert count as real * cell == span;
  }

  /** Blocks of earlier cells end before later cells start. */
  lemma CellsInOrder(k1: nat, k2: nat, cell: real, block: real)
    requires k1 < k2 && 0.0 < cell && block <= cell
    ensures k1 as real * cell + block <= k2 as real * cell
  {
    assert (k1 + 1) as real <= k2 as real;
    assert (k1 + 1) as real * cell <= k2 as real * cell;
  }

  /** Cell level: an item in a cell of a grid of `cols` by `rows` equal cells spanning
      `usableWidth` by `usableHeight`, whose block is taller than its caption band, lies with its
      caption inside that area. */
  lemma PlaceAtInsideArea(cells: Cells, originX: real, originY: real, pageHeight: real, captionGap: real,
                          col: nat, row: nat, aspectRatio: real, captionFontSize: real,
                          usableWidth: real, usableHeight: real)
    requires col < cells.cols && row < cells.rows
    requires cells.cellWidth == usableWidth / cells.cols as real
    requires cells.cellHeight == usableHeight / cells.rows as real
    requires 0.0 < cells.blockWidth <= cells.cellWidth && 0.0 < cells.blockHeight <= cells.cellHeight
    requires aspectRatio > 0.0 && captionGap >= 0.0
    requires cells.blockHeight - (captionFontSize + captionGap * 2.0) > 0.0
    ensures var p := PlaceAt(cells, originX, originY, pageHeight, captionGap, col, row, aspectRatio, captionFontSize);
      && originX <= p.image.x
      && p.image.x + p.image.width <= originX + usableWidth
      && originY <= p.image.yRealtime
      && p.image.yRealtime + p.image.height <= p.caption.yRealtime
      && p.caption.yRealtime + p.caption.height <= originY + usableHeight
  {
    PlaceAtInsideBlock(cells, originX, originY, pageHeight, captionGap, col, row, aspectRatio, captionFontSize);
    CellInsideSpan(col, cells.cols, usableWidth, cells.cellWidth, cells.blockWidth);
    CellInsideSpan(row, cells.rows, usableHeight, cells.cellHeight, cells.blockHeight);
  }

  /** What ends inside an earlier block ends before what starts inside a later cell. */
  lemma EndsBefore(end: real, origin: real, startI: real, block: real, startJ: real, start: real)
    requires end <= origin + startI + block && startI + block <= startJ && origin + startJ <= start
    ensures end <= start
  {
  }

  /** Cell level: an item in an earlier column lies left of an item in a later one. */
  lemma PlaceAtLeftOf(cells: Cells, originX: real, originY: real, pageHeight: real, captionGap: real,
                      colI: nat, rowI: nat, arI: real, fsI: real,
                      colJ: nat, rowJ: nat, arJ: real, fsJ: real)
    requires colI < colJ
    requires 0.0 < cells.blockWidth <= cells.cellWidth && 0.0 < cells.blockHeight
    requires arI > 0.0 && arJ > 0.0 && captionGap >= 0.0
    requires cells.blockHeight - (fsI + captionGap * 2.0) > 0.0
    requires cells.blockHeight - (fsJ + captionGap * 2.0) > 0.0
    ensures PlaceAt(cells, originX, originY, pageHeight, captionGap, colI, rowI, arI, fsI).image.x
          + PlaceAt(cells, originX, originY, pageHeight, captionGap, colI, rowI, arI, fsI).image.width
         <= PlaceAt(cells, originX, originY, pageHeight, captionGap, colJ, rowJ, arJ, fsJ).image.x
  {
    var p := PlaceAt(cells, originX, originY, pageHeight, captionGap, colI, rowI, arI, fsI);
    var q := PlaceAt(cells, originX, originY, pageHeight, captionGap, colJ, rowJ, arJ, fsJ);
    var xI, xJ := colI as real * cells.cellWidth, colJ as real * cells.cellWidth;
    assert p.image.x + p.image.width <= originX + xI + cells.blockWidth by {
      PlaceAtInsideBlock(cells, originX, originY, pageHeight, captionGap, colI, rowI, arI, fsI);
    }
    assert originX + xJ <= q.image.x by {
      PlaceAtInsideBlock(cells, originX, originY, pageHeight, captionGap, colJ, rowJ, arJ, fsJ);
    }
    CellsInOrder(colI, colJ, cells.cellWidth, cells.blockWidth);
    EndsBefore(p.image.x + p.image.width, originX, xI, cells.blockWidth, xJ, q.image.x);
  }

  /** Cell level: an item in an earlier row lies, caption included, above an item in a
      later one. */
  lemma PlaceAtAbove(cells: Cells, originX: real, originY: real, pageHeight: real, captionGap: real,
                     colI: nat, rowI: nat, arI: real, fsI: real,
                     colJ: nat, rowJ: nat, arJ: real, fsJ: real)
    requires rowI < rowJ
    requires 0.0 < cells.blockWidth && 0.0 < cells.blockHeight <= cells.cellHeight
    requires arI > 0.0 && arJ > 0.0 && captionGap >= 0.0
    requires cells.blockHeight - (fsI + captionGap * 2.0) > 0.0
    requires cells.blockHeight - (fsJ + captionGap * 2.0) > 0.0
    ensures PlaceAt(cells, originX, originY, pageHeight, captionGap, colI, rowI, arI, fsI).caption.yRealtime
          + PlaceAt(cells, originX, originY, pageHeight, captionGap, colI, rowI, arI, fsI).caption.height
         <= PlaceAt(cells, originX, originY, pageHeight, captionGap, colJ, rowJ, arJ, fsJ).image.yRealtime
  {
    var p := PlaceAt(cells, originX, originY, pageHeight, captionGap, colI, rowI, arI, fsI);
    var q := PlaceAt(cells, originX, originY, pageHeight, captionGap, colJ, rowJ, arJ, fsJ);
    var yI, yJ := rowI as real * cells.cellHeight, rowJ as real * cells.cellHeight;
    assert p.caption.yRealtime + p.caption.height <= originY + yI + cells.blockHeight by {
      PlaceAtInsideBlock(cells, originX, originY, pageHeight, captionGap, colI, rowI, arI, fsI);
    }
    assert originY + yJ <= q.image.yRealtime by {
      PlaceAtInsideBlock(cells, originX, originY, pageHeight, captionGap, colJ, rowJ, arJ, fsJ);
    }
    CellsInOrder(rowI, rowJ, cells.cellHeight, cells.blockHeight);
    EndsBefore(p.caption.yRealtime + p.caption.height, originY, yI, cells.blockHeight, yJ, q.image.yRealtime);
  }

  /** Cell level: of two items whose blocks are taller than their caption bands, the
      one in the earlier cell in reading order lies entirely left of the other (same
      row) or entirely above it (earlier row), caption included. */
  lemma PlaceAtInReadingOrder(cells: Cells, originX: real, originY: real, pageHeight: real, captionGap: real,
                              colI: nat, rowI: nat, arI: real, fsI: real,
                              colJ: nat, rowJ: nat, arJ: real, fsJ: real)
    requires rowI < rowJ || (rowI == rowJ && colI < colJ)
    requires 0.0 < cells.blockWidth <= cells.cellWidth && 0.0 < cells.blockHeight <= cells.cellHeight
    requires arI > 0.0 && arJ > 0.0 && captionGap >= 0.0
    requires cells.blockHeight - (fsI + captionGap * 2.0) > 0.0
    requires cells.blockHeight - (fsJ + captionGap * 2.0) > 0.0
    ensures var p, q := PlaceAt(cells, originX, originY, pageHeight, captionGap, colI, rowI, arI, fsI),
                        PlaceAt(cells, originX, originY, pageHeight, captionGap, colJ, rowJ, arJ, fsJ);
      || p.image.x + p.image.width <= q.image.x
      || p.caption.yRealtime + p.caption.height <= q.image.yRealtime
  {
    if rowI == rowJ {
      PlaceAtLeftOf(cells, originX, originY, pageHeight, captionGap, colI, rowI, arI, fsI, colJ, rowJ, arJ, fsJ);
    } else {
      PlaceAtAbove(cells, originX, originY, pageHeight, captionGap, colI, rowI, arI, fsI, colJ, rowJ, arJ, fsJ);
    }
  }

  /** A product with a positive factor is positive only when the other factor is. */
  lemma ProductSign(d: int, c: int)
    requires c > 0
    ensures d * c > 0 ==> d > 0
  {
    if d <= 0 {
      assert d * c <= 0 * c;
    }
  }

  /** A later index is in a later row, or in the same row and a later column. */
  lemma LaterIndexLaterCell(i: nat, j: nat, c: nat)
    requires i < j && c > 0
    ensures 0 <= i / c && 0 <= i % c && 0 <= j / c && 0 <= j % c
    ensures i / c < j / c || (i / c == j / c && i % c < j % c)
  {
    var qi, qj := i / c, j / c;
    assert i == qi * c + i % c && j == qj * c + j % c;
    assert (qj + 1 - qi) * c == qj * c + c - qi * c;
    ProductSign(qj + 1 - qi, c);
  }

  /** On success the cells are those of the chosen grid, each block is positive and,
      with a spacing that is not negative, no larger than its cell. */
  lemma LayoutCells(req: Request)
    requires WellFormed(req) && Layout(req).Some?
    ensures var g, cells := ChooseGrid(req), FinalCells(req);
      && 0 < g.cols == cells.cols && 0 < g.rows == cells.rows
      && g.rows == CeilDiv(req.numImages, g.cols)
      && cells.cellWidth == UsableWidth(req) / g.cols as real
      && cells.cellHeight == UsableHeight(req) / g.rows as real
      && 0.0 < cells.blockWidth == cells.cellWidth - req.imageSpacing
      && 0.0 < cells.blockHeight == cells.cellHeight - req.imageSpacing
  {
    LayoutNullIff(req);
    GridIsProper(req);
  }

  /** Whenever an image has a positive height, it and its caption stay inside the
      usable area, that is within the four margins (spacing and gap not negative). */
  lemma LayoutInsideMargins(req: Request, i: nat)
    requires WellFormed(req) && Layout(req).Some? && i < req.numImages
    requires req.imageSpacing >= 0.0 && req.captionMarginTopBottom >= 0.0
    requires Layout(req).value[i].image.height > 0.0
    ensures var p := Layout(req).value[i];
      && req.marginLeft <= p.image.x
      && p.image.x + p.image.width <= req.pageWidth - req.marginRight
      && req.marginTop <= p.image.yRealtime
      && p.image.yRealtime + p.image.height <= p.caption.yRealtime
      && p.caption.yRealtime + p.caption.height <= req.pageHeight - req.marginBottom
  {
    LayoutInInputOrder(req);
    LayoutCells(req);
    var cells := FinalCells(req);
    var col, row, gap := i % cells.cols, i / cells.cols, req.captionMarginTopBottom;
    var ar, fs := req.imageAspectRatios[i], req.captionFontSizes[i];
    RowInRange(i, req.numImages, cells.cols);
    assert Layout(req).value[i] == PlaceItem(cells, req.marginLeft, req.marginTop, req.pageHeight, gap, i, ar, fs);
    assert PlaceItem(cells, req.marginLeft, req.marginTop, req.pageHeight, gap, i, ar, fs)
        == PlaceAt(cells, req.marginLeft, req.marginTop, req.pageHeight, gap, col, row, ar, fs);
    assert PlaceAt(cells, req.marginLeft, req.marginTop, req.pageHeight, gap, col, row, ar, fs).image.height
        == FitImage(cells.blockWidth, cells.blockHeight - (fs + gap * 2.0), ar).height;
    FitImagePositive(cells.blockWidth, cells.blockHeight - (fs + gap * 2.0), ar);
    assert cells.blockHeight - (fs + gap * 2.0) > 0.0;
    assert col < cells.cols && row < cells.rows;
    PlaceAtInsideArea(cells, req.marginLeft, req.marginTop, req.pageHeight, gap, col, row, ar, fs,
                      UsableWidth(req), UsableHeight(req));
  }

  /** Images do not overlap: when both have a positive height, an earlier item lies
      entirely left of a later one, or entirely above it, caption included (spacing
      and gap not negative). */
  lemma LayoutInReadingOrder(req: Request, i: nat, j: nat)
    requires WellFormed(req) && Layout(req).Some? && i < j < req.numImages
    requires req.imageSpacing >= 0.0 && req.captionMarginTopBottom >= 0.0
    requires Layout(req).value[i].image.height > 0.0 && Layout(req).value[j].image.height > 0.0
    ensures var p, q := Layout(req).value[i], Layout(req).value[j];
      || p.image.x + p.image.width <= q.image.x
      || p.caption.yRealtime + p.caption.height <= q.image.yRealtime
  {
    LayoutInInputOrder(req);
    LayoutCells(req);
    var cells := FinalCells(req);
    var gap := req.captionMarginTopBottom;
    var arI, fsI, arJ, fsJ := req.imageAspectRatios[i], req.captionFontSizes[i], req.imageAspectRatios[j], req.captionFontSizes[j];
    LaterIndexLaterCell(i, j, cells.cols);
    assert Layout(req).value[i] == PlaceItem(cells, req.marginLeft, req.marginTop, req.pageHeight, gap, i, arI, fsI);
    assert Layout(req).value[j] == PlaceItem(cells, req.marginLeft, req.marginTop, req.pageHeight, gap, j, arJ, fsJ);
    var colI, rowI, colJ, rowJ := i % cells.cols, i / cells.cols, j % cells.cols, j / cells.cols;
    assert PlaceItem(cells, req.marginLeft, req.marginTop, req.pageHeight, gap, i, arI, fsI)
        == PlaceAt(cells, req.marginLeft, req.marginTop, req.pageHeight, gap, colI, rowI, arI, fsI);
    assert PlaceItem(cells, req.marginLeft, req.marginTop, req.pageHeight, gap, j, arJ, fsJ)
        == PlaceAt(cells, req.marginLeft, req.marginTop, req.pageHeight, gap, colJ, rowJ, arJ, fsJ);
    assert PlaceAt(cells, req.marginLeft, req.marginTop, req.pageHeight, gap, colI, rowI, arI, fsI).image.height
        == FitImage(cells.blockWidth, cells.blockHeight - (fsI + gap * 2.0), arI).height;
    assert PlaceAt(cells, req.marginLeft, req.marginTop, req.pageHeight, gap, colJ, rowJ, arJ, fsJ).image.height
        == FitImage(cells.blockWidth, cells.blockHeight - (fsJ + gap * 2.0), arJ).height;
    FitImagePositive(cells.blockWidth, cells.blockHeight - (fsI + gap * 2.0), arI);
    FitImagePositive(cells.blockWidth, cells.blockHeight - (fsJ + gap * 2.0), arJ);
    assert cells.blockHeight - (fsI + gap * 2.0) > 0.0;
    assert cells.blockHeight - (fsJ + gap * 2.0) > 0.0;
    PlaceAtInReadingOrder(cells, req.marginLeft, req.marginTop, req.pageHeight, gap,
                          colI, rowI, arI, fsI, colJ, rowJ, arJ, fsJ);
  }

  // ---------------------------------------------------------------- the engine, as the source runs it

  /** The inner loop of the search (utils.js:116-139): it stops at the first image
      that fails the fit test.  For positive aspect ratios only the room under the
      caption band decides. */
  method AllImagesFit(aspectRatios: seq<real>, blockWidth: real, blockHeight: real, captionBand: real)
    returns (allImagesFit: bool)
    requires AllPositive(aspectRatios)
    ensures allImagesFit <==> |aspectRatios| == 0 || blockHeight - captionBand > 0.0
    ensures allImagesFit <==>
      forall j :: 0 <= j < |aspectRatios| ==> ImagePassesFitTest(blockWidth, blockHeight - captionBand, aspectRatios[j])
  {
    allImagesFit := true;
    var j := 0;
    while j < |aspectRatios|
      invariant 0 <= j <= |aspectRatios|
      invariant allImagesFit
      invariant forall k :: 0 <= k < j ==> ImagePassesFitTest(blockWidth, blockHeight - captionBand, aspectRatios[k])
      invariant j > 0 ==> blockHeight - captionBand > 0.0
    {
      var aspectRatio := aspectRatios[j];
      var imageOnlyUsableHeight := blockHeight - captionBand;
      if imageOnlyUsableHeight <= 0.0 {
        allImagesFit := false;
        break;
      }
      var currentImgWidth := blockWidth;
      var currentImgHeight := blockWidth / aspectRatio;
      if currentImgHeight > imageOnlyUsableHeight {
        currentImgHeight := imageOnlyUsableHeight;
        currentImgWidth := imageOnlyUsableHeight * aspectRatio;
      }
      assert Size(currentImgWidth, currentImgHeight) == FitImage(blockWidth, imageOnlyUsableHeight, aspectRatio);
      if currentImgWidth > blockWidth || currentImgHeight > imageOnlyUsableHeight {
        allImagesFit := false;
        break;
      }
      j := j + 1;
    }
  }

  /** The automatic column search (utils.js:103-148), starting from one column. */
  method SearchColumns(numImages: nat, usableWidth: real, usableHeight: real, imageSpacing: real,
                       imageAspectRatios: seq<real>, captionFontSizes: seq<real>, captionMarginTopBottom: real)
    returns (bestCols: nat, bestRows: nat)
    requires |imageAspectRatios| == numImages && |captionFontSizes| == numImages
    requires AllPositive(imageAspectRatios)
    ensures numImages == 0 ==> bestCols == 1 && bestRows == 0
    ensures numImages > 0 ==>
      var b := SearchUpTo(numImages, usableWidth, usableHeight, imageSpacing,
                          MaxOf(captionFontSizes) + captionMarginTopBottom * 2.0, imageAspectRatios, numImages);
      bestCols == b.cols && bestRows == b.rows
  {
    bestCols, bestRows := 1, CeilDiv(numImages, 1);
    var currentBestArea := 0.0;
    ghost var band := if numImages > 0 then MaxOf(captionFontSizes) + captionMarginTopBottom * 2.0 else 0.0;
    for cols := 1 to numImages + 1
      invariant numImages == 0 ==> bestCols == 1 && bestRows == 0
      invariant Best(bestCols, bestRows, currentBestArea)
          == SearchUpTo(numImages, usableWidth, usableHeight, imageSpacing, band, imageAspectRatios, cols - 1)
    {
      var rows := CeilDiv(numImages, cols);
      var gridCellWidth := usableWidth / cols as real;
      var gridCellHeight := usableHeight / rows as real;
      var blockUsableWidth := gridCellWidth - imageSpacing;
      var blockUsableHeight := gridCellHeight - imageSpacing;
      if blockUsableWidth <= 0.0 || blockUsableHeight <= 0.0 {
        SearchUpToStep(numImages, usableWidth, usableHeight, imageSpacing, band, imageAspectRatios, cols,
                       blockUsableWidth, blockUsableHeight, false);
        continue;
      }
      var maxCaptionFontSize := MaxOf(captionFontSizes);
      var captionHeightWithSpacingForTest := maxCaptionFontSize + captionMarginTopBottom * 2.0;
      var allImagesFit := AllImagesFit(imageAspectRatios, blockUsableWidth, blockUsableHeight,
                                       captionHeightWithSpacingForTest);
      SearchUpToStep(numImages, usableWidth, usableHeight, imageSpacing, band, imageAspectRatios, cols,
                     blockUsableWidth, blockUsableHeight, allImagesFit);
      if allImagesFit {
        if blockUsableWidth * blockUsableHeight > currentBestArea {
          currentBestArea := blockUsableWidth * blockUsableHeight;
          bestCols := cols;
          bestRows := rows;
        }
      }
    }
  }

  /** The placement loop (utils.js:166-214): one placement per image, pushed in order. */
  method PlaceImages(numImages: nat, cells: Cells, originX: real, originY: real, pageHeight: real,
                     imageAspectRatios: seq<real>, captionFontSizes: seq<real>, captionMarginTopBottom: real)
    returns (placements: seq<Placement>)
    requires cells.cols > 0
    requires |imageAspectRatios| == numImages && |captionFontSizes| == numImages
    requires AllPositive(imageAspectRatios)
    ensures placements == PlaceAll(cells, originX, originY, pageHeight, captionMarginTopBottom,
                                   imageAspectRatios, captionFontSizes)
  {
    placements := [];
    for i := 0 to numImages
      invariant |placements| == i
      invariant forall j :: 0 <= j < i ==>
        placements[j] == PlaceItem(cells, originX, originY, pageHeight, captionMarginTopBottom, j,
                                   imageAspectRatios[j], captionFontSizes[j])
    {
      var col := i % cells.cols;
      var row := i / cells.cols;
      var aspectRatio := imageAspectRatios[i];
      var currentCaptionFontSize := captionFontSizes[i];
      var captionHeightWithSpacing := currentCaptionFontSize + captionMarginTopBottom * 2.0;
      var imageOnlyUsableHeight := cells.blockHeight - captionHeightWithSpacing;
      var imgWidth := cells.blockWidth;
      var imgHeight := cells.blockWidth / aspectRatio;
      if imgHeight > imageOnlyUsableHeight {
        imgHeight := imageOnlyUsableHeight;
        imgWidth := imageOnlyUsableHeight * aspectRatio;
      }
      assert Size(imgWidth, imgHeight) == FitImage(cells.blockWidth, imageOnlyUsableHeight, aspectRatio);
      var totalBlockHeight := imgHeight + captionHeightWithSpacing;
      var blockXOffset := (cells.blockWidth - imgWidth) / 2.0;
      var blockYOffset := (cells.blockHeight - totalBlockHeight) / 2.0;
      var imageX := originX + col as real * cells.cellWidth + blockXOffset;
      var imageYRealtime := originY + row as real * cells.cellHeight + blockYOffset;
      var imageBottomYPdf := pageHeight - (imageYRealtime + imgHeight);
      var captionX := imageX;
      var captionYRealtime := imageYRealtime + imgHeight + captionMarginTopBottom;
      var captionYPdf := pageHeight - (captionYRealtime + currentCaptionFontSize);
      placements := placements + [Placement(
        Rect(imageX, imageBottomYPdf, imageYRealtime, imgWidth, imgHeight),
        Rect(captionX, captionYPdf, captionYRealtime, imgWidth, currentCaptionFontSize))];
    }
  }

  /** `calculateImagePlacements` of utils.js (lines 80-216). */
  method CalculateImagePlacements(numImages: nat, pageWidth: real, pageHeight: real,
                                  marginTop: real, marginBottom: real, marginLeft: real, marginRight: real,
                                  imageSpacing: real, userColumns: int,
                                  imageAspectRatios: seq<real>, captionFontSizes: seq<real>,
                                  captionMarginTopBottom: real)
    returns (placements: Option<seq<Placement>>)
    requires WellFormed(Request(numImages, pageWidth, pageHeight, marginTop, marginBottom, marginLeft, marginRight,
                                imageSpacing, userColumns, imageAspectRatios, captionFontSizes, captionMarginTopBottom))
    ensures placements == Layout(Request(numImages, pageWidth, pageHeight, marginTop, marginBottom, marginLeft,
                                         marginRight, imageSpacing, userColumns, imageAspectRatios,
                                         captionFontSizes, captionMarginTopBottom))
  {
    ghost var req := Request(numImages, pageWidth, pageHeight, marginTop, marginBottom, marginLeft, marginRight,
                             imageSpacing, userColumns, imageAspectRatios, captionFontSizes, captionMarginTopBottom);
    var usableWidth := pageWidth - marginLeft - marginRight;
    var usableHeight := pageHeight - marginTop - marginBottom;
    var bestCols: nat := if userColumns > 0 then userColumns as nat else 1;
    var bestRows := CeilDiv(numImages, bestCols);
    if userColumns == 0 {
      bestCols, bestRows := SearchColumns(numImages, usableWidth, usableHeight, imageSpacing,
                                          imageAspectRatios, captionFontSizes, captionMarginTopBottom);
    }
    assert Grid(bestCols, bestRows) == ChooseGrid(req);
    if bestCols == 0 || bestRows == 0 {
      return None;
    }
    var gridCellWidth := usableWidth / bestCols as real;
    var gridCellHeight := usableHeight / bestRows as real;
    var blockUsableWidth := gridCellWidth - imageSpacing;
    var blockUsableHeight := gridCellHeight - imageSpacing;
    if blockUsableWidth <= 0.0 || blockUsableHeight <= 0.0 {
      return None;
    }
    var cells := Cells(bestCols, bestRows, gridCellWidth, gridCellHeight, blockUsableWidth, blockUsableHeight);
    assert cells == FinalCells(req);
    var items := PlaceImages(numImages, cells, marginLeft, marginTop, pageHeight,
                             imageAspectRatios, captionFontSizes, captionMarginTopBottom);
    return Some(items);
  }
}
