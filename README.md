# personal-color-app: the image placement engine, in Dafny

The application lays a list of selected images out on one PDF page. Each image
carries a caption under it. The heart of it is `calculateImagePlacements`:

- It takes the page size, the margins, the spacing between images, a column hint
  (0 = automatic), one aspect ratio and one caption font size per image, and the
  gap above and below every caption.
- It picks a grid of columns by rows, fitting the images with a width-first,
  height-clamped rule.
- It returns, for each image, the rectangle of the image and of its caption. Each
  rectangle has its vertical position in two frames: top-down for the on-screen
  preview, bottom-up for the PDF page.
- It returns `null` when the grid degenerates.

The project models:

- `utils.dfy` (module `Utils`): the current four-margin engine of `utils.js`. It is
  written as the source runs it, as methods with loops: the inner fit loop with its
  `break`, the column search, the placement loop that pushes one placement per
  image, and the whole function. Each method is proved equal to a specification
  function:
  - `SearchUpTo` specifies the column search.
  - `ChooseGrid` specifies the choice of grid.
  - `PlaceAll` specifies the placement loop.
  - `Layout` specifies the whole engine.

  The lemmas then state, about those functions, what the engine guarantees.
- `script.dfy` (module `Script`): the older engine in `script.js`, which takes one
  uniform margin. Its own prologue (usable area `page - 2 * margin`, the column hint,
  the null tests) is written out. Its loops, script.js:283-326 and 343-390, repeat
  utils.js:104-148 and 166-214 line for line, so the method calls the `Utils` loop
  methods, with the margin as the origin on both axes. It is proved to return exactly
  what the four-margin engine returns when all four margins equal that margin. The
  module also models the arguments the live preview builds from the selected images,
  including the caption size that defaults to 10.
- `image_list.dfy` (module `ImageList`): the selected-image list, as a class whose
  `files` field the two in-place edits of `script.js` update:
  - the drag-and-drop reorder (`splice` out, `splice` in);
  - removal by id (`findIndex`, then `splice`).
- `hex_color.dfy` (module `HexColor`): the caption colour parse of the PDF export.
  `parseInt(slice, 16)` is modelled as section 19.2.5 of the ECMAScript 2024
  language specification defines it:
  - leading white space is skipped;
  - one sign is allowed;
  - an optional `0x` prefix is allowed;
  - then comes the longest run of hexadecimal digits;
  - no digit at all gives `NaN`, modelled as `None`.
- `wrappers.dfy`: the `Option` type. `None` stands for the engine's `null` and for
  `NaN`.

JavaScript numbers are modelled as exact reals. Counts and indices are modelled as
naturals. The code's formulas are modelled as follows:

- `Math.ceil(n / cols)` is `(n + cols - 1) / cols`, which `CeilDiv` proves to be that
  ceiling.
- `i % cols` is modelled as itself.
- `Math.floor(i / cols)` is `i / cols`.

Some behaviour of the code is easy to misread; the model states it as the code has
it:

- There is no separate check that the usable area is positive. Such a page fails
  only through the block test. `NoUsableAreaGivesNull` proves that this happens
  whenever the spacing is not negative.
- A negative column hint is not treated as automatic. It pins one column.
- With exact arithmetic the aspect ratio is kept exactly, not within a tolerance.
- An image lies inside its block only when the block is taller than the caption
  band. The containment lemmas say so: they require a positive image height, which
  `FitImagePositive` shows is the same as that condition.

## Model

| member | source | states |
|---|---|---|
| Utils.CalculateImagePlacements | utils.js:80-216 | the four-margin engine, run as the source runs it (search loop, final sizing, placement loop), returns exactly `Layout` of its arguments |
| Utils.AllImagesFit | utils.js:116-139 | the inner fit loop with its `break` says "all fit" exactly when every image passes the fit test, which for positive ratios is exactly when there are no images or the block is taller than the caption band |
| Utils.SearchColumns | utils.js:103-148 | the column search loop over `cols = 1 .. n` ends with the columns and rows of `SearchUpTo` over all n candidates (one column and 0 rows when there are no images) |
| Utils.PlaceImages | utils.js:166-214 | the push loop yields exactly one placement per image, the i-th being item i of the grid (`PlaceAll`) |
| Utils.SearchUpTo | utils.js:103-148 | the search over candidates `1 .. k` settles on a column count in `1 .. k` (1 before any candidate) with `ceil(n / cols)` rows and a block area that is not negative |
| Utils.ChooseGrid | utils.js:99-149 | the grid has at least one column and `ceil(n / cols)` rows; a positive hint is the column count, a negative one gives one column, and in automatic mode with images the columns are at most n |
| Utils.PlaceAt | utils.js:170-196 | the image in cell (col, row) keeps its aspect ratio exactly, stays within the block width and the room under its caption band, and is centred horizontally in the block and, with its caption band, vertically |
| Utils.PlaceAll | utils.js:166-214 | one placement per image, in input order, each keeping its own aspect ratio and having its own caption size as caption height |
| Utils.Layout | utils.js:80-216 | no images give `null`, and a result that is not `null` has exactly one placement per image |
| Utils.CeilDiv | utils.js:100 | `(n + d - 1) / d` is the least k with `k * d >= n`, that is `Math.ceil(n / d)` |
| Utils.RowInRange | utils.js:166-168 | item i's row `i / cols` is below `ceil(n / cols)` and its column `i % cols` below `cols` |
| Utils.MaxOf | utils.js:117 | `Math.max(...s)` of a non-empty list is an element of it and no element exceeds it |
| Utils.FitImage | utils.js:176-182 | the width-first, height-clamped fit keeps the aspect ratio exactly, stays within the block width and the room height, and fills one of the two |
| Utils.FitImageIsLargest | utils.js:176-182 | no image of the same aspect ratio within both bounds is wider or taller than the fitted one |
| Utils.FitImagePositive | utils.js:174-182 | with a positive block width, the fitted height is positive exactly when the room under the caption band is positive; otherwise it equals that room |
| Utils.CandidateFitsIffHasRoom | utils.js:114-139 | for positive ratios the overflow test after the clamp never fires: a candidate passes exactly when both block sides are positive and the block is taller than the caption band |
| Utils.SearchUpToStep | utils.js:105-147 | one pass of the search body, in the block sides and fit verdict the loop computes, takes the search from k - 1 candidates to k: adopt the candidate only if it fits and its area is strictly larger |
| Utils.SearchUpToRoomStep | utils.js:114-147 | the same step with the plain room condition in place of the fit loop |
| Utils.RoomGivesPositiveArea | utils.js:141-143 | a candidate with room has a positive block area, so it beats the initial best area 0 |
| Utils.SearchUpToWithoutRoom | utils.js:99-100 | while no candidate has room the search keeps its initial state: one column, n rows, area 0 |
| Utils.SearchUpToIsFirstLargest | utils.js:103-148 | once some candidate has room, the search's choice has room, has the largest block area among candidates with room, and every earlier candidate with room has a strictly smaller area (first maximum wins) |
| Utils.ColumnsFromHint | utils.js:99-102 | a positive hint gives exactly that many columns and `ceil(n / cols)` rows; a negative hint gives one column and n rows |
| Utils.AutoColumns | utils.js:102-149 | in automatic mode the columns are in 1 .. n with `ceil(n / cols)` rows; the choice maximises the block area over candidates with room, ties going to the fewest columns; with no such candidate it is 1 by n |
| Utils.GridIsProper | utils.js:99-105 | with at least one image the chosen grid has positive columns and `ceil(n / cols)` positive rows |
| Utils.LayoutNullIff | utils.js:151-164 | the result is `null` exactly when there are no images, or the chosen grid's block width or height is not positive |
| Utils.NoUsableAreaGivesNull | utils.js:96-97 | margins that leave no usable width or height give `null` whatever the column hint, when the spacing is not negative |
| Utils.LayoutInInputOrder | utils.js:166-213 | on success there are exactly n placements and placement i is item i of the chosen grid with its own aspect ratio and caption size |
| Utils.LayoutCells | utils.js:155-164 | on success the cells divide the usable area evenly by the chosen grid, and both block sides are positive |
| Utils.PlaceItemGeometry | utils.js:167-196 | item i keeps its aspect ratio, stays within the block width and the room under its band and fills one; it is centred in the block of cell (i % cols, i / cols), with its caption band vertically; the caption has the image's x and width, its own size as height and starts one gap below; both frames mirror each other |
| Utils.PlaceAtInsideBlock | utils.js:184-196 | with a positive block taller than the caption band, the image has a positive size, and image and caption lie inside the block of their cell, the caption below the image |
| Utils.CellInsideSpan | utils.js:156-157 | the block of cell k of `count` equal cells lies inside the span they divide |
| Utils.CellsInOrder | utils.js:190-191 | the block of an earlier cell ends before a later cell starts |
| Utils.PlaceAtInsideArea | utils.js:184-196 | an item in a cell of the grid, whose block is taller than its caption band, lies with its caption inside the usable area |
| Utils.PlaceAtLeftOf | utils.js:190 | an item in an earlier column lies entirely left of an item in a later column |
| Utils.PlaceAtAbove | utils.js:191-195 | an item in an earlier row lies, caption included, entirely above an item in a later row |
| Utils.PlaceAtInReadingOrder | utils.js:190-195 | of two items in cells in reading order, the earlier lies left of or above the later |
| Utils.LaterIndexLaterCell | utils.js:167-168 | a later index lies in a later row, or in the same row and a later column |
| Utils.LayoutInsideMargins | utils.js:96-97 | on success every image with a positive height lies, with its caption, within the four margins (spacing and gap not negative) |
| Utils.LayoutInReadingOrder | utils.js:166-196 | on success no two images with positive heights overlap: an earlier item lies left of a later one or, caption included, above it |
| Script.CalculateImagePlacements | script.js:263-392 | the uniform-margin engine returns exactly what the four-margin engine returns with all four margins equal to its margin; its prologue is its own, and its loops (script.js:283-326, 343-390), which repeat utils.js:104-148 and 166-214, are the `Utils` loop methods with the margin as origin on both axes |
| Script.UniformRequest | script.js:275-276 | the uniform engine's arguments form a request whose four margins are its one margin, so the usable area is the page minus twice the margin on each axis |
| Script.UniformNullIff | script.js:329-341 | the uniform engine returns `null` exactly when there are no images, or its chosen grid's block, `(page - 2 * margin) / count - spacing`, is not positive on an axis |
| Script.UniformItemCentred | script.js:333-368 | on success with one margin on all sides, the cells are `(page - 2 * margin) / count` on each axis, and image i is centred horizontally, and with its caption band vertically, in the block of cell (i % cols, i / cols) measured from the margin |
| Script.UniformItemGeometry | script.js:345-372 | on success with one margin on all sides, image i keeps its aspect ratio exactly, its caption has the image's x and width, its own size as height and starts one gap below the image, and both frames mirror each other |
| Script.CaptionFontSize | script.js:444 | `captionFontSize` or else 10: a missing (`NaN`) or zero size becomes 10, any other size is kept, and the result is never 0 |
| Script.CaptionFontSizes | script.js:795 | one caption size per image, in list order, each the defaulted size and never 0 |
| Script.PreviewRequestWellFormed | script.js:430-457 | the preview calls the engine with one item per selected image, its one margin on all sides, each image's own ratio, each image's defaulted and non-zero caption size, and gap 5; the request is well formed when the images' ratios are positive |
| ImageList.RemoveAt | script.js:254 | `splice(i, 1)`: one shorter, the items before i stay, the items after move down one, and the multiset loses exactly the item at i |
| ImageList.InsertAt | script.js:684 | `splice(i, 0, x)`: one longer, x at i, the items before stay, the items after move up one, and the multiset gains x |
| ImageList.Moved | script.js:683-684 | the reorder keeps the length, puts the former item at `oldIndex` at `newIndex`, and keeps the multiset of items |
| ImageList.MovedPositions | script.js:683-684 | the reorder keeps the length, puts the former item at `oldIndex` at `newIndex`, and every item comes from the position `MovedFrom` names |
| ImageList.MovedKeepsOthersInOrder | script.js:683-684 | apart from the moved item, the items keep their relative order |
| ImageList.MovedBack | script.js:683-684 | dragging the item back from `newIndex` to `oldIndex` restores the list |
| ImageList.FindIndex | script.js:248 | `findIndex`: -1 exactly when no image has the id, otherwise the position of the first image that has it |
| ImageList.WithoutFirst | script.js:248-254 | removal by id leaves a list one shorter exactly when `findIndex` finds the id, and never holds an item the old list did not |
| ImageList.WithoutFirstAbsent | script.js:250 | removing an id that no image has leaves the list unchanged |
| ImageList.WithoutFirstIsSplice | script.js:248-254 | removing the first image with the id is the `splice` at its `findIndex` position |
| ImageList.WithoutFirstPresent | script.js:248-254 | when the id is present, exactly the first image with it goes: the list is one shorter, the others keep their order, and the multiset loses exactly that image |
| ImageList.SelectedImages.Reorder | script.js:679-684 | the Sortable handler's two splices leave the list equal to `Moved(old list, oldIndex, newIndex)` |
| ImageList.SelectedImages.RemoveImage | script.js:245-261 | `removeImage` leaves the list equal to the old list without its first image of the id, and unchanged when there is none |
| HexColor.HexDigitValue | script.js:850 | a hexadecimal digit denotes a value below 16 |
| HexColor.HexDigitChar | script.js:186-197 | the inverse used for the round trip: the lower-case digit a colour input writes for 0 .. 15 is a hexadecimal digit that denotes that value |
| HexColor.HexValue | script.js:850 | a run of k hexadecimal digits denotes a number below `16^k` |
| HexColor.TrimStartDropsWhitespace | script.js:850 | `parseInt` skips exactly the leading white space: what it drops is white space, and what remains is the rest of the string and starts with something else |
| HexColor.HexPrefixIsLongest | script.js:850 | the digits `parseInt` reads are a prefix of what follows the sign and prefix, and the longest one: the next character, if any, is not a digit |
| HexColor.ParseIntHex | script.js:850-852 | `parseInt(s, 16)` of the empty string is `NaN`, and a number read from n characters has a magnitude below `16^n` |
| HexColor.PairValue | script.js:850-852 | two hexadecimal digits denote a byte, below 256 |
| HexColor.ParseHexPair | script.js:850 | `parseInt` of two hexadecimal digits is the byte they denote |
| HexColor.ParseShortRange | script.js:850-852 | whatever a two-character slice holds, a number read from it lies in -15 .. 255 |
| HexColor.ParseNonDigitIsNaN | script.js:850-852 | a slice starting with a character that is not a digit, a sign or white space reads as `NaN` |
| HexColor.Slice | script.js:850-852 | `slice(start, end)` within the string is the substring, a slice starting past the end is empty, and no slice is longer than `end - start` |
| HexColor.ParseChannel | script.js:850-852 | the pair of digits at `first` and `first + 1` reads as the byte it denotes |
| HexColor.RedChannel | script.js:850 | the slice `(1, 3)` of a string with digits there reads as their byte |
| HexColor.GreenChannel | script.js:851 | the slice `(3, 5)` of a string with digits there reads as their byte |
| HexColor.BlueChannel | script.js:852 | the slice `(5, 7)` of a string with digits there reads as their byte |
| HexColor.ColorChannels | script.js:849-852 | whatever the stored colour, each channel that reads as a number lies in -15 .. 255 |
| HexColor.WellFormedColorChannels | script.js:849-852 | a `#rrggbb` colour gives three channels, each the byte its pair of digits denotes, each in 0 .. 255 |
| HexColor.ColorChannelsAre | script.js:849-852 | a `#rrggbb` colour whose pairs denote three given bytes gives exactly those bytes |
| HexColor.EmptyColorIsBlack | script.js:849 | an empty colour reads as black, three channels of 0 |
| HexColor.FormatColor | script.js:186-197 | the inverse used for the round trip: the lower-case `#rrggbb` text a colour input stores as `captionFontColor` for three bytes is a well-formed colour |
| HexColor.ByteHexDigits | script.js:186-197 | the two digits a colour input writes for a byte denote that byte again |
| HexColor.FormatColorRoundTrip | script.js:186-197 | reading back, as script.js:849-852 does, the `#rrggbb` text a colour input stores gives the three bytes it was made of |

## Left out

- The user interface is not modelled. That covers building the preview elements,
  event listeners, slider and number syncing, and the router, step navigation and
  panel resizer. It is wiring with nothing to state beyond it.
- PDF and image libraries are foreign calls whose behaviour is not visible here:
  pdf-lib embedding and drawing, pdfjs rendering, HEIC conversion, font fetching and
  caching, and caption centring by text width.
- File reading, image loading and object URLs are I/O and are not modelled. This
  includes the `URL.revokeObjectURL` in `removeImage`, and the preview refresh and
  file-count text that follow its splice.
- The reorder and removal code in `image-select.js` duplicates the `script.js` code
  and is modelled once.
- Floating point is not modelled: JavaScript numbers are exact reals, and `NaN`,
  `Infinity` and rounding are not represented. In particular,
  `Math.max(...[])` = `-Infinity` is not represented. It arises only with no images,
  where the model's search does not run and the placement loop does nothing.
- Utils.WellFormed: the engine's contracts require one aspect ratio and one caption
  size per image, and positive ratios. Both callers build the three arguments from
  one list, and a zero ratio would be a JavaScript `Infinity`.
- ImageList.SelectedImages.Reorder: requires both indices to be positions of the
  list. Sortable reports positions of the list it manages, and a splice outside the
  list behaves differently in JavaScript.
- The PDF export's own argument building is not modelled: it takes the aspect
  ratios from the embedded images' pixel sizes (script.js:793-794), which come from
  pdf-lib. Its caption sizes and gap are the preview's (`CaptionFontSizes`, 5).
- Script.PreviewRequest: the margin, the spacing and the column hint are taken as
  integers. The `parseInt(...) || 0` that reads them from the form is not modelled.
- HexColor.ParseIntHex: a negative zero, as in `parseInt("-0", 16)`, is read as 0.
  The division of each channel by 255, and `PDFLib.rgb`, are not modelled.
- HexColor.Slice: a Dafny string is a sequence of Unicode scalar values, while
  JavaScript's `slice` and `parseInt` work on UTF-16 code units. The two differ only
  for characters outside the Basic Multilingual Plane, never for a `#rrggbb` value.
- HexColor.IsJsWhitespace: it lists the white-space and line-terminator code points
  of ECMAScript explicitly. Category Zs characters added by later Unicode versions
  are not tracked.
