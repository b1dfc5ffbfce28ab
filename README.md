# figmavision showcase placement and colour cards, in Dafny

The Figma plug-in in `auto-exec/code.js` builds a "colour showcase" frame. It
does three things that this project models.

- It finds a clear spot on the canvas for the new frame, out of the way of what
  is already there (`findClearSpace`). To do so it uses an axis-aligned
  bounding-box collision test (`checkCollision`), and it also has an
  intersection helper (`getIntersection`).
- It turns paint styles, colour variables and, failing those, document fills
  into one card per distinct colour key. A running `processedColors` set and a
  `colorCount` counter drive this.
- It labels each card with a truncated name and an upper-case hex value
  (`finalizeColorCard`, `rgbToHex`).

The project has four modules:

- `Geometry` holds rectangles, `CheckCollision` and `GetIntersection`, and what
  the two tests mean geometrically.
- `StableSort` models the stable ascending sort by a numeric key that
  `Array.prototype.sort((a, b) => a.k - b.k)` performs. It is a permutation of
  input positions, and it is proved to be the only permutation that orders by
  key with ties in input order.
- `Placement` holds `FindClearSpace`. It is imperative like the plug-in's code: a
  loop over y-sorted neighbours with early returns, updating the proposal's
  coordinates. Its contract states which zone wins, when, and at what
  coordinates.
- `ColorCards` holds `RgbToHex`, the label truncation, and the loops that
  de-duplicate colours by key. The loops are modelled as methods. They are
  proved against the specification function `KeepNew` ("first occurrence of
  every new key, in input order").

The code's separation test uses strict `<` (`auto-exec/code.js:8-11`), so boxes
that only touch collide: `EdgeContactCollides` and
`CollisionWithoutIntersection` state it.

## Model

| member | source | states |
|---|---|---|
| Geometry.CheckCollision | auto-exec/code.js:4-13 | an absent bounds object never collides; a collision implies both bounds are present |
| Geometry.CollisionSymmetric | auto-exec/code.js:4-13 | the collision test does not depend on argument order |
| Geometry.CollisionIffSharedPoint | auto-exec/code.js:7-12 | for boxes of non-negative size, a collision happens exactly when the closed boxes share a point |
| Geometry.EdgeContactCollides | auto-exec/code.js:4-34 | boxes sharing only a vertical edge collide, yet have no intersection |
| Geometry.GetIntersection | auto-exec/code.js:16-34 | absent input gives no result; a result has strictly positive width and height and lies inside both boxes |
| Geometry.IntersectionIsOverlap | auto-exec/code.js:19-31 | a point is strictly inside the result exactly when it is strictly inside both boxes |
| Geometry.IntersectionIffOverlap | auto-exec/code.js:24-33 | a result exists exactly when the open boxes share a point |
| Geometry.IntersectionImpliesCollision | auto-exec/code.js:4-34 | a present intersection implies a collision |
| Geometry.CollisionWithoutIntersection | auto-exec/code.js:4-34 | the converse fails: (0,0,10,10) and (10,0,10,10) collide but have no intersection |
| StableSort.SortOrder | auto-exec/code.js:151-152 | the sort permutation has one position per element |
| StableSort.SortOrderIsStableSort | auto-exec/code.js:151-152 | the permutation lists every position once, ascending by key, ties in input order |
| StableSort.StableSortIsUnique | auto-exec/code.js:151-152 | any permutation ordered by key with ties in input order is the sort's permutation |
| StableSort.FirstIsEarliestLeast | auto-exec/code.js:152 | the first sorted position has the least key and is the earliest position holding it |
| StableSort.LastIsLatestGreatest | auto-exec/code.js:151 | the last sorted position has the greatest key and is the latest position holding it |
| Placement.SortedBy | auto-exec/code.js:151-152 | sorting keeps the number of areas |
| Placement.SortedByIsStableSort | auto-exec/code.js:151-152 | the sorted areas are the input areas permuted, ascending by `x` (or `y`), ties in input order |
| Placement.SortedPairKeepsOrder | auto-exec/code.js:151-152 | two areas already in key order, ties included, stay in that order |
| Placement.HitsAny | auto-exec/code.js:167-169 | a hit needs a non-empty area list, and any area the proposal collides with makes the check report a hit |
| Placement.HitsAnyIffSomeCollision | auto-exec/code.js:167-169 | the `.some` check fails exactly when the proposal collides with no area |
| Placement.FindClearSpace | auto-exec/code.js:115-201 | empty input gives exactly (100, 100, empty-canvas), and only empty input does. A vertical-gap result exists exactly when some adjacent y-sorted pair has a usable gap; it uses the first such pair, at `x = current.x`, `y = current.bottom + 100`. An above result exists exactly when no gap is usable and the proposal `topmost.y - height - 100` is above -3000 and collision-free. Otherwise the result is right of the last x-sorted area: `x = r.right + 100`, `y = r.y`. Every non-right result collides with no area |
| Placement.TopmostIsEarliestHighest | auto-exec/code.js:178-180 | the topmost area has the least `y`, the earliest in input order among ties |
| Placement.RightmostIsLatestGreatestLeft | auto-exec/code.js:194-196 | the "rightmost" area has the greatest left edge, the latest in input order among ties |
| Placement.StackedPairLeavesGap | auto-exec/code.js:155-176 | two boxes stacked `height + 200` apart leave a usable gap, placed 100 below the first |
| Placement.RightFallbackCanCollide | auto-exec/code.js:177-200 | the right fallback is not collision-checked: for a wide box left of a narrow one, the narrow one is "rightmost" and the placement overlaps the wide one |
| ColorCards.ChannelHex | auto-exec/code.js:561-564 | every channel 0..255 becomes exactly two characters; that they are hex digits, `0`-padded, reading back as the channel, is `ChannelHexRoundTrip` |
| ColorCards.ChannelHexRoundTrip | auto-exec/code.js:561-564 | each channel 0..255 becomes exactly two upper-case hex digits that read back as the channel |
| ColorCards.RgbToHex | auto-exec/code.js:560-566 | the label is seven characters long and starts with `#` |
| ColorCards.RgbToHexFormat | auto-exec/code.js:560-566 | the label is `#` and six upper-case hex digits, from which each channel reads back |
| ColorCards.RgbToHexInjective | auto-exec/code.js:560-566 | different colours give different labels |
| ColorCards.HexLabelIsUpper | auto-exec/code.js:550-553 | upper-casing the label a second time changes nothing |
| ColorCards.CardFor | auto-exec/code.js:535-558 | a card keeps the colour key, its name label is at most 25 characters and its hex label is seven characters |
| ColorCards.CardForLabels | auto-exec/code.js:535-558 | a card carries its colour key, a name label of at most 25 characters and the colour's hex label |
| ColorCards.DisplayName | auto-exec/code.js:541 | a label is at most 25 characters; a name of at most 22 characters is unchanged; a longer one keeps its first 22 characters and ends in `...` |
| ColorCards.DisplayNameIdempotent | auto-exec/code.js:541 | truncating twice is truncating once |
| ColorCards.StyleDisplayName | auto-exec/code.js:350-369 | the style name is kept whole; the library mark precedes it exactly when the style key is non-empty |
| ColorCards.KeepNew | auto-exec/code.js:426-431 | de-duplication never keeps more colours than it is given, and keeps none only when every key was already processed |
| ColorCards.KeepNewKeys | auto-exec/code.js:366-367 | kept colours have pairwise distinct keys, none already processed, and together they carry exactly the new keys |
| ColorCards.KeepNewFirst | auto-exec/code.js:426-431 | each kept colour is the first one in the input carrying its key |
| ColorCards.KeepNewAppend | auto-exec/code.js:344-405 | processing two lists in turn with a shared set keeps what processing their concatenation keeps |
| ColorCards.KeepNewCount | auto-exec/code.js:344-405 | de-duplicating from scratch keeps one colour per distinct key |
| ColorCards.AddLibraryCards | auto-exec/code.js:347-405 | one style or variable loop adds the new keys to the set, appends one card per kept colour and counts each |
| ColorCards.LibraryJoin | auto-exec/code.js:344-405 | the styles loop then the variables loop give the cards and count of de-duplicating styles and variables together |
| ColorCards.UniqueDocumentColors | auto-exec/code.js:420-435 | the `uniqueColors` map holds the first fill of each key, in insertion order |
| ColorCards.DocumentLabelName | auto-exec/code.js:441 | a document colour's name is never empty, and a non-empty node name is kept |
| ColorCards.DocumentFallback | auto-exec/code.js:437-446 | one card per distinct document colour, labelled with the node name or `Document Color`, and counted |
| ColorCards.ShowcaseColors | auto-exec/code.js:344-446 | the cards are those of the de-duplicated styles and variables, or, when those yield none, of the de-duplicated document fills; `colorCount` is the number of cards |
| ColorCards.Showcase | auto-exec/code.js:344-446 | the showcase has no cards exactly when no style, variable or document fill yields a colour (for the plug-in's own scan this never happens: `ShowcaseNeverEmpty`) |
| ColorCards.ShowcaseNeverEmpty | auto-exec/code.js:256-446 | when the document fills end with the showcase's own five fills (container, title, subtitle, divider, info text), the showcase is never empty, and without library colours it has at least five cards |
| ColorCards.ShowcaseFillKeys | auto-exec/code.js:266-412 | the showcase's own fills carry five different colour keys |
| ColorCards.ShowcaseKeysDistinct | auto-exec/code.js:344-446 | no colour key yields two cards |
| ColorCards.ShowcaseCountsDistinctKeys | auto-exec/code.js:344-446 | the number of cards is the number of distinct keys among styles and variables, or among document fills when those have none |

## Left out

- The Figma host API is not modelled. This covers reading `figma.currentPage.children`, creating frames and text, fonts, styles, variables and libraries, appending children, viewport zoom and notifications. `FindClearSpace` takes the occupied areas as an input sequence: each visible node's render bounds, or else its bounding box. `ShowcaseColors` takes as input, for every style, variable and fill, either the colour it yields or `None`. The document fills are the page's solid fills in `findAll` tree order; because the scan runs after the showcase frame exists, they end with that frame's own fills (`ShowcaseFills`), which is what `ShowcaseNeverEmpty` assumes.
- Colour keys are inputs. The code builds them with `toFixed(3)` or plain number formatting, which is float formatting and is not modelled.
- Coordinates are JavaScript doubles; they are modelled as exact reals, so float rounding is not modelled.
- `RgbToHex` takes integer channels 0..255; the float scaling `Math.round(val * 255)` is not modelled.
- `DisplayName` counts Unicode characters, whereas JavaScript's `length` counts UTF-16 code units. The two differ for names outside the Basic Multilingual Plane.
- `StyleDisplayName`: the library mark 📚 followed by a space is 2 characters here, but 3 UTF-16 code units in JavaScript. So a library style name of 20 or more characters is cut one character later here than in the plug-in: a 20-character name is kept whole here (22 characters), while JavaScript counts 23 units and cuts it to the mark, 19 characters and `...`.
- The frame name of a card (`card.name`, set untruncated at code.js:482 from the style or variable name at 370 and 395, or from `nodeName || 'Unnamed'` at 440) is not modelled; only its name label and hex label are.
- `console.log` calls and the `try`/`catch` blocks around each style and variable are not modelled. A style or variable whose host call throws before its key is added to `processedColors` is modelled as `None`. A throw in `createColorCard`, `finalizeColorCard` or `appendChild` after the key is added (code.js:370-372, 395-397), which leaves the key in the set with no card and no count, is not modelled.
- `scanDocument`, `captureVisualFeedback`, the instructions text and the final placement and zoom in `createColorShowcase` are host or float work and are not part of this model.
- visual-helper/server.js and visual-helper/capture-cli.js are not part of this model. They are an HTTP server and a command-line wrapper around operating-system screenshot tools.
