# DocXChain PDF-to-HTML page assembly, modelled in Dafny

This project models the page assembly step of DocXChain's `Document2Html`
pipeline (`Applications/DocXChain/pipelines/pdf2html.py`). Three analyses of
one PDF page come in: the layout model's regions (a category id and eight
quad coordinates each), the text spans of the page's own text layer, and a
formula recogniser. The step fuses them into two results. One is HTML-like
markup with one `<name id=entity_i>` ... `</name>` block per region. The other
is a list of structured region records.

Modules, one per part of the step:

- `Geometry` (`geometry.dfy`): `_get_overlap_area` and `_is_box_inside`.
  These are the overlap area of a span box with a region, the containment
  ratio, and the inclusive threshold test with default 0.4.
- `TextExtraction` (`text_extraction.dfy`): the flattening loop of
  `text_detection_and_recognition`. It turns the page's blocks -> lines ->
  spans dictionary into index-aligned boxes and `{text, font_size, indent}`
  records.
- `Assembly` (`assembly.dfy`): `_assemble`, as two imperative methods.
  `Assemble` is the outer loop over the layout detections. `AssembleRegion` is
  one iteration of that loop, including the inner loop over the spans. Both
  are proved against specification functions (`Markup`, `PageBlocks`,
  `BlockLines`, `BodyLines`, `Matches`, `Records`, `RegionOf`).
- `Seqs` (`seqs.dfy`): sequence facts the other modules share, among them
  `Flatten`, which joins the markup lines into text and the blocks into the
  page.
- `Numerals` (`numerals.dfy`): the two number conversions the step itself
  performs. These are `str(i)` in `entity_{i}`, and Python's `round`, which
  rounds halves to even, for `region_poly`.

Coordinates, font sizes and indents are `real`. The category mapping, the
formula recogniser (applied to the current page) and the `:.2f` formatting
are function-valued fields of `Assembly.Collaborators`.

The docstrings of `_get_overlap_area` and `_is_box_inside`
(pdf2html.py:77-78, 101-106) do not match the code, and the model follows
the code:

- Both docstrings describe `layout_box` as `[x_min, y_min, x_max, y_max]`.
  `_assemble` passes four points instead (pdf2html.py:140-143), and
  pdf2html.py:84-87 read point 0 as the min corner and point 2 as the max
  corner. The overlap is therefore taken with the rectangle spanned by
  points 0 and 2, not with the bounding box of all four points.
  `Geometry.UprightOverlapIsBoundingBoxOverlap` shows that the two agree on
  upright rectangles listed from their top-left corner.
  `Geometry.WindingChangesOverlap` and
  `Geometry.WindingKeepsBoundingBoxOverlap` show that they differ once the
  same square is listed from another corner.
- The threshold docstring says 50%; the default in the code is 0.4.
- The return docstring says "greater than"; the code tests `>=`.

## Model

| member | source | states |
|---|---|---|
| Geometry.OverlapArea | Applications/DocXChain/pipelines/pdf2html.py:72-94 | the overlap area is never negative, because width and height are clamped at 0 |
| Geometry.OverlapPositiveIff | Applications/DocXChain/pipelines/pdf2html.py:84-94 | the overlap is positive iff both the x-intervals and the y-intervals of box and region (points 0 and 2) meet; it is exactly 0 iff one pair does not |
| Geometry.OverlapAtMostArea | Applications/DocXChain/pipelines/pdf2html.py:84-94 | for a well-formed span box the overlap is at most the box's own area |
| Geometry.OverlapIgnoresPoints1And3 | Applications/DocXChain/pipelines/pdf2html.py:84-87 | only region points 0 and 2 take part: replacing points 1 and 3 leaves the overlap unchanged |
| Geometry.EnclosedBoxOverlapsFully | Applications/DocXChain/pipelines/pdf2html.py:84-94 | a well-formed box inside the rectangle of points 0 and 2 overlaps it by its whole area |
| Geometry.UprightOverlapIsBoundingBoxOverlap | Applications/DocXChain/pipelines/pdf2html.py:84-87 | on an upright rectangle listed from its top-left corner, the overlap equals the overlap with the bounding box of all four points |
| Geometry.WindingChangesOverlap | Applications/DocXChain/pipelines/pdf2html.py:84-87 | the square (0,0)-(10,10) listed from its bottom-right corner overlaps the box covering it by 0 |
| Geometry.WindingKeepsBoundingBoxOverlap | Applications/DocXChain/pipelines/pdf2html.py:84-87 | the same box and square overlap by 100 when the bounding box of all four points is used |
| Geometry.ContainmentRatio | Applications/DocXChain/pipelines/pdf2html.py:108-113 | the ratio lies in [0, 1] and is 0 whenever the span box's area is not positive |
| Geometry.RatioAtMostOne | Applications/DocXChain/pipelines/pdf2html.py:108-113 | overlap / area is at most 1 whenever area > 0, including boxes with both sides inverted |
| Geometry.IsBoxInside | Applications/DocXChain/pipelines/pdf2html.py:96-116 | the inclusive test `ratio >= threshold`; since the ratio lies in [0, 1], every box passes a threshold <= 0 and no box passes a threshold above 1 |
| Geometry.IsBoxInsideIff | Applications/DocXChain/pipelines/pdf2html.py:96-116 | inside iff overlap >= threshold * area (inclusive) for a box of positive area, and iff threshold <= 0 otherwise |
| Geometry.DegenerateNeverInside | Applications/DocXChain/pipelines/pdf2html.py:109-116 | a box of area <= 0 is never inside under a positive threshold, the default 0.4 included |
| Geometry.DisjointNeverInside | Applications/DocXChain/pipelines/pdf2html.py:84-116 | a box whose x- or y-interval misses the region is never inside under a positive threshold |
| Geometry.EnclosedBoxInside | Applications/DocXChain/pipelines/pdf2html.py:96-116 | a box of positive area within the region's rectangle is inside under every threshold up to 1 |
| Geometry.InsideIgnoresPoints1And3 | Applications/DocXChain/pipelines/pdf2html.py:84-116 | two regions that agree on points 0 and 2 give the same containment result for every box and threshold |
| Geometry.ThresholdMonotone | Applications/DocXChain/pipelines/pdf2html.py:113-116 | lowering the threshold keeps every box that was inside |
| Numerals.NatToString | Applications/DocXChain/pipelines/pdf2html.py:151 | the entity index is written as a non-empty string of decimal digits without a leading zero |
| Numerals.ParseNatToString | Applications/DocXChain/pipelines/pdf2html.py:151 | reading the decimal text back gives the index |
| Numerals.NatToStringInjective | Applications/DocXChain/pipelines/pdf2html.py:151 | distinct indices have distinct decimal texts |
| Numerals.RoundHalfEven | Applications/DocXChain/pipelines/pdf2html.py:145-148 | `round` lands within 0.5 of its argument, and a tie goes to the even integer |
| Numerals.RoundIsNearest | Applications/DocXChain/pipelines/pdf2html.py:145-148 | away from ties, `round` gives the unique integer within 0.5 |
| Numerals.RoundOfInteger | Applications/DocXChain/pipelines/pdf2html.py:145-148 | whole numbers are left unchanged by `round` |
| TextExtraction.Recognised | Applications/DocXChain/pipelines/pdf2html.py:59-68 | a span's record holds its text, its font size, and the x of its origin as the indent |
| TextExtraction.TextDetectionAndRecognition | Applications/DocXChain/pipelines/pdf2html.py:52-70 | the two outputs have equal length, one entry per span; entry k of each comes from the k-th span in block -> line -> span order, with indent = the span origin's x |
| TextExtraction.SpanPosition | Applications/DocXChain/pipelines/pdf2html.py:56-63 | span s of line l of block b is output at position (spans of earlier blocks) + (spans of earlier lines of b) + s |
| TextExtraction.LineSpansAppend | Applications/DocXChain/pipelines/pdf2html.py:57-58 | the lines loop visits two runs of lines in turn: the spans of a + c are those of a followed by those of c |
| TextExtraction.BlockSpansAppend | Applications/DocXChain/pipelines/pdf2html.py:56-58 | the blocks loop visits two runs of blocks in turn: the spans of a + c are those of a followed by those of c |
| Assembly.LayoutBox | Applications/DocXChain/pipelines/pdf2html.py:140-143 | point k of the region is the pair (poly[2k], poly[2k+1]), for k = 0..3 |
| Assembly.RegionPoly | Applications/DocXChain/pipelines/pdf2html.py:145-148 | `region_poly` has exactly 8 integers; entry k is Python's `round` of coordinate k (half to even at ties, hence within 0.5 of it, by `Numerals.RoundHalfEven`) |
| Assembly.RegionOf | Applications/DocXChain/pipelines/pdf2html.py:153-157 | the record holds the category id, the mapped name, `region_poly` (the 8 rounded coordinates) and an empty `text_list` |
| Assembly.OpenTag | Applications/DocXChain/pipelines/pdf2html.py:151 | the opening tag is `<`, the category name, ` id=entity_`, the decimal index and `>` plus newline, each at its stated position |
| Assembly.CloseTag | Applications/DocXChain/pipelines/pdf2html.py:178 | the closing tag starts with `</`, ends with `>` and newline, and holds the category name in between (2 characters before, 2 after) |
| Assembly.FormulaLine | Applications/DocXChain/pipelines/pdf2html.py:161 | the formula line starts with `  $$ `, ends with ` $$` and newline, and holds the recognised formula in between (5 characters before, 4 after) |
| Assembly.SpanLine | Applications/DocXChain/pipelines/pdf2html.py:168-176 | the span line is, each piece at its stated position: `  <span style='font-size:`, the formatted font size, `px; text-indent:`, the formatted indent, `px;'>`, the span's text, and `</span>` plus newline (54 fixed characters in all) |
| Assembly.Matches | Applications/DocXChain/pipelines/pdf2html.py:163-166 | every matched index is one of the scanned detections, below n |
| Assembly.MatchesExactly | Applications/DocXChain/pipelines/pdf2html.py:163-166 | detection j < n is matched iff its box is inside the region at 0.4 (both directions) |
| Assembly.MatchesIgnorePoints1And3 | Applications/DocXChain/pipelines/pdf2html.py:140-166 | a region's matches depend only on its coordinates 0, 1, 4 and 5 |
| Assembly.MatchesIncreasing | Applications/DocXChain/pipelines/pdf2html.py:163-166 | the matched indices are strictly increasing: detection order, each at most once |
| Assembly.Assemble | Applications/DocXChain/pipelines/pdf2html.py:119-180 | one record per layout detection, in input order; the markup is the concatenation of the regions' blocks, the i-th block being region i's |
| Assembly.AssembleRegion | Applications/DocXChain/pipelines/pdf2html.py:138-179 | one loop iteration appends exactly region i's block (open tag, body, close tag) to the markup and returns the region's record |
| Assembly.BlockText | Applications/DocXChain/pipelines/pdf2html.py:151-178 | a block's text is `<name id=entity_i>`, then its body lines, then `</name>` |
| Assembly.PagePrefix | Applications/DocXChain/pipelines/pdf2html.py:137-180 | the markup of the first n regions' blocks is the start of the page's markup, for every n |
| Assembly.BlockInPlace | Applications/DocXChain/pipelines/pdf2html.py:137-180 | region i's block follows immediately after the blocks of regions 0..i-1 |
| Assembly.EquationBody | Applications/DocXChain/pipelines/pdf2html.py:158-161 | an `equation` region's body is exactly one `$$ ... $$` line, whatever spans the page has |
| Assembly.TextBody | Applications/DocXChain/pipelines/pdf2html.py:162-176 | in any other region, body line k is the `<span>` of the k-th matching detection, so every span passing the test appears |
| Assembly.SharedSpan | Applications/DocXChain/pipelines/pdf2html.py:163-166 | spans are not consumed: a span inside two non-equation regions appears in both |
| Assembly.DegenerateSpanNeverMatched | Applications/DocXChain/pipelines/pdf2html.py:163-166 | a span box of area <= 0 is matched by no region |
| Assembly.OpenTagsDistinct | Applications/DocXChain/pipelines/pdf2html.py:151 | two regions of the same category at different positions get different opening tags |
| Assembly.AllInsideAllMatched | Applications/DocXChain/pipelines/pdf2html.py:163-166 | when every detection below n passes the test, the matches are exactly 0, 1, ..., n-1 |
| Assembly.TwoSpansInOneRegion | Applications/DocXChain/pipelines/pdf2html.py:162-176 | region (0,0)-(100,50) with spans [5,5,40,15] and [5,20,60,30] matches both spans, in detection order |

## Left out

- `__init__`, `__call__` and `release` (pdf2html.py:9-39, 182-192) only create the collaborators, wire them together and free them.
- The layout model, its `mapping`, and the formula recogniser are models whose code is not part of this model. They are parameters of `Assemble` (`Collaborators`), and the page passed to the recogniser is fixed for one call.
- The table-structure model is imported (pdf2html.py:5) but never used.
- `page.get_text("dict")` is an I/O call into the PDF library. Its result is the input `TextPage`, modelled as text blocks only. Blocks of other kinds are not modelled. PyMuPDF's documented dictionary layout (whose code is not part of this model) also returns image blocks, which have no `"lines"` key, so `block["lines"]` at pdf2html.py:57 would raise `KeyError` on a page with an image. That error path is not modelled.
- The `:.2f` number formatting is the collaborator `formatFixed2`; no float-to-string behaviour is specified.
- Floating-point arithmetic: coordinates, areas, ratios and the threshold 0.4 are exact reals, so rounding error in the overlap ratio is not captured.
- numpy conversions (`np.array`, `.tolist()`) are representation only.
- `modules/file_loading.py` (image and PDF loading, rasterisation) is I/O plumbing around libraries. `data_form.py` only declares two record types and has no behaviour.
- Assembly.Assemble: requires that every detection has at least eight coordinates and that there are at least as many span records as span boxes. In the source, a shorter `poly` or a missing record for a matched span raises an index error, and that error path is not modelled.
- Assembly.AssembleRegion: the loop body of `_assemble` is a separate method so that each part can be verified on its own. The markup it appends is the same.
