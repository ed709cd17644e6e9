/** Page assembly (`Document2Html._assemble`): every layout detection, in the
    order the layout model returns them, becomes one block of HTML-like
    markup `<name id=entity_i>` ... `</name>` and one structured record.
    An `equation` region holds a single `$$ ... $$` line from the formula
    recogniser; every other region holds one `<span>` line per text span
    whose box passes the containment test against the region, in detection
    order. */
module Assembly {
  import opened Geometry
  import opened Numerals
  import opened TextExtraction
  import opened Seqs

  /** One layout detection: a category id and the region's eight
      coordinates `[x0, y0, x1, y1, x2, y2, x3, y3]`. */
  datatype LayoutDet = LayoutDet(categoryId: int, poly: seq<real>)

  /** The parts of the pipeline whose code is not part of this model: the
      layout model's category-id -> name mapping, the formula recogniser
      applied to a region of the current page, and the `:.2f` number
      formatting. */
  datatype Collaborators = Collaborators(
    mapping: int -> string,
    recogniseFormula: Quad -> string,
    formatFixed2: real -> string)

  /** The structured record of one region. Its `textList` is never filled. */
  datatype Region = Region(categoryIndex: int, categoryName: string, regionPoly: seq<int>, textList: seq<SpanInfo>)

  const Equation: string := "equation"

  /** The four points of a region, read from its eight coordinates. */
  function LayoutBox(poly: seq<real>): (q: Quad)
    requires |poly| >= 8
    ensures q.p0 == Point(poly[0], poly[1]) && q.p1 == Point(poly[2], poly[3])
    ensures q.p2 == Point(poly[4], poly[5]) && q.p3 == Point(poly[6], poly[7])
  {
    Quad(Point(poly[0], poly[1]), Point(poly[2], poly[3]), Point(poly[4], poly[5]), Point(poly[6], poly[7]))
  }

  /** The region's eight coordinates (the four points' x and y, in point
      order), each rounded half-to-even to an integer. */
  function RegionPoly(poly: seq<real>): (r: seq<int>)
    requires |poly| >= 8
    ensures |r| == 8
    ensures forall k :: 0 <= k < 8 ==> r[k] == RoundHalfEven(poly[k])
  {
    seq(8, k requires 0 <= k < 8 => RoundHalfEven(poly[k]))
  }

  /** The record appended for one detection. */
  function RegionOf(d: LayoutDet, c: Collaborators): (r: Region)
    requires |d.poly| >= 8
    ensures r.categoryIndex == d.categoryId && r.categoryName == c.mapping(d.categoryId)
    ensures r.regionPoly == RegionPoly(d.poly)
    ensures r.textList == []
  {
    Region(d.categoryId, c.mapping(d.categoryId), RegionPoly(d.poly), [])
  }

  // ---------------------------------------------------------------------
  // Markup lines

  /** The opening tag: the category name from position 1, the decimal index
      just before the closing `>` and newline, 14 fixed characters in all. */
  function OpenTag(name: string, i: nat): (t: string)
    ensures |t| == |name| + |NatToString(i)| + 14
    ensures t[1..1 + |name|] == name && t[12 + |name|..|t| - 2] == NatToString(i)
    ensures t[..1] == "<" && t[1 + |name|..12 + |name|] == " id=entity_" && t[|t| - 2..] == ">\n"
  {
    "<" + name + " id=entity_" + NatToString(i) + ">\n"
  }

  /** The closing tag: the category name between `</` and `>` and newline. */
  function CloseTag(name: string): (t: string)
    ensures |t| == |name| + 4 && t[2..|t| - 2] == name
    ensures t[..2] == "</" && t[|t| - 2..] == ">\n"
  {
    "</" + name + ">\n"
  }

  /** The formula line: the recognised formula between `  $$ ` and ` $$`
      and newline. */
  function FormulaLine(formula: string): (line: string)
    ensures |line| == |formula| + 9 && line[5..|line| - 4] == formula
    ensures line[..5] == "  $$ " && line[|line| - 4..] == " $$\n"
  {
    "  $$ " + formula + " $$\n"
  }

  /** The `<span>` line of one span: the prefix `  <span style='font-size:`,
      the formatted font size, `px; text-indent:`, the formatted indent,
      `px;'>`, the span's text, and `</span>` and newline. */
  function SpanLine(info: SpanInfo, formatFixed2: real -> string): (line: string)
    ensures |line| == |formatFixed2(info.fontSize)| + |formatFixed2(info.indent)| + |info.text| + 54
    ensures line[25..25 + |formatFixed2(info.fontSize)|] == formatFixed2(info.fontSize)
    ensures line[41 + |formatFixed2(info.fontSize)|..41 + |formatFixed2(info.fontSize)| + |formatFixed2(info.indent)|]
         == formatFixed2(info.indent)
    ensures line[|line| - 8 - |info.text|..|line| - 8] == info.text
    ensures line[..25] == "  <span style='font-size:"
    ensures line[25 + |formatFixed2(info.fontSize)|..41 + |formatFixed2(info.fontSize)|] == "px; text-indent:"
    ensures line[41 + |formatFixed2(info.fontSize)| + |formatFixed2(info.indent)|..46 + |formatFixed2(info.fontSize)| + |formatFixed2(info.indent)|]
         == "px;'>"
    ensures line[|line| - 8..] == "</span>\n"
  {
    "  <span style='font-size:" + formatFixed2(info.fontSize) + "px; text-indent:"
      + formatFixed2(info.indent) + "px;'>" + info.text + "</span>\n"
  }

  // ---------------------------------------------------------------------
  // Region matching

  /** The indices `j < n` of the span boxes that pass the containment test
      against `q` under the default threshold, in increasing order (see
      `MatchesExactly` and `MatchesIncreasing`). */
  function Matches(det: seq<Box>, q: Quad, n: nat): (m: seq<nat>)
    requires n <= |det|
    ensures forall k :: 0 <= k < |m| ==> m[k] < n
  {
    if n == 0 then []
    else if IsBoxInside(det[n - 1], q, DefaultThreshold) then Matches(det, q, n - 1) + [n - 1]
    else Matches(det, q, n - 1)
  }

  /** A detection below n is matched exactly when its box passes the
      containment test. */
  lemma {:induction false} MatchesExactly(det: seq<Box>, q: Quad, n: nat)
    requires n <= |det|
    ensures forall j :: 0 <= j < n ==> (j in Matches(det, q, n) <==> IsBoxInside(det[j], q, DefaultThreshold))
  {
    if n > 0 {
      MatchesExactly(det, q, n - 1);
    }
  }

  predicate StrictlyIncreasing(m: seq<nat>) {
    forall k1, k2 :: 0 <= k1 < k2 < |m| ==> m[k1] < m[k2]
  }

  /** The matched detections come in increasing index order, each once. */
  lemma {:induction false} MatchesIncreasing(det: seq<Box>, q: Quad, n: nat)
    requires n <= |det|
    ensures StrictlyIncreasing(Matches(det, q, n))
  {
    if n > 0 {
      MatchesIncreasing(det, q, n - 1);
      if IsBoxInside(det[n - 1], q, DefaultThreshold) {
        var m' := Matches(det, q, n - 1);
        var m := m' + [n - 1];
        assert Matches(det, q, n) == m;
        forall k1, k2 | 0 <= k1 < k2 < |m|
          ensures m[k1] < m[k2]
        {
          assert m[k1] == m'[k1];
          if k2 < |m'| {
            assert m[k2] == m'[k2];
          } else {
            assert m'[k1] < n - 1;
          }
        }
      }
    }
  }

  /** Only coordinates 0, 1, 4 and 5 of a region (its points 0 and 2) decide
      which spans it holds. */
  lemma {:induction false} MatchesIgnorePoints1And3(det: seq<Box>, poly: seq<real>, poly': seq<real>, n: nat)
    requires n <= |det| && |poly| >= 8 && |poly'| >= 8
    requires poly[0] == poly'[0] && poly[1] == poly'[1] && poly[4] == poly'[4] && poly[5] == poly'[5]
    ensures Matches(det, LayoutBox(poly), n) == Matches(det, LayoutBox(poly'), n)
  {
    if n > 0 {
      MatchesIgnorePoints1And3(det, poly, poly', n - 1);
      InsideIgnoresPoints1And3(det[n - 1], LayoutBox(poly), LayoutBox(poly'), DefaultThreshold);
    }
  }

  /** One `<span>` line per matched index, in the order of the indices. */
  function SpanLines(m: seq<nat>, rec: seq<SpanInfo>, formatFixed2: real -> string): (lines: seq<string>)
    requires forall k :: 0 <= k < |m| ==> m[k] < |rec|
    ensures |lines| == |m|
  {
    seq(|m|, k requires 0 <= k < |m| => SpanLine(rec[m[k]], formatFixed2))
  }

  /** The lines between a region's opening and closing tags. */
  function BodyLines(d: LayoutDet, det: seq<Box>, rec: seq<SpanInfo>, c: Collaborators): seq<string>
    requires |d.poly| >= 8 && |det| <= |rec|
  {
    var q := LayoutBox(d.poly);
    if c.mapping(d.categoryId) == Equation then [FormulaLine(c.recogniseFormula(q))]
    else SpanLines(Matches(det, q, |det|), rec, c.formatFixed2)
  }

  /** The block of the i-th region. */
  function BlockLines(i: nat, d: LayoutDet, det: seq<Box>, rec: seq<SpanInfo>, c: Collaborators): seq<string>
    requires |d.poly| >= 8 && |det| <= |rec|
  {
    var name := c.mapping(d.categoryId);
    [OpenTag(name, i)] + BodyLines(d, det, rec, c) + [CloseTag(name)]
  }

  predicate WellShaped(dets: seq<LayoutDet>) {
    forall i :: 0 <= i < |dets| ==> |dets[i].poly| >= 8
  }

  /** The blocks of all regions, the i-th region's block i-th. */
  function PageBlocks(dets: seq<LayoutDet>, det: seq<Box>, rec: seq<SpanInfo>, c: Collaborators): (blocks: seq<seq<string>>)
    requires WellShaped(dets) && |det| <= |rec|
    ensures |blocks| == |dets|
  {
    seq(|dets|, i requires 0 <= i < |dets| => BlockLines(i, dets[i], det, rec, c))
  }

  /** The markup of the whole page: its blocks' lines, one after the other. */
  function Markup(dets: seq<LayoutDet>, det: seq<Box>, rec: seq<SpanInfo>, c: Collaborators): string
    requires WellShaped(dets) && |det| <= |rec|
  {
    Flatten(Flatten(PageBlocks(dets, det, rec, c)))
  }

  /** The records of all regions, the i-th region's record i-th. */
  function Records(dets: seq<LayoutDet>, c: Collaborators): (records: seq<Region>)
    requires WellShaped(dets)
    ensures |records| == |dets|
  {
    seq(|dets|, i requires 0 <= i < |dets| => RegionOf(dets[i], c))
  }

  // ---------------------------------------------------------------------
  // The assembler

  /** `_assemble`: the markup is the concatenation of the regions' blocks,
      and the records are one per detection, in input order. A detection
      with fewer than eight coordinates, or a matched span without a
      record, raises an index error in the source; both are excluded here. */
  method Assemble(dets: seq<LayoutDet>, det: seq<Box>, rec: seq<SpanInfo>, c: Collaborators)
    returns (html: string, output: seq<Region>)
    requires WellShaped(dets) && |det| <= |rec|
    ensures html == Markup(dets, det, rec, c)
    ensures |output| == |dets|
    ensures forall i :: 0 <= i < |dets| ==> output[i] == RegionOf(dets[i], c)
  {
    ghost var blocks := PageBlocks(dets, det, rec, c);
    ghost var records := Records(dets, c);
    html, output := "", [];
    for i := 0 to |dets|
      invariant html == Flatten(Flatten(blocks[..i]))
      invariant output == records[..i]
    {
      var layoutRegion;
      html, layoutRegion := AssembleRegion(html, i, dets[i], det, rec, c);
      FlattenTwiceStep(blocks, i);
      TakeSnoc(records, i);
      output := output + [layoutRegion];
    }
    assert blocks[..|dets|] == blocks && records[..|dets|] == records;
  }

  /** One iteration of `_assemble`'s loop over the layout detections: appends
      region i's block to the markup and returns its record. */
  method AssembleRegion(html: string, i: nat, d: LayoutDet, det: seq<Box>, rec: seq<SpanInfo>, c: Collaborators)
    returns (html': string, layoutRegion: Region)
    requires |d.poly| >= 8 && |det| <= |rec|
    ensures html' == html + Flatten(BlockLines(i, d, det, rec, c))
    ensures layoutRegion == RegionOf(d, c)
  {
    var categoryIndex := d.categoryId;
    var categoryName := c.mapping(categoryIndex);
    var layoutBox := LayoutBox(d.poly);
    var regionPoly := RegionPoly(d.poly);
    ghost var lines: seq<string> := [];

    html', lines := html + OpenTag(categoryName, i), [OpenTag(categoryName, i)];
    FlattenSingle(OpenTag(categoryName, i));
    layoutRegion := Region(categoryIndex, categoryName, regionPoly, []);
    if categoryName == Equation {
      var formula := FormulaLine(c.recogniseFormula(layoutBox));
      FlattenExtend(html, lines, formula);
      html', lines := html' + formula, lines + [formula];
    } else {
      ghost var head := lines;
      for j := 0 to |det|
        invariant lines == head + SpanLines(Matches(det, layoutBox, j), rec, c.formatFixed2)
        invariant html' == html + Flatten(lines)
      {
        SpanStep(det, rec, layoutBox, c.formatFixed2, j);
        if !IsBoxInside(det[j], layoutBox, DefaultThreshold) {
          continue;
        }
        var span := SpanLine(rec[j], c.formatFixed2);
        AppendAssoc(head, SpanLines(Matches(det, layoutBox, j), rec, c.formatFixed2), [span]);
        FlattenExtend(html, lines, span);
        html', lines := html' + span, lines + [span];
      }
    }
    FlattenExtend(html, lines, CloseTag(categoryName));
    html', lines := html' + CloseTag(categoryName), lines + [CloseTag(categoryName)];
    assert lines == BlockLines(i, d, det, rec, c) by {
      AppendAssoc([OpenTag(categoryName, i)], BodyLines(d, det, rec, c), [CloseTag(categoryName)]);
    }
  }

  // Helper lemma for the method above

  /** With detection j scanned, the matched lines grow by its `<span>` line
      exactly when its box passes the containment test. */
  lemma SpanStep(det: seq<Box>, rec: seq<SpanInfo>, q: Quad, formatFixed2: real -> string, j: nat)
    requires j < |det| <= |rec|
    ensures SpanLines(Matches(det, q, j + 1), rec, formatFixed2)
         == SpanLines(Matches(det, q, j), rec, formatFixed2)
            + (if IsBoxInside(det[j], q, DefaultThreshold) then [SpanLine(rec[j], formatFixed2)] else [])
  {
  }

  /** A block's text is its opening tag, its body lines, then its closing tag. */
  lemma BlockText(i: nat, d: LayoutDet, det: seq<Box>, rec: seq<SpanInfo>, c: Collaborators)
    requires |d.poly| >= 8 && |det| <= |rec|
    ensures var name := c.mapping(d.categoryId);
            Flatten(BlockLines(i, d, det, rec, c)) == OpenTag(name, i) + Flatten(BodyLines(d, det, rec, c)) + CloseTag(name)
  {
    var name := c.mapping(d.categoryId);
    var body := BodyLines(d, det, rec, c);
    FlattenAppend([OpenTag(name, i)] + body, [CloseTag(name)]);
    FlattenAppend([OpenTag(name, i)], body);
    FlattenSingle(OpenTag(name, i));
    FlattenSingle(CloseTag(name));
  }

  // ---------------------------------------------------------------------
  // Properties of the assembled page

  /** The blocks appear in input order: the markup of the first n regions'
      blocks is the start of the page's markup, for every n. */
  lemma PagePrefix(dets: seq<LayoutDet>, det: seq<Box>, rec: seq<SpanInfo>, c: Collaborators, n: nat)
    requires WellShaped(dets) && |det| <= |rec| && n <= |dets|
    ensures Flatten(Flatten(PageBlocks(dets, det, rec, c)[..n])) <= Markup(dets, det, rec, c)
  {
    var blocks := PageBlocks(dets, det, rec, c);
    assert blocks[..n] <= blocks;
    FlattenMonotone(blocks[..n], blocks);
    FlattenMonotone(Flatten(blocks[..n]), Flatten(blocks));
  }

  /** Region i's block sits, whole, right after the blocks of regions 0..i-1. */
  lemma BlockInPlace(dets: seq<LayoutDet>, det: seq<Box>, rec: seq<SpanInfo>, c: Collaborators, i: nat)
    requires WellShaped(dets) && |det| <= |rec| && i < |dets|
    ensures Flatten(Flatten(PageBlocks(dets, det, rec, c)[..i])) + Flatten(BlockLines(i, dets[i], det, rec, c))
            <= Markup(dets, det, rec, c)
  {
    FlattenTwiceStep(PageBlocks(dets, det, rec, c), i);
    PagePrefix(dets, det, rec, c, i + 1);
  }

  /** An equation region holds exactly one formula line and no span lines,
      whatever spans the page has. */
  lemma EquationBody(d: LayoutDet, det: seq<Box>, rec: seq<SpanInfo>, det': seq<Box>, rec': seq<SpanInfo>, c: Collaborators)
    requires |d.poly| >= 8 && |det| <= |rec| && |det'| <= |rec'|
    requires c.mapping(d.categoryId) == Equation
    ensures BodyLines(d, det, rec, c) == [FormulaLine(c.recogniseFormula(LayoutBox(d.poly)))]
    ensures BodyLines(d, det, rec, c) == BodyLines(d, det', rec', c)
  {
  }

  /** In any other region, the k-th body line is the `<span>` of the k-th
      matching detection, so every detection whose box passes the
      containment test has its line in the region's body. */
  lemma TextBody(d: LayoutDet, det: seq<Box>, rec: seq<SpanInfo>, c: Collaborators, j: nat)
    requires |d.poly| >= 8 && |det| <= |rec| && j < |det|
    requires c.mapping(d.categoryId) != Equation
    ensures var m := Matches(det, LayoutBox(d.poly), |det|);
            |BodyLines(d, det, rec, c)| == |m| &&
            (forall k :: 0 <= k < |m| ==> BodyLines(d, det, rec, c)[k] == SpanLine(rec[m[k]], c.formatFixed2))
    ensures IsBoxInside(det[j], LayoutBox(d.poly), DefaultThreshold) ==>
            SpanLine(rec[j], c.formatFixed2) in BodyLines(d, det, rec, c)
  {
    var m := Matches(det, LayoutBox(d.poly), |det|);
    if IsBoxInside(det[j], LayoutBox(d.poly), DefaultThreshold) {
      MatchesExactly(det, LayoutBox(d.poly), |det|);
      assert j in m;
      var k :| 0 <= k < |m| && m[k] == j;
      assert BodyLines(d, det, rec, c)[k] == SpanLine(rec[j], c.formatFixed2);
    }
  }

  /** Spans are not consumed by a match: a span inside two non-equation
      regions is emitted in both. */
  lemma SharedSpan(d1: LayoutDet, d2: LayoutDet, det: seq<Box>, rec: seq<SpanInfo>, c: Collaborators, j: nat)
    requires |d1.poly| >= 8 && |d2.poly| >= 8 && |det| <= |rec| && j < |det|
    requires c.mapping(d1.categoryId) != Equation && c.mapping(d2.categoryId) != Equation
    requires IsBoxInside(det[j], LayoutBox(d1.poly), DefaultThreshold)
    requires IsBoxInside(det[j], LayoutBox(d2.poly), DefaultThreshold)
    ensures SpanLine(rec[j], c.formatFixed2) in BodyLines(d1, det, rec, c)
    ensures SpanLine(rec[j], c.formatFixed2) in BodyLines(d2, det, rec, c)
  {
    TextBody(d1, det, rec, c, j);
    TextBody(d2, det, rec, c, j);
  }

  /** A span box of area at most 0 is matched by no region. */
  lemma DegenerateSpanNeverMatched(det: seq<Box>, q: Quad, j: nat)
    requires j < |det| && Area(det[j]) <= 0.0
    ensures j !in Matches(det, q, |det|)
  {
    DegenerateNeverInside(det[j], q, DefaultThreshold);
    MatchesExactly(det, q, |det|);
  }

  /** Two regions of the same category get different opening tags. */
  lemma OpenTagsDistinct(name: string, i: nat, i': nat)
    requires i != i'
    ensures OpenTag(name, i) != OpenTag(name, i')
  {
    NatToStringInjective(i, i');
    var pre := "<" + name + " id=entity_";
    var s, s' := NatToString(i), NatToString(i');
    var t, t' := OpenTag(name, i), OpenTag(name, i');
    assert t == pre + s + ">\n" && t' == pre + s' + ">\n";
    assert t[|pre|..|pre| + |s|] == s;
    assert t'[|pre|..|pre| + |s'|] == s';
  }

  /** When every detection below n passes the containment test, all of
      them are matched, in order. */
  lemma {:induction false} AllInsideAllMatched(det: seq<Box>, q: Quad, n: nat)
    requires n <= |det|
    requires forall j :: 0 <= j < n ==> IsBoxInside(det[j], q, DefaultThreshold)
    ensures var m := Matches(det, q, n);
            |m| == n && forall k :: 0 <= k < n ==> m[k] == k
  {
    if n > 0 {
      AllInsideAllMatched(det, q, n - 1);
    }
  }

  /** A text region `(0,0)-(100,50)` with the spans `[5,5,40,15]` and
      `[5,20,60,30]`: both spans match, in detection order. */
  lemma TwoSpansInOneRegion(det: seq<Box>, q: Quad)
    requires q == Quad(Point(0.0, 0.0), Point(100.0, 0.0), Point(100.0, 50.0), Point(0.0, 50.0))
    requires det == [Box(5.0, 5.0, 40.0, 15.0), Box(5.0, 20.0, 60.0, 30.0)]
    ensures Matches(det, q, |det|) == [0, 1]
  {
    assert IsBoxInside(det[0], q, DefaultThreshold) by {
      EnclosedBoxInside(det[0], q, DefaultThreshold);
    }
    assert IsBoxInside(det[1], q, DefaultThreshold) by {
      EnclosedBoxInside(det[1], q, DefaultThreshold);
    }
    AllInsideAllMatched(det, q, 2);
  }
}
