/** Text detection and recognition from a PDF page's own text layer: the
    nested blocks -> lines -> spans structure of the page's text dictionary
    is flattened into two index-aligned lists, the span boxes and the span
    records `{text, font_size, indent}`. */
module TextExtraction {
  import opened Geometry
  import opened Seqs

  /** One span of the page's text dictionary: its text, box, font size and
      baseline origin. */
  datatype RawSpan = RawSpan(text: string, bbox: Box, size: real, origin: Point)
  datatype RawLine = RawLine(spans: seq<RawSpan>)
  datatype RawBlock = RawBlock(lines: seq<RawLine>)

  /** The page's text dictionary, as the PDF library returns it for a page. */
  datatype TextPage = TextPage(blocks: seq<RawBlock>)

  /** Recognised text of one span; the indent is the x-coordinate of the
      span's origin. */
  datatype SpanInfo = SpanInfo(text: string, fontSize: real, indent: real)

  function Recognised(s: RawSpan): (r: SpanInfo)
    ensures r.text == s.text && r.fontSize == s.size && r.indent == s.origin.x
  {
    SpanInfo(s.text, s.size, s.origin.x)
  }

  /** The spans of a sequence of lines, line after line. */
  function LineSpans(lines: seq<RawLine>): seq<RawSpan> {
    if lines == [] then [] else LineSpans(lines[..|lines| - 1]) + lines[|lines| - 1].spans
  }

  /** The spans of a sequence of blocks, block after block. */
  function BlockSpans(blocks: seq<RawBlock>): seq<RawSpan> {
    if blocks == [] then [] else BlockSpans(blocks[..|blocks| - 1]) + LineSpans(blocks[|blocks| - 1].lines)
  }

  /** Every span of the page, in block -> line -> span order. */
  function PageSpans(page: TextPage): seq<RawSpan> {
    BlockSpans(page.blocks)
  }

  /** `det` and `rec` hold, index by index, the box and the record of the
      spans in `spans`. */
  predicate Aligned(det: seq<Box>, rec: seq<SpanInfo>, spans: seq<RawSpan>) {
    |det| == |rec| == |spans| &&
    forall k :: 0 <= k < |det| ==> det[k] == spans[k].bbox && rec[k] == Recognised(spans[k])
  }

  /** `text_detection_and_recognition`: one box and one record per span, the
      k-th box and the k-th record both coming from the k-th span in
      traversal order. */
  method TextDetectionAndRecognition(page: TextPage) returns (det: seq<Box>, rec: seq<SpanInfo>)
    ensures |det| == |rec| == |PageSpans(page)|
    ensures forall k :: 0 <= k < |det| ==>
              det[k] == PageSpans(page)[k].bbox && rec[k] == Recognised(PageSpans(page)[k])
  {
    det, rec := [], [];
    ghost var done: seq<RawSpan> := [];
    for b := 0 to |page.blocks|
      invariant done == BlockSpans(page.blocks[..b])
      invariant Aligned(det, rec, done)
    {
      var block := page.blocks[b];
      for l := 0 to |block.lines|
        invariant done == BlockSpans(page.blocks[..b]) + LineSpans(block.lines[..l])
        invariant Aligned(det, rec, done)
      {
        var line := block.lines[l];
        ghost var before := done;
        for s := 0 to |line.spans|
          invariant done == before + line.spans[..s]
          invariant Aligned(det, rec, done)
        {
          var span := line.spans[s];
          AlignedSnoc(det, rec, done, span);
          TakeSnoc(line.spans, s);
          AppendAssoc(before, line.spans[..s], [span]);
          det := det + [span.bbox];
          rec := rec + [Recognised(span)];
          done := done + [span];
        }
        LineStep(block.lines, l);
        AppendAssoc(BlockSpans(page.blocks[..b]), LineSpans(block.lines[..l]), line.spans);
      }
      assert block.lines[..|block.lines|] == block.lines;
      BlockStep(page.blocks, b);
    }
    assert page.blocks[..|page.blocks|] == page.blocks;
  }

  lemma AlignedSnoc(det: seq<Box>, rec: seq<SpanInfo>, spans: seq<RawSpan>, span: RawSpan)
    requires Aligned(det, rec, spans)
    ensures Aligned(det + [span.bbox], rec + [Recognised(span)], spans + [span])
  {
  }

  /** The lines loop, one more line in. */
  lemma LineStep(lines: seq<RawLine>, l: nat)
    requires l < |lines|
    ensures LineSpans(lines[..l + 1]) == LineSpans(lines[..l]) + lines[l].spans
  {
    assert lines[..l + 1][..l] == lines[..l];
  }

  /** The blocks loop, one more block in. */
  lemma BlockStep(blocks: seq<RawBlock>, b: nat)
    requires b < |blocks|
    ensures BlockSpans(blocks[..b + 1]) == BlockSpans(blocks[..b]) + LineSpans(blocks[b].lines)
  {
    assert blocks[..b + 1][..b] == blocks[..b];
  }

  // ---------------------------------------------------------------------
  // Properties of the traversal order

  /** The spans of two runs of lines are those of the first, then those of the second. */
  lemma {:induction false} LineSpansAppend(a: seq<RawLine>, c: seq<RawLine>)
    ensures LineSpans(a + c) == LineSpans(a) + LineSpans(c)
    decreases |c|
  {
    if c == [] {
      assert a + c == a;
    } else {
      var c', last := c[..|c| - 1], c[|c| - 1];
      assert (a + c)[..|a + c| - 1] == a + c' && (a + c)[|a + c| - 1] == last;
      calc {
        LineSpans(a + c);
        LineSpans(a + c') + last.spans;
        { LineSpansAppend(a, c'); }
        LineSpans(a) + LineSpans(c') + last.spans;
        { AppendAssoc(LineSpans(a), LineSpans(c'), last.spans); }
        LineSpans(a) + LineSpans(c);
      }
    }
  }

  lemma {:induction false} BlockSpansAppend(a: seq<RawBlock>, c: seq<RawBlock>)
    ensures BlockSpans(a + c) == BlockSpans(a) + BlockSpans(c)
    decreases |c|
  {
    if c == [] {
      assert a + c == a;
    } else {
      var c', last := c[..|c| - 1], c[|c| - 1];
      assert (a + c)[..|a + c| - 1] == a + c' && (a + c)[|a + c| - 1] == last;
      calc {
        BlockSpans(a + c);
        BlockSpans(a + c') + LineSpans(last.lines);
        { BlockSpansAppend(a, c'); }
        BlockSpans(a) + BlockSpans(c') + LineSpans(last.lines);
        { AppendAssoc(BlockSpans(a), BlockSpans(c'), LineSpans(last.lines)); }
        BlockSpans(a) + BlockSpans(c);
      }
    }
  }

  /** Span `s` of line `l` of block `b` sits at position
      (spans of the earlier blocks) + (spans of the earlier lines of block b) + s
      in the flattened output. */
  lemma SpanPosition(page: TextPage, b: nat, l: nat, s: nat)
    requires b < |page.blocks| && l < |page.blocks[b].lines| && s < |page.blocks[b].lines[l].spans|
    ensures var k := |BlockSpans(page.blocks[..b])| + |LineSpans(page.blocks[b].lines[..l])| + s;
            k < |PageSpans(page)| && PageSpans(page)[k] == page.blocks[b].lines[l].spans[s]
  {
    var blocks := page.blocks;
    var lines := blocks[b].lines;
    var pre, lpre := BlockSpans(blocks[..b]), LineSpans(lines[..l]);
    var blockSpans := BlockSpans(blocks[..b + 1]);
    assert blockSpans <= PageSpans(page) by {
      assert blocks[..b + 1] + blocks[b + 1..] == blocks;
      BlockSpansAppend(blocks[..b + 1], blocks[b + 1..]);
    }
    assert blockSpans == pre + LineSpans(lines) by {
      BlockStep(blocks, b);
    }
    assert LineSpans(lines[..l + 1]) <= LineSpans(lines) by {
      assert lines[..l + 1] + lines[l + 1..] == lines;
      LineSpansAppend(lines[..l + 1], lines[l + 1..]);
    }
    assert LineSpans(lines[..l + 1]) == lpre + lines[l].spans by {
      LineStep(lines, l);
    }
    assert LineSpans(lines)[|lpre| + s] == lines[l].spans[s];
    assert blockSpans[|pre| + |lpre| + s] == lines[l].spans[s];
  }
}
