/** The read loop of `callAI`: the decoded chunks of the streamed response are
    split into `data: ...` lines, and the `delta.content` of every line that
    parses is appended to the reply, which is re-rendered after each piece. */
module Stream {
  import opened Text

  /** What `JSON.parse(jsonStr)` followed by `choices[0]?.delta?.content || ''`
      gives for one line: a parse failure (or a missing `choices`, which throws
      too), no content, or some content. The decoder is a parameter of the model. */
  datatype Delta = Unparsable | NoContent | Content(text: string)

  const DataPrefix := "data: "

  /** `line.replace(/^data: /, '')`. */
  function StripDataPrefix(line: string): (r: string)
    ensures StartsWith(line, DataPrefix) ==> line == DataPrefix + r
    ensures !StartsWith(line, DataPrefix) ==> r == line
  {
    if StartsWith(line, DataPrefix) then line[|DataPrefix|..] else line
  }

  /** What one line adds to the reply: nothing for a blank line, for the
      `data: [DONE]` sentinel, for a line that does not parse and for an empty
      or missing content. */
  function LineText(line: string, decode: string -> Delta): string {
    if Trim(line) == "" || Trim(line) == "data: [DONE]" then ""
    else
      match decode(StripDataPrefix(line))
      case Content(c) => c
      case _ => ""
  }

  /** The lines of every chunk, chunk by chunk: a line cut in two by a chunk
      boundary stays two lines. */
  function Lines(chunks: seq<string>): seq<string>
    decreases |chunks|
  {
    if |chunks| == 0 then [] else Lines(chunks[..|chunks| - 1]) + Split(chunks[|chunks| - 1])
  }

  /** What each line adds, line by line. */
  function Pieces(lines: seq<string>, decode: string -> Delta): (pieces: seq<string>)
    ensures |pieces| == |lines|
  {
    seq(|lines|, k requires 0 <= k < |lines| => LineText(lines[k], decode))
  }

  /** `accumulatedContent` after the given pieces. */
  function Accumulated(pieces: seq<string>): string
    decreases |pieces|
  {
    if |pieces| == 0 then "" else Accumulated(pieces[..|pieces| - 1]) + pieces[|pieces| - 1]
  }

  /** The texts handed to the Markdown renderer, one per non-empty piece. */
  function Rendered(pieces: seq<string>): seq<string>
    decreases |pieces|
  {
    if |pieces| == 0 then []
    else
      Rendered(pieces[..|pieces| - 1])
      + (if pieces[|pieces| - 1] != "" then [Accumulated(pieces)] else [])
  }

  /** The reply the stream produces. */
  function Reply(chunks: seq<string>, decode: string -> Delta): string {
    Accumulated(Pieces(Lines(chunks), decode))
  }

  /** The `while (true)` read loop over the chunks, returning the final reply
      and the texts rendered along the way. */
  method ReadStream(chunks: seq<string>, decode: string -> Delta)
    returns (accumulatedContent: string, rendered: seq<string>)
    ensures accumulatedContent == Reply(chunks, decode)
    ensures rendered == Rendered(Pieces(Lines(chunks), decode))
  {
    accumulatedContent := "";
    rendered := [];
    var i := 0;
    while i < |chunks|
      invariant 0 <= i <= |chunks|
      invariant accumulatedContent == Accumulated(Pieces(Lines(chunks[..i]), decode))
      invariant rendered == Rendered(Pieces(Lines(chunks[..i]), decode))
    {
      ghost var seen := Pieces(Lines(chunks[..i]), decode);
      var lines := Split(chunks[i]);
      accumulatedContent, rendered := ReadLines(lines, decode, accumulatedContent, rendered, seen);
      assert chunks[..i + 1][..i] == chunks[..i];
      assert Lines(chunks[..i + 1]) == Lines(chunks[..i]) + lines;
      PiecesConcat(Lines(chunks[..i]), lines, decode);
      i := i + 1;
    }
    assert chunks[..|chunks|] == chunks;
  }

  /** The inner loop of `ReadStream`, over the lines of one chunk. */
  method ReadLines(lines: seq<string>, decode: string -> Delta, content0: string, rendered0: seq<string>,
                   ghost seen: seq<string>)
    returns (accumulatedContent: string, rendered: seq<string>)
    requires content0 == Accumulated(seen) && rendered0 == Rendered(seen)
    ensures accumulatedContent == Accumulated(seen + Pieces(lines, decode))
    ensures rendered == Rendered(seen + Pieces(lines, decode))
  {
    accumulatedContent, rendered := content0, rendered0;
    var j := 0;
    assert seen + Pieces(lines[..0], decode) == seen;
    while j < |lines|
      invariant 0 <= j <= |lines|
      invariant accumulatedContent == Accumulated(seen + Pieces(lines[..j], decode))
      invariant rendered == Rendered(seen + Pieces(lines[..j], decode))
    {
      var line := lines[j];
      ghost var done := seen + Pieces(lines[..j], decode);
      assert lines[..j + 1] == lines[..j] + [line];
      PiecesSnoc(lines[..j], line, decode);
      assert seen + Pieces(lines[..j + 1], decode) == done + [LineText(line, decode)];
      AppendPiece(done, LineText(line, decode));
      if Trim(line) != "" && Trim(line) != "data: [DONE]" {
        var jsonStr := StripDataPrefix(line);
        var content := match decode(jsonStr) case Content(c) => c case _ => "";
        if content != "" {
          accumulatedContent := accumulatedContent + content;
          rendered := rendered + [accumulatedContent];
        }
      }
      j := j + 1;
    }
    assert lines[..|lines|] == lines;
  }

  // ---------------------------------------------------------------------------
  // What the loop promises
  // ---------------------------------------------------------------------------

  /** The reply only grows: what was accumulated after some pieces is a prefix
      of what is accumulated after more. */
  lemma {:induction false} AccumulatedGrows(pieces: seq<string>, n: nat)
    requires n <= |pieces|
    ensures Accumulated(pieces[..n]) <= Accumulated(pieces)
    decreases |pieces|
  {
    if n < |pieces| {
      var init := pieces[..|pieces| - 1];
      assert pieces[..n] == init[..n];
      AccumulatedGrows(init, n);
    } else {
      assert pieces[..n] == pieces;
    }
  }

  /** Every rendered text extends the one before it, every one is a prefix of
      the final reply, the last one is the final reply, and nothing is rendered
      exactly when the reply is empty. */
  lemma {:induction false} RenderedGrowToFinal(pieces: seq<string>)
    ensures forall k :: 0 <= k < |Rendered(pieces)| ==> Rendered(pieces)[k] <= Accumulated(pieces)
    ensures forall k :: 0 < k < |Rendered(pieces)| ==> Rendered(pieces)[k - 1] < Rendered(pieces)[k]
    ensures |Rendered(pieces)| > 0 ==> Rendered(pieces)[|Rendered(pieces)| - 1] == Accumulated(pieces)
    ensures |Rendered(pieces)| == 0 <==> Accumulated(pieces) == ""
    decreases |pieces|
  {
    if |pieces| > 0 {
      var init := pieces[..|pieces| - 1];
      var last := pieces[|pieces| - 1];
      RenderedGrowToFinal(init);
      var r0, a0 := Rendered(init), Accumulated(init);
      var r, a := Rendered(pieces), Accumulated(pieces);
      assert a == a0 + last;
      assert a0 <= a;
      if last == "" {
        assert r == r0;
        assert a == a0;
      } else {
        assert r == r0 + [a];
        assert |a| > |a0|;
        forall k | 0 <= k < |r| ensures r[k] <= a {
          if k < |r0| {
            assert r[k] == r0[k];
          }
        }
        forall k | 0 < k < |r| ensures r[k - 1] < r[k] {
          if k < |r0| {
            assert r[k - 1] == r0[k - 1] && r[k] == r0[k];
          } else {
            assert r[k] == a;
            if k - 1 < |r0| {
              assert r[k - 1] == r0[k - 1];
            }
          }
        }
      }
    }
  }

  lemma {:induction false} AccumulatedConcat(a: seq<string>, b: seq<string>)
    ensures Accumulated(a + b) == Accumulated(a) + Accumulated(b)
    decreases |b|
  {
    if |b| == 0 {
      assert a + b == a;
    } else {
      var ab, b0 := a + b, b[..|b| - 1];
      AccumulatedConcat(a, b0);
      assert ab[..|ab| - 1] == a + b0;
      assert ab[|ab| - 1] == b[|b| - 1];
      AppendAssoc(Accumulated(a), Accumulated(b0), b[|b| - 1]);
    }
  }

  lemma {:induction false} LinesConcat(c1: seq<string>, c2: seq<string>)
    ensures Lines(c1 + c2) == Lines(c1) + Lines(c2)
    decreases |c2|
  {
    if |c2| == 0 {
      assert c1 + c2 == c1;
    } else {
      var c, init, last := c1 + c2, c2[..|c2| - 1], c2[|c2| - 1];
      assert c[..|c| - 1] == c1 + init;
      assert c[|c| - 1] == last;
      LinesConcat(c1, init);
      assert Lines(c) == Lines(c1 + init) + Split(last);
      assert Lines(c2) == Lines(init) + Split(last);
      AppendAssoc(Lines(c1), Lines(init), Split(last));
    }
  }

  /** Nothing is carried from one read to the next: the reply for two runs of
      chunks is the two replies one after the other. */
  lemma NoCarryOver(c1: seq<string>, c2: seq<string>, decode: string -> Delta)
    ensures Reply(c1 + c2, decode) == Reply(c1, decode) + Reply(c2, decode)
  {
    LinesConcat(c1, c2);
    var l1, l2 := Lines(c1), Lines(c2);
    PiecesConcat(l1, l2, decode);
    AccumulatedConcat(Pieces(l1, decode), Pieces(l2, decode));
  }

  lemma AppendPiece(pieces: seq<string>, piece: string)
    ensures Accumulated(pieces + [piece]) == Accumulated(pieces) + piece
    ensures Rendered(pieces + [piece])
         == Rendered(pieces) + (if piece != "" then [Accumulated(pieces) + piece] else [])
  {
    assert (pieces + [piece])[..|pieces|] == pieces;
  }

  lemma PiecesSnoc(lines: seq<string>, line: string, decode: string -> Delta)
    ensures Pieces(lines + [line], decode) == Pieces(lines, decode) + [LineText(line, decode)]
  {
  }

  lemma PiecesConcat(a: seq<string>, b: seq<string>, decode: string -> Delta)
    ensures Pieces(a + b, decode) == Pieces(a, decode) + Pieces(b, decode)
  {
  }

  lemma SkippedLineText(line: string, decode: string -> Delta)
    requires Trim(line) == "" || Trim(line) == "data: [DONE]" || !decode(StripDataPrefix(line)).Content?
    ensures LineText(line, decode) == ""
  {
  }

  lemma EmptyPieceIgnored(before: seq<string>, after: seq<string>)
    ensures Accumulated(before + [""] + after) == Accumulated(before + after)
  {
    AccumulatedConcat(before + [""], after);
    AccumulatedConcat(before, [""]);
    AccumulatedConcat(before, after);
    assert [""][..0] == [];
  }

  /** A blank line, the `[DONE]` sentinel or a line that does not parse, wherever
      it stands, leaves the reply as if it were not there; the stream goes on. */
  lemma SkippedLineIgnored(before: seq<string>, line: string, after: seq<string>, decode: string -> Delta)
    requires Trim(line) == "" || Trim(line) == "data: [DONE]" || !decode(StripDataPrefix(line)).Content?
    ensures Accumulated(Pieces(before + [line] + after, decode)) == Accumulated(Pieces(before + after, decode))
  {
    SkippedLineText(line, decode);
    PiecesSnoc(before, line, decode);
    PiecesConcat(before + [line], after, decode);
    PiecesConcat(before, after, decode);
    EmptyPieceIgnored(Pieces(before, decode), Pieces(after, decode));
  }
}
