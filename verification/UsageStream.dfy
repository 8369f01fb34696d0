/** `find_usage_in_body` in `src/proxy/sse.rs`: a body is JSON, or lines of which
    some carry JSON. Decoding a line (UTF-8, trimming, the `data: ` prefix and the
    JSON parser) is a parameter. */
module UsageStream {
  import opened Options
  import opened UsageJson
  import opened UsageScan

  newtype byte = x: int | 0 <= x < 256

  const NEWLINE: byte := 10

  type Decoder = seq<byte> -> Option<Json>

  /** `slice::split`: one more piece than there are newlines. */
  function Pieces(body: seq<byte>): (r: seq<seq<byte>>)
    ensures r != []
  {
    if body == [] then [[]]
    else AddByte(Pieces(body[..|body| - 1]), body[|body| - 1])
  }

  function AddByte(pieces: seq<seq<byte>>, b: byte): (r: seq<seq<byte>>)
    requires pieces != []
    ensures r != []
  {
    if b == NEWLINE then pieces + [[]]
    else pieces[..|pieces| - 1] + [pieces[|pieces| - 1] + [b]]
  }

  function ScanPieces(known: Usage, decode: Decoder, pieces: seq<seq<byte>>): Usage {
    if pieces == [] then known
    else
      var before := ScanPieces(known, decode, pieces[..|pieces| - 1]);
      match decode(pieces[|pieces| - 1])
      case Some(v) => Walk(before, v, 0)
      case None => before
  }

  function ScanSse(known: Usage, decode: Decoder, body: seq<byte>): Usage {
    ScanPieces(known, decode, Pieces(body))
  }

  function ScanJson(parse: Decoder, body: seq<byte>): Usage {
    match parse(body)
    case Some(v) => Walk(NO_USAGE, v, 0)
    case None => NO_USAGE
  }

  // ---- Pieces ----

  function Joined(pieces: seq<seq<byte>>): seq<byte>
    requires pieces != []
  {
    if |pieces| == 1 then pieces[0]
    else Joined(pieces[..|pieces| - 1]) + [NEWLINE] + pieces[|pieces| - 1]
  }

  lemma JoinedLast(pieces: seq<seq<byte>>, b: byte)
    requires pieces != []
    ensures Joined(AddByte(pieces, b)) == Joined(pieces) + [b]
  {
    var n := |pieces| - 1;
    if b == NEWLINE {
      assert (pieces + [[]])[..|pieces|] == pieces;
      assert Joined(pieces) + [NEWLINE] + [] == Joined(pieces) + [NEWLINE];
    } else if n > 0 {
      assert AddByte(pieces, b)[..n] == pieces[..n];
      assert Joined(pieces[..n]) + [NEWLINE] + (pieces[n] + [b]) == Joined(pieces[..n]) + [NEWLINE] + pieces[n] + [b];
    }
  }

  /** The pieces hold no newline and, joined by newlines, are the body: no byte is
      lost and no line is cut. */
  lemma {:induction false} PiecesJoin(body: seq<byte>)
    ensures Joined(Pieces(body)) == body
    ensures forall i | 0 <= i < |Pieces(body)| :: NEWLINE !in Pieces(body)[i]
  {
    if body != [] {
      var n := |body| - 1;
      PiecesJoin(body[..n]);
      assert body == body[..n] + [body[n]];
      JoinedLast(Pieces(body[..n]), body[n]);
      hide Joined;
    }
  }

  lemma AddByteRight(a: seq<seq<byte>>, b: seq<seq<byte>>, x: byte)
    requires b != []
    ensures AddByte(a + b, x) == a + AddByte(b, x)
  {
    assert (a + b)[..|a + b| - 1] == a + b[..|b| - 1];
  }

  lemma PiecesGrow(s: seq<byte>, x: byte)
    ensures Pieces(s + [x]) == AddByte(Pieces(s), x)
  {
    assert (s + [x])[..|s|] == s;
  }

  lemma {:induction false} PiecesAfter(head: seq<byte>, first: seq<seq<byte>>, b: seq<byte>)
    requires Pieces(head) == first + [[]]
    ensures Pieces(head + b) == first + Pieces(b)
  {
    if b == [] {
      assert head + b == head;
    } else {
      var init, x := b[..|b| - 1], b[|b| - 1];
      assert b == init + [x] && head + b == head + init + [x];
      PiecesAfter(head, first, init);
      PiecesGrow(head + init, x);
      PiecesGrow(init, x);
      hide Pieces, AddByte;
      AddByteRight(first, Pieces(init), x);
    }
  }

  /** A cut at a newline cuts no piece. */
  lemma PiecesCut(a: seq<byte>, b: seq<byte>)
    ensures Pieces(a + [NEWLINE] + b) == Pieces(a) + Pieces(b)
  {
    PiecesGrow(a, NEWLINE);
    PiecesAfter(a + [NEWLINE], Pieces(a), b);
  }

  lemma {:induction false} ScanPiecesJoin(known: Usage, decode: Decoder, a: seq<seq<byte>>, b: seq<seq<byte>>)
    ensures ScanPieces(known, decode, a + b) == ScanPieces(ScanPieces(known, decode, a), decode, b)
  {
    if b == [] {
      assert a + b == a;
    } else {
      var n := |b| - 1;
      assert (a + b)[..|a + b| - 1] == a + b[..n];
      ScanPiecesJoin(known, decode, a, b[..n]);
    }
  }

  /** Main result: scanning a body cut at a newline is scanning the first part and
      going on from its result on the second. */
  lemma ScanCut(known: Usage, decode: Decoder, a: seq<byte>, b: seq<byte>)
    ensures ScanSse(known, decode, a + [NEWLINE] + b) == ScanSse(ScanSse(known, decode, a), decode, b)
  {
    PiecesCut(a, b);
    ScanPiecesJoin(known, decode, Pieces(a), Pieces(b));
  }

  // ---- What a stream says ----

  function SaidIn(v: Json): seq<Usage> {
    SaidAlong(v, Ways(v, 0))
  }

  function SaidByPieces(decode: Decoder, pieces: seq<seq<byte>>): seq<Usage> {
    if pieces == [] then []
    else SaidByPieces(decode, pieces[..|pieces| - 1])
         + match decode(pieces[|pieces| - 1])
           case Some(v) => SaidIn(v)
           case None => []
  }

  lemma {:induction false} ScanPiecesIsFold(known: Usage, decode: Decoder, pieces: seq<seq<byte>>)
    ensures ScanPieces(known, decode, pieces) == Fold(known, SaidByPieces(decode, pieces))
  {
    if pieces != [] {
      var n := |pieces| - 1;
      ScanPiecesIsFold(known, decode, pieces[..n]);
      var before := SaidByPieces(decode, pieces[..n]);
      match decode(pieces[n])
      case Some(v) =>
        WalkIsFold(Fold(known, before), v, 0);
        hide Fold, SaidAlong, Ways, Walk;
        FoldJoins(known, before, SaidIn(v));
      case None =>
        assert before + [] == before;
    }
  }

  /** Main result: over a whole stream each count is the last one stated by any
      node of any line, and the stop reason the first. */
  lemma StreamSummary(decode: Decoder, body: seq<byte>)
    ensures Summary(NO_USAGE, SaidByPieces(decode, Pieces(body)), ScanSse(NO_USAGE, decode, body))
  {
    ScanPiecesIsFold(NO_USAGE, decode, Pieces(body));
    FoldSummary(NO_USAGE, SaidByPieces(decode, Pieces(body)));
  }

  /** A stop reason once found never changes, whatever follows. */
  lemma StopReasonStays(known: Usage, decode: Decoder, body: seq<byte>)
    requires known.stopReason.Some?
    ensures ScanSse(known, decode, body).stopReason == known.stopReason
  {
    ScanPiecesIsFold(known, decode, Pieces(body));
    FoldSummary(known, SaidByPieces(decode, Pieces(body)));
    hide SaidByPieces, Fold, LastFound;
  }
}
