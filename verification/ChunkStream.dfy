/**
 * What the CHUNK decoders accept, for arbitrary input: an independent
 * description of the byte streams they complete on, and of those they do not.
 */
module ChunkStream {
  import opened Common
  import opened Decimal
  import opened Text
  import opened Chunk

  /** A header line, newline included, and the bytes after it. */
  datatype Piece = Piece(line: string, data: string)

  predicate IsLine(line: string) {
    line != "" && line[|line| - 1] == '\n' && '\n' !in line[..|line| - 1]
  }

  /** The number a header line announces, line ends aside. */
  function SizeOf(line: string): Option<int> {
    var text := TrimRight(line, IsLineEnd);
    if "CHUNK " <= text && ParseInt(text[6..]).Number? then Some(ParseInt(text[6..]).n) else None
  }

  /** A frame of the announced size within the bound, or a line of negative size where those are skipped. */
  predicate IsPiece(p: Policy, piece: Piece) {
    && IsLine(piece.line) && SizeOf(piece.line).Some?
    && var n := SizeOf(piece.line).value;
       || (n > 0 && |piece.data| == n && (p.maxChunk.Some? ==> n <= p.maxChunk.value))
       || (n < 0 && piece.data == "" && p.skipNegative)
  }

  predicate IsEnd(line: string) {
    IsLine(line) && SizeOf(line) == Some(0)
  }

  function Wire(pieces: seq<Piece>): string {
    if pieces == [] then "" else pieces[0].line + pieces[0].data + Wire(pieces[1..])
  }

  function Carried(pieces: seq<Piece>): string {
    if pieces == [] then "" else pieces[0].data + Carried(pieces[1..])
  }

  /**
   * The stream is well-formed pieces, an end line and the rest. With what was
   * there before, the pieces make up the data, within the declared size.
   */
  ghost predicate IsTransfer(
      p: Policy, got: string, s: string, pieces: seq<Piece>, end: string, data: string, rest: string)
  {
    && (forall i :: 0 <= i < |pieces| ==> IsPiece(p, pieces[i])) && IsEnd(end)
    && s == Wire(pieces) + end + rest
    && data == got + Carried(pieces) && (p.declared.Some? ==> |data| <= p.declared.value)
  }

  /** A header means what its line announces. */
  lemma HeaderMeans(p: Policy, line: string)
    ensures
      var size, header := SizeOf(line), ParseHeader(p, line);
      var text := TrimRight(line, IsLineEnd);
      && (header == Refuse(NotChunk) <==> !("CHUNK " <= text))
      && (header == Refuse(BadSize) <==> "CHUNK " <= text && size.None?)
      && (header.End? <==> size == Some(0))
      && (header == Refuse(TooLarge) <==>
            size.Some? && size.value != 0 && p.maxChunk.Some? && size.value > p.maxChunk.value)
      && (header.Take? <==>
            size.Some? && size.value > 0 && (p.maxChunk.Some? ==> size.value <= p.maxChunk.value))
      && (header.Take? ==> header.n == size.value)
      && (header.Skip? <==> size.Some? && size.value < 0 && p.skipNegative)
      && (header == Refuse(Incomplete) <==> size.Some? && size.value < 0 && !p.skipNegative)
  {
  }

  lemma LineComesFirst(line: string, after: string)
    requires IsLine(line)
    ensures
      var s := line + after;
      IndexOf(s, '\n') == |line| - 1 && s[..|line|] == line && s[|line|..] == after
  {
    var w := line[..|line| - 1];
    IndexOfAfter(w, '\n', after);
    assert w + ['\n'] + after == line + after;
  }

  /** What a decoder does with a line and the bytes after it, by the size the line announces. */
  lemma TurnMeans(p: Policy, got: string, line: string, after: string)
    requires IsLine(line)
    ensures
      var r, size := DecodeFrom(p, got, line + after), SizeOf(line);
      if size.None? then r.Failed?
      else if size.value == 0 then r == Complete(got, after)
      else if size.value < 0 then (if p.skipNegative then r == DecodeFrom(p, got, after) else r.Failed?)
      else if p.maxChunk.Some? && size.value > p.maxChunk.value then r.Failed?
      else if size.value > |after| then r.Failed?
      else if p.declared.Some? && |got| + size.value > p.declared.value then r.Failed?
      else r == DecodeFrom(p, got + after[..size.value], after[size.value..])
  {
    LineComesFirst(line, after);
    HeaderMeans(p, line);
    var header, rest := DecodeStep(p, got, line + after);
  }

  /** The first turn of a transfer that completes: its line, the bytes it takes, and what goes on from there. */
  lemma FirstTurn(p: Policy, got: string, s: string) returns (line: string, bytes: string, left: string)
    requires DecodeFrom(p, got, s).Complete?
    ensures s == line + (bytes + left) && |left| < |s|
    ensures if IsEnd(line) then bytes == "" && DecodeFrom(p, got, s) == Complete(got, left)
            else
              && IsPiece(p, Piece(line, bytes))
              && (bytes != "" && p.declared.Some? ==> |got + bytes| <= p.declared.value)
              && DecodeFrom(p, got, s) == DecodeFrom(p, got + bytes, left)
  {
    HasLine(p, got, s);
    var after;
    line, after := Split(s);
    bytes, left := TakePiece(p, got, line, after);
  }

  lemma HasLine(p: Policy, got: string, s: string)
    requires DecodeFrom(p, got, s).Complete?
    ensures IndexOf(s, '\n') >= 0
  {
  }

  lemma Split(s: string) returns (line: string, after: string)
    requires IndexOf(s, '\n') >= 0
    ensures IsLine(line) && s == line + after
  {
    var i := IndexOf(s, '\n');
    line, after := s[..i + 1], s[i + 1..];
  }

  lemma TakePiece(p: Policy, got: string, line: string, after: string) returns (bytes: string, left: string)
    requires IsLine(line) && DecodeFrom(p, got, line + after).Complete?
    ensures after == bytes + left
    ensures if IsEnd(line) then bytes == "" && DecodeFrom(p, got, line + after) == Complete(got, left)
            else
              && IsPiece(p, Piece(line, bytes))
              && (bytes != "" && p.declared.Some? ==> |got + bytes| <= p.declared.value)
              && DecodeFrom(p, got, line + after) == DecodeFrom(p, got + bytes, left)
  {
    TurnMeans(p, got, line, after);
    var n := SizeOf(line).value;
    if n > 0 {
      bytes, left := CutAt(after, n);
      IsFrame(p, line, bytes);
    } else {
      bytes, left := "", after;
      Nothing(got, after);
    }
  }

  lemma CutAt(s: string, n: nat) returns (a: string, b: string)
    requires n <= |s|
    ensures a == s[..n] && b == s[n..] && |a| == n && s == a + b
  {
    a, b := s[..n], s[n..];
  }

  lemma Nothing(a: string, b: string)
    ensures a + "" == a && "" + b == b
  {
  }

  lemma IsFrame(p: Policy, line: string, bytes: string)
    requires IsLine(line) && SizeOf(line) == Some(|bytes|) && bytes != ""
    requires p.maxChunk.Some? ==> |bytes| <= p.maxChunk.value
    ensures IsPiece(p, Piece(line, bytes)) && !IsEnd(line)
  {
  }

  lemma OneMore(p: Policy, got: string, piece: Piece, after: string,
                more: seq<Piece>, end: string, data: string, rest: string)
    requires IsPiece(p, piece) && IsTransfer(p, got + piece.data, after, more, end, data, rest)
    ensures IsTransfer(p, got, piece.line + (piece.data + after), [piece] + more, end, data, rest)
  {
    Joined(piece, more, got, end, rest);
  }

  lemma Joined(piece: Piece, more: seq<Piece>, got: string, end: string, rest: string)
    ensures Wire([piece] + more) + end + rest == piece.line + (piece.data + (Wire(more) + end + rest))
    ensures got + Carried([piece] + more) == got + piece.data + Carried(more)
  {
    assert ([piece] + more)[1..] == more;
  }

  /** The pieces and the end line of a completed transfer. */
  lemma {:induction false} Accepted(p: Policy, got: string, s: string, data: string, rest: string)
    returns (pieces: seq<Piece>, end: string)
    requires DecodeFrom(p, got, s) == Complete(data, rest) && (p.declared.Some? ==> |got| <= p.declared.value)
    ensures IsTransfer(p, got, s, pieces, end, data, rest)
    decreases |s|
  {
    var line, bytes, left := FirstTurn(p, got, s);
    if IsEnd(line) {
      pieces, end := [], line;
      NoMore(p, got, line, left);
      assert s == line + left;
    } else {
      var more;
      more, end := Accepted(p, got + bytes, left, data, rest);
      pieces := [Piece(line, bytes)] + more;
      OneMore(p, got, Piece(line, bytes), left, more, end, data, rest);
    }
  }

  lemma NoMore(p: Policy, got: string, end: string, rest: string)
    requires IsEnd(end) && (p.declared.Some? ==> |got| <= p.declared.value)
    ensures IsTransfer(p, got, end + rest, [], end, got, rest)
  {
    assert "" + end + rest == end + rest && got + "" == got;
  }

  /** Such a stream is decoded to what it carries. */
  lemma {:induction false} Decoded(
      p: Policy, got: string, s: string, pieces: seq<Piece>, end: string, data: string, rest: string)
    requires IsTransfer(p, got, s, pieces, end, data, rest)
    ensures DecodeFrom(p, got, s) == Complete(data, rest)
    decreases |pieces|
  {
    if pieces == [] {
      assert s == end + rest && data == got;
      TurnMeans(p, got, end, rest);
    } else {
      var piece, more := pieces[0], pieces[1..];
      var after := Wire(more) + end + rest;
      assert pieces == [piece] + more;
      Joined(piece, more, got, end, rest);
      TurnMeans(p, got, piece.line, piece.data + after);
      Decoded(p, got + piece.data, after, more, end, data, rest);
      assert (piece.data + after)[..|piece.data|] == piece.data && (piece.data + after)[|piece.data|..] == after;
      assert piece.data == "" ==> got + piece.data == got && piece.data + after == after;
    }
  }

  /**
   * For every input and every tolerance: a decoder completes with some data and
   * some rest exactly when the input is a sequence of well-formed frames that
   * carry the data, then a line announcing size zero, then the rest.
   */
  lemma CompletesExactly(p: Policy, s: string, data: string, rest: string)
    ensures Decode(p, s) == Complete(data, rest) <==>
            exists pieces, end :: IsTransfer(p, "", s, pieces, end, data, rest)
  {
    if Decode(p, s) == Complete(data, rest) {
      var pieces, end := Accepted(p, "", s, data, rest);
    }
    if pieces, end :| IsTransfer(p, "", s, pieces, end, data, rest) {
      Decoded(p, "", s, pieces, end, data, rest);
    }
  }

  /** A transfer cut off anywhere before its end fails. */
  lemma {:induction false} CutFails(p: Policy, got: string, s: string, k: nat)
    requires DecodeFrom(p, got, s).Complete? && k < |s| - |DecodeFrom(p, got, s).rest|
    ensures DecodeFrom(p, got, s[..k]).Failed?
    decreases |s|
  {
    var line, bytes, left := FirstTurn(p, got, s);
    if k < |line| + |bytes| {
      CutInPiece(p, got, line, bytes, left, k);
    } else if !IsEnd(line) {
      CutFails(p, got + bytes, left, k - |line| - |bytes|);
      CutAfterPiece(p, got, line, bytes, left, k);
    }
  }

  lemma CutInPiece(p: Policy, got: string, line: string, bytes: string, left: string, k: nat)
    requires IsEnd(line) || IsPiece(p, Piece(line, bytes))
    requires k < |line| || (!IsEnd(line) && k < |line| + |bytes|)
    ensures DecodeFrom(p, got, (line + (bytes + left))[..k]).Failed?
  {
    var s := line + (bytes + left);
    if k < |line| {
      assert s[..k] == line[..|line| - 1][..k];
      assert IndexOf(s[..k], '\n') < 0;
    } else {
      assert s[..k] == line + bytes[..k - |line|];
      TurnMeans(p, got, line, bytes[..k - |line|]);
    }
  }

  lemma CutAfterPiece(p: Policy, got: string, line: string, bytes: string, left: string, k: nat)
    requires IsPiece(p, Piece(line, bytes)) && |line| + |bytes| <= k <= |line| + |bytes| + |left|
    requires DecodeFrom(p, got + bytes, left[..k - |line| - |bytes|]).Failed?
    ensures DecodeFrom(p, got, (line + (bytes + left))[..k]).Failed?
  {
    var s, cut := line + (bytes + left), left[..k - |line| - |bytes|];
    assert s[..k] == line + (bytes + cut);
    TurnMeans(p, got, line, bytes + cut);
    assert (bytes + cut)[..|bytes|] == bytes && (bytes + cut)[|bytes|..] == cut;
    assert bytes == "" ==> got + bytes == got && bytes + cut == cut;
  }

  /** In particular every truncated encoding, by each of the three decoders. */
  lemma TruncatedFails(pieces: seq<string>, k: nat)
    requires IsSplit(pieces) && k < |Encode(pieces)|
    ensures Decode(GET_POLICY, Encode(pieces)[..k]).Failed?
    ensures Decode(MOUNT_POLICY, Encode(pieces)[..k]).Failed?
    ensures Decode(AgentPolicy(|Flatten(pieces)|), Encode(pieces)[..k]).Failed?
  {
    RoundTrip(pieces, "");
    assert Encode(pieces) + "" == Encode(pieces);
    CutFails(GET_POLICY, "", Encode(pieces), k);
    CutFails(MOUNT_POLICY, "", Encode(pieces), k);
    CutFails(AgentPolicy(|Flatten(pieces)|), "", Encode(pieces), k);
  }
}
