/**
 * The CHUNK framing of file transfers: "CHUNK <n>\n" and n bytes, repeated,
 * then "CHUNK 0\n". One encoder (internal/agent/fileshare.go, handleRead, and
 * internal/client/fileshare.go, cmdFilesPut) and three decoders that differ in
 * what they tolerate. A byte is a char; the theorems hold for every char.
 */
module Chunk {
  import opened Common
  import opened Decimal
  import opened Text

  const MAX_CHUNK: nat := 16384

  const CHUNK := "CHUNK "
  const TERMINATOR := "CHUNK 0\n"

  function Frame(piece: string): string {
    CHUNK + Print(|piece|) + "\n" + piece
  }

  /** What the sender writes for the pieces its reads return. */
  function Encode(pieces: seq<string>): string {
    if pieces == [] then TERMINATOR else Frame(pieces[0]) + Encode(pieces[1..])
  }

  /**
   * What a decoder tolerates: a chunk size bound, a bound on the total, and
   * whether a negative size is skipped (mountDownloadToFile, whose CopyN of a
   * negative count reports no error) or refused.
   */
  datatype Policy = Policy(maxChunk: Option<nat>, declared: Option<nat>, skipNegative: bool)

  function AgentPolicy(declared: nat): Policy {
    Policy(Some(MAX_CHUNK), Some(declared), false)
  }

  const GET_POLICY := Policy(None, None, false)
  const MOUNT_POLICY := Policy(None, None, true)

  datatype Failure = Stalled | NotChunk | BadSize | TooLarge | Incomplete | Overrun

  /** rest is what the shared reader has left. */
  datatype Decoded = Complete(data: string, rest: string) | Failed(why: Failure, rest: string)

  predicate IsLineEnd(c: char) {
    c == '\n' || c == '\r'
  }

  /** What one header line asks for. */
  datatype Header = End | Take(n: nat) | Skip | Refuse(why: Failure)

  /** line as read, newline included. */
  function ParseHeader(p: Policy, line: string): Header {
    var trimmed := TrimRight(line, IsLineEnd);
    if !HasPrefix(trimmed, CHUNK) then Refuse(NotChunk)
    else
      match ParseInt(trimmed[|CHUNK|..])
      case Syntax => Refuse(BadSize)
      case Range(_) => Refuse(BadSize)
      case Number(n) =>
        if n == 0 then End
        else if p.maxChunk.Some? && n > p.maxChunk.value then Refuse(TooLarge)
        else if n < 0 then (if p.skipNegative then Skip else Refuse(Incomplete))
        else Take(n)
  }

  /** The decoder loop: got is what earlier chunks carried, s what the reader holds. */
  function DecodeFrom(p: Policy, got: string, s: string): (r: Decoded)
    ensures |r.rest| <= |s|
    decreases |s|
  {
    var i := IndexOf(s, '\n');
    if i < 0 then Failed(Stalled, "")
    else
      var rest := s[i + 1..];
      match ParseHeader(p, s[..i + 1])
      case End => Complete(got, rest)
      case Skip => DecodeFrom(p, got, rest)
      case Refuse(why) => Failed(why, rest)
      case Take(n) =>
        if n > |rest| then Failed(Incomplete, "")
        else if p.declared.Some? && |got| + n > p.declared.value then Failed(Overrun, rest[n..])
        else DecodeFrom(p, got + rest[..n], rest[n..])
  }

  function Decode(p: Policy, s: string): Decoded {
    DecodeFrom(p, "", s)
  }

  /** One turn of the decoder loop. */
  lemma DecodeStep(p: Policy, got: string, s: string) returns (header: Header, rest: string)
    requires IndexOf(s, '\n') >= 0
    ensures header == ParseHeader(p, s[..IndexOf(s, '\n') + 1]) && rest == s[IndexOf(s, '\n') + 1..] && |rest| < |s|
    ensures (header.Skip? ==> p.skipNegative) && (header.Take? ==> header.n > 0)
    ensures header.End? ==> DecodeFrom(p, got, s) == Complete(got, rest)
    ensures header.Skip? ==> DecodeFrom(p, got, s) == DecodeFrom(p, got, rest)
    ensures header.Refuse? ==> DecodeFrom(p, got, s) == Failed(header.why, rest)
    ensures header.Take? ==>
              DecodeFrom(p, got, s) ==
              if header.n > |rest| then Failed(Incomplete, "")
              else if p.declared.Some? && |got| + header.n > p.declared.value then Failed(Overrun, rest[header.n..])
              else DecodeFrom(p, got + rest[..header.n], rest[header.n..])
  {
    var i := IndexOf(s, '\n');
    header, rest := ParseHeader(p, s[..i + 1]), s[i + 1..];
  }

  /** A byte source shared by everything that reads one connection. */
  class Reader {
    var rest: string

    constructor (s: string)
      ensures rest == s
    {
      rest := s;
    }

    /** ReadString('\n'): at the end of input the partial line is consumed and lost. */
    method ReadLine() returns (line: Option<string>)
      modifies this
      ensures
        var i := IndexOf(old(rest), '\n');
        if i < 0 then line == None && rest == ""
        else line == Some(old(rest)[..i + 1]) && rest == old(rest)[i + 1..]
      ensures |rest| <= |old(rest)| && (line.Some? ==> |rest| < |old(rest)|)
    {
      var i := 0;
      while i < |rest|
        invariant 0 <= i <= |rest|
        invariant '\n' !in rest[..i]
      {
        if rest[i] == '\n' {
          assert rest == rest[..i] + ['\n'] + rest[i + 1..];
          IndexOfAfter(rest[..i], '\n', rest[i + 1..]);
          line := Some(rest[..i + 1]);
          rest := rest[i + 1..];
          return;
        }
        i := i + 1;
      }
      assert rest[..i] == rest;
      rest := "";
      line := None;
    }

    /** Copies n bytes, or what there is when the input ends first. */
    method Copy(n: nat) returns (bytes: string)
      modifies this
      ensures bytes + rest == old(rest)
      ensures |bytes| == if n <= |old(rest)| then n else |old(rest)|
    {
      var k := if n <= |rest| then n else |rest|;
      bytes := rest[..k];
      rest := rest[k..];
    }
  }

  lemma SplitAt(whole: string, left: string, right: string)
    requires whole == left + right
    ensures left == whole[..|left|] && right == whole[|left|..]
  {
  }

  /** One turn of a receive loop: the bytes so far grow, or the transfer is over. */
  method Turn(p: Policy, got: string, reader: Reader) returns (more: string, over: Option<Decoded>)
    requires p.declared.Some? ==> |got| <= p.declared.value
    modifies reader
    ensures over.Some? ==> over.value == DecodeFrom(p, got, old(reader.rest)) && reader.rest == over.value.rest
    ensures over.None? ==> DecodeFrom(p, more, reader.rest) == DecodeFrom(p, got, old(reader.rest))
    ensures over.None? ==> |reader.rest| < |old(reader.rest)|
    ensures over.None? && !p.skipNegative ==> |more| > |got|
    ensures over.None? && p.declared.Some? ==> |more| <= p.declared.value
  {
    more, over := got, None;
    ghost var before := reader.rest;
    var line := reader.ReadLine();
    if line.None? {
      over := Some(Failed(Stalled, ""));
      return;
    }
    ghost var header, rest := DecodeStep(p, got, before);
    match ParseHeader(p, line.value) {
      case End => over := Some(Complete(got, reader.rest));
      case Skip =>
      case Refuse(why) => over := Some(Failed(why, reader.rest));
      case Take(n) =>
        var bytes := reader.Copy(n);
        if |bytes| != n {
          over := Some(Failed(Incomplete, ""));
          return;
        }
        SplitAt(rest, bytes, reader.rest);
        if p.declared.Some? && |got| + n > p.declared.value {
          over := Some(Failed(Overrun, reader.rest));
          return;
        }
        more := got + bytes;
    }
  }

  /** The loop of cmdFilesGet and, with the other policy, of mountDownloadToFile. */
  method Download(p: Policy, reader: Reader) returns (result: Decoded)
    requires p.declared.None?
    modifies reader
    ensures result == Decode(p, old(reader.rest))
    ensures reader.rest == result.rest
  {
    var got := "";
    while true
      invariant DecodeFrom(p, got, reader.rest) == Decode(p, old(reader.rest))
      decreases |reader.rest|
    {
      var over;
      got, over := Turn(p, got, reader);
      if over.Some? {
        return over.value;
      }
    }
  }

  /**
   * The receive loop of handleWrite. Its measure is the declared size less what
   * was received, so it ends whatever the peer sends and however long it sends.
   */
  method Receive(declared: nat, reader: Reader) returns (result: Decoded)
    modifies reader
    ensures result == Decode(AgentPolicy(declared), old(reader.rest))
    ensures reader.rest == result.rest
  {
    var got := "";
    while true
      invariant |got| <= declared
      invariant DecodeFrom(AgentPolicy(declared), got, reader.rest) == Decode(AgentPolicy(declared), old(reader.rest))
      decreases declared - |got|
    {
      var over;
      got, over := Turn(AgentPolicy(declared), got, reader);
      if over.Some? {
        return over.value;
      }
    }
  }

  // ---- the round trip ----

  /** Pieces as reads into a MAX_CHUNK buffer return them. */
  ghost predicate IsSplit(pieces: seq<string>) {
    forall i :: 0 <= i < |pieces| ==> 1 <= |pieces[i]| <= MAX_CHUNK
  }

  predicate Admits(p: Policy, total: nat) {
    (p.maxChunk.Some? ==> p.maxChunk.value >= MAX_CHUNK) && (p.declared.Some? ==> total <= p.declared.value)
  }

  /** The header line a frame of n bytes starts with. */
  lemma HeaderParses(p: Policy, n: nat)
    requires n < TWO_63
    ensures
      ParseHeader(p, CHUNK + Print(n) + "\n") ==
      if n == 0 then End else if p.maxChunk.Some? && n > p.maxChunk.value then Refuse(TooLarge) else Take(n)
    ensures IndexOf(CHUNK + Print(n) + "\n", '\n') == |CHUNK + Print(n)|
  {
    var body := CHUNK + Print(n);
    assert IsDigit(body[|body| - 1]);
    TrimRightOf(body, "\n", IsLineEnd);
    assert TrimRight(body + "\n", IsLineEnd) == body;
    assert body[|CHUNK|..] == Print(n);
    ParseIntOfPrint(n);
    assert '\n' !in body by {
      assert forall i :: 0 <= i < |Print(n)| ==> Print(n)[i] != '\n';
    }
    IndexOfAfter(body, '\n', "");
    assert body + ['\n'] + "" == body + "\n";
  }

  /** A frame, or the terminator, in front of anything is read as its own line. */
  lemma HeaderIsFirstLine(n: nat, after: string)
    ensures
      var s := CHUNK + Print(n) + "\n" + after;
      var i := IndexOf(s, '\n');
      i >= 0 && s[..i + 1] == CHUNK + Print(n) + "\n" && s[i + 1..] == after
  {
    var body := CHUNK + Print(n);
    assert '\n' !in body by {
      assert forall i :: 0 <= i < |Print(n)| ==> Print(n)[i] != '\n';
    }
    IndexOfAfter(body, '\n', after);
    assert body + ['\n'] + after == CHUNK + Print(n) + "\n" + after;
  }

  lemma TerminatorDecodes(p: Policy, got: string, tail: string)
    ensures DecodeFrom(p, got, TERMINATOR + tail) == Complete(got, tail)
  {
    assert Print(0) == "0";
    assert TERMINATOR + tail == CHUNK + Print(0) + "\n" + tail;
    HeaderIsFirstLine(0, tail);
    HeaderParses(p, 0);
  }

  lemma FrameDecodes(p: Policy, got: string, piece: string, after: string)
    requires 1 <= |piece| <= MAX_CHUNK && Admits(p, |got| + |piece|)
    ensures DecodeFrom(p, got, Frame(piece) + after) == DecodeFrom(p, got + piece, after)
  {
    var s := Frame(piece) + after;
    assert s == CHUNK + Print(|piece|) + "\n" + (piece + after);
    HeaderIsFirstLine(|piece|, piece + after);
    HeaderParses(p, |piece|);
    var rest := piece + after;
    assert rest[..|piece|] == piece && rest[|piece|..] == after;
  }

  lemma EncodeSplits(pieces: seq<string>, got: string, tail: string)
    requires pieces != []
    ensures Encode(pieces) + tail == Frame(pieces[0]) + (Encode(pieces[1..]) + tail)
    ensures got + Flatten(pieces) == got + pieces[0] + Flatten(pieces[1..])
  {
    ConcatAssociates(Frame(pieces[0]), Encode(pieces[1..]), tail);
    ConcatAssociates(got, pieces[0], Flatten(pieces[1..]));
  }

  lemma {:induction false} EncodingDecodesFrom(p: Policy, got: string, pieces: seq<string>, tail: string, all: string)
    requires IsSplit(pieces) && all == got + Flatten(pieces) && Admits(p, |all|)
    ensures DecodeFrom(p, got, Encode(pieces) + tail) == Complete(all, tail)
    decreases |pieces|
  {
    if pieces == [] {
      TerminatorDecodes(p, got, tail);
      assert all == got;
    } else {
      EncodeSplits(pieces, got, tail);
      FrameDecodes(p, got, pieces[0], Encode(pieces[1..]) + tail);
      EncodingDecodesFrom(p, got + pieces[0], pieces[1..], tail, all);
    }
  }

  /**
   * For every byte string, however it is split, every decoder returns exactly
   * the bytes and leaves the reader just after the terminator. Newlines or the
   * text "CHUNK 0" inside the data make no difference.
   */
  lemma RoundTrip(pieces: seq<string>, tail: string)
    requires IsSplit(pieces)
    ensures Decode(GET_POLICY, Encode(pieces) + tail) == Complete(Flatten(pieces), tail)
    ensures Decode(MOUNT_POLICY, Encode(pieces) + tail) == Complete(Flatten(pieces), tail)
    ensures Decode(AgentPolicy(|Flatten(pieces)|), Encode(pieces) + tail) == Complete(Flatten(pieces), tail)
  {
    assert "" + Flatten(pieces) == Flatten(pieces);
    EncodingDecodesFrom(GET_POLICY, "", pieces, tail, Flatten(pieces));
    EncodingDecodesFrom(MOUNT_POLICY, "", pieces, tail, Flatten(pieces));
    EncodingDecodesFrom(AgentPolicy(|Flatten(pieces)|), "", pieces, tail, Flatten(pieces));
  }

  /** The one-chunk body of a non-empty upload gets through the agent's loop exactly when it fits one chunk. */
  lemma SingleChunkDecodes(data: string, tail: string)
    requires 1 <= |data| < TWO_63
    ensures
      Decode(AgentPolicy(|data|), Frame(data) + TERMINATOR + tail) ==
      if |data| <= MAX_CHUNK then Complete(data, tail) else Failed(TooLarge, data + TERMINATOR + tail)
  {
    var body := Frame(data) + TERMINATOR + tail;
    var p := AgentPolicy(|data|);
    assert body == Frame(data) + (TERMINATOR + tail);
    if |data| <= MAX_CHUNK {
      FrameDecodes(p, "", data, TERMINATOR + tail);
      TerminatorDecodes(p, data, tail);
      assert "" + data == data;
    } else {
      assert body == CHUNK + Print(|data|) + "\n" + (data + TERMINATOR + tail);
      HeaderIsFirstLine(|data|, data + TERMINATOR + tail);
      HeaderParses(p, |data|);
    }
  }

  /** Wherever it comes, the mount decoder alone reads past a negative size as if the line were not there. */
  lemma NegativeSizesExactly(p: Policy, got: string, line: string, after: string)
    requires '\n' !in line && HasPrefix(TrimRight(line + "\n", IsLineEnd), CHUNK)
    requires ParseInt(TrimRight(line + "\n", IsLineEnd)[|CHUNK|..]).Number?
    requires ParseInt(TrimRight(line + "\n", IsLineEnd)[|CHUNK|..]).n < 0
    ensures
      DecodeFrom(p, got, line + "\n" + after) ==
      if p.skipNegative then DecodeFrom(p, got, after) else Failed(Incomplete, after)
  {
    IndexOfAfter(line, '\n', after);
    var s := line + "\n" + after;
    assert s == line + ['\n'] + after;
    assert s[..|line| + 1] == line + "\n" && s[|line| + 1..] == after;
    var header, rest := DecodeStep(p, got, s);
  }

  /**
   * What any decoder accepts is bounded: a completed transfer carries no more
   * than the declared size, whatever was sent.
   */
  lemma {:induction false} NeverMoreThanDeclared(p: Policy, got: string, s: string)
    requires p.declared.Some? && |got| <= p.declared.value
    ensures DecodeFrom(p, got, s).Complete? ==> |DecodeFrom(p, got, s).data| <= p.declared.value
    decreases |s|
  {
    if IndexOf(s, '\n') >= 0 {
      var header, rest := DecodeStep(p, got, s);
      match header {
        case Take(n) =>
          if n <= |rest| && |got| + n <= p.declared.value {
            NeverMoreThanDeclared(p, got + rest[..n], rest[n..]);
          }
        case Skip => NeverMoreThanDeclared(p, got, rest);
        case _ =>
      }
    }
  }
}
