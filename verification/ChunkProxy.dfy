/**
 * The /files/ proxy of the client's control API (internal/client/control.go),
 * between an agent's read response and the mount's decoder.
 */
module ChunkProxy {
  import opened Common
  import opened Decimal
  import opened Text
  import opened Chunk
  import opened FileWrite

  /**
   * What was written on, what was read but lost at the end of input, and what is
   * left. Without a terminator the loop ends only when the input does.
   */
  datatype Forwarded = Forwarded(out: string, lost: string, rest: string, terminated: bool)

  function Prepend(s: string, f: Forwarded): Forwarded {
    f.(out := s + f.out)
  }

  /** How many of the following bytes a line makes the loop copy. Parse errors are dropped. */
  function CopyCount(line: string, available: nat): (k: nat)
    ensures k <= available
  {
    var trimmed := TrimSpace(line);
    var n := if HasPrefix(trimmed, CHUNK) then ValueOf(ParseInt(trimmed[|CHUNK|..])) else 0;
    if n <= 0 then 0 else if n <= available then n else available
  }

  predicate IsTerminator(line: string) {
    TrimSpace(line) == "CHUNK 0"
  }

  function Forward(s: string): Forwarded
    decreases |s|
  {
    var i := IndexOf(s, '\n');
    if i < 0 then Forwarded("", s, "", false)
    else
      var line, rest := s[..i + 1], s[i + 1..];
      if IsTerminator(line) then Forwarded(line, "", rest, true)
      else
        var k := CopyCount(line, |rest|);
        Prepend(line + rest[..k], Forward(rest[k..]))
  }

  lemma ForwardStep(s: string) returns (line: string, rest: string, k: nat)
    requires IndexOf(s, '\n') >= 0
    ensures s == line + rest && line == s[..IndexOf(s, '\n') + 1] && rest == s[|line|..]
    ensures k == CopyCount(line, |rest|) && |rest[k..]| < |s|
    ensures Forward(s) == if IsTerminator(line) then Forwarded(line, "", rest, true)
                          else Prepend(line + rest[..k], Forward(rest[k..]))
  {
    var i := IndexOf(s, '\n');
    line, rest := s[..i + 1], s[i + 1..];
    k := CopyCount(line, |rest|);
  }

  lemma Reassociate(a: string, b: string, c: string, d: string)
    ensures a + ((b + c) + d) == a + b + c + d
  {
  }

  lemma Glue(line: string, rest: string, k: nat, f: Forwarded)
    requires k <= |rest| && rest[k..] == f.out + f.lost + f.rest
    ensures
      var g := Prepend(line + rest[..k], f);
      line + rest == g.out + g.lost + g.rest
  {
    assert rest == rest[..k] + rest[k..];
  }

  /** The chunk forwarding loop. */
  method ForwardChunks(reader: Reader) returns (out: string)
    modifies reader
    ensures out == Forward(old(reader.rest)).out
    ensures reader.rest == Forward(old(reader.rest)).rest
  {
    out := "";
    while true
      invariant Forward(old(reader.rest)).out == out + Forward(reader.rest).out
      invariant Forward(old(reader.rest)).rest == Forward(reader.rest).rest
      decreases |reader.rest|
    {
      ghost var before := reader.rest;
      var line := reader.ReadLine();
      if line.None? {
        return;
      }
      ghost var l, rest, n := ForwardStep(before);
      ghost var sofar := out;
      out := out + line.value;
      if IsTerminator(line.value) {
        return;
      }
      var k := CopyCount(line.value, |reader.rest|);
      var bytes := reader.Copy(k);
      SplitAt(rest, bytes, reader.rest);
      out := out + bytes;
      Reassociate(sofar, line.value, bytes, Forward(reader.rest).out);
    }
  }

  /**
   * On every input, valid or not, the proxy passes on exactly what it reads, in
   * order; only a last line that never ended is lost.
   */
  lemma {:induction false} ProxyIsTransparent(s: string)
    ensures
      var f := Forward(s);
      && s == f.out + f.lost + f.rest
      && '\n' !in f.lost
      && (!f.terminated ==> f.rest == "")
      && (f.lost != "" ==> !f.terminated)
    decreases |s|
  {
    if IndexOf(s, '\n') >= 0 {
      var line, rest, k := ForwardStep(s);
      if !IsTerminator(line) {
        ProxyIsTransparent(rest[k..]);
        Glue(line, rest, k, Forward(rest[k..]));
      }
    }
  }

  /** A complete line and what the loop does with it, by the text it holds. */
  lemma LineMeans(line: string, rest: string)
    requires line != "" && line[|line| - 1] == '\n' && '\n' !in line[..|line| - 1]
    ensures
      var text, f := TrimSpace(line), Forward(line + rest);
      var parsed := if "CHUNK " <= text then ParseInt(text[6..]) else Syntax;
      if text == "CHUNK 0" then f == Forwarded(line, "", rest, true)
      else if !parsed.Range? && (parsed.Syntax? || parsed.n <= 0) then f == Prepend(line, Forward(rest))
      else if parsed.Number? && parsed.n <= |rest| then
        f == Prepend(line + rest[..parsed.n], Forward(rest[parsed.n..]))
      else if parsed.Range? && parsed.clamped < 0 then f == Prepend(line, Forward(rest))
      else if parsed.Range? && |rest| > parsed.clamped then
        f == Prepend(line + rest[..parsed.clamped], Forward(rest[parsed.clamped..]))
      else f == Forwarded(line + rest, "", "", false)
  {
    var w := line[..|line| - 1];
    IndexOfAfter(w, '\n', rest);
    assert w + ['\n'] + rest == line + rest && (line + rest)[..|line|] == line && (line + rest)[|line|..] == rest;
    assert rest[..|rest|] == rest && rest[|rest|..] == "" && rest[..0] == "" && rest[0..] == rest;
    assert line + rest[..0] == line;
    assert Forward("") == Forwarded("", "", "", false);
    assert line + rest + "" == line + rest;
  }

  /** What was written ends in a terminator line. */
  ghost predicate EndsInTerminator(out: string, before: string, line: string) {
    && out == before + line
    && line != "" && line[|line| - 1] == '\n' && '\n' !in line[..|line| - 1] && TrimSpace(line) == "CHUNK 0"
  }

  /** The loop stops by itself only after writing a terminator line. */
  lemma {:induction false} StopsAtTerminator(s: string, f: Forwarded) returns (before: string, line: string)
    requires f == Forward(s) && f.terminated
    ensures EndsInTerminator(f.out, before, line)
    decreases |s|
  {
    NeedsLine(s);
    var first, rest, k := ForwardStep(s);
    if IsTerminator(first) {
      before, line := "", first;
      IsItsOwnLine(s);
    } else {
      var left := rest[k..];
      var g := Forward(left);
      before, line := StopsAtTerminator(left, g);
      before := LaterTerminator(first + rest[..k], g, before, line);
    }
  }

  lemma NeedsLine(s: string)
    requires Forward(s).terminated
    ensures IndexOf(s, '\n') >= 0
  {
  }

  lemma IsItsOwnLine(s: string)
    requires IndexOf(s, '\n') >= 0
    ensures
      var line := s[..IndexOf(s, '\n') + 1];
      line != "" && line[|line| - 1] == '\n' && '\n' !in line[..|line| - 1] && "" + line == line
  {
  }

  lemma LaterTerminator(written: string, f: Forwarded, before: string, line: string) returns (before': string)
    requires EndsInTerminator(f.out, before, line)
    ensures EndsInTerminator(Prepend(written, f).out, before', line)
  {
    before' := written + before;
    ConcatAssociates(written, before, line);
  }

  /** How the proxy reads a header line the encoder wrote. */
  lemma HeaderForwards(n: nat, available: nat)
    requires n <= available && n < TWO_63
    ensures
      var line := CHUNK + Print(n) + "\n";
      && (IsTerminator(line) <==> n == 0)
      && CopyCount(line, available) == n
  {
    var body := CHUNK + Print(n);
    assert IsDigit(body[|body| - 1]);
    TrimSurrounded("", body, "\n", IsSpace);
    assert "" + body + "\n" == body + "\n";
    assert body[|CHUNK|..] == Print(n);
    ParseIntOfPrint(n);
    if body == "CHUNK 0" {
      assert Print(n) == "0" by { assert body[|CHUNK|..] == "CHUNK 0"[|CHUNK|..]; }
      DigitsOfPrint(n);
    }
    assert Print(0) == "0";
  }

  lemma FrameForwards(piece: string, after: string)
    requires 1 <= |piece| < TWO_63
    ensures Forward(Frame(piece) + after) == Prepend(Frame(piece), Forward(after))
  {
    var s := Frame(piece) + after;
    var line := CHUNK + Print(|piece|) + "\n";
    assert s == line + (piece + after);
    HeaderIsFirstLine(|piece|, piece + after);
    HeaderForwards(|piece|, |piece + after|);
    assert (piece + after)[..|piece|] == piece && (piece + after)[|piece|..] == after;
    assert line + piece == Frame(piece);
  }

  /** The loop outputs an encoding unchanged and stops right after it. */
  lemma {:induction false} EncodingForwards(pieces: seq<string>, tail: string)
    requires IsSplit(pieces)
    ensures Forward(Encode(pieces) + tail) == Forwarded(Encode(pieces), "", tail, true)
    decreases |pieces|
  {
    if pieces == [] {
      assert Print(0) == "0";
      assert TERMINATOR + tail == CHUNK + Print(0) + "\n" + tail;
      HeaderIsFirstLine(0, tail);
      HeaderForwards(0, |tail|);
    } else {
      EncodeSplits(pieces, "", tail);
      FrameForwards(pieces[0], Encode(pieces[1..]) + tail);
      EncodingForwards(pieces[1..], tail);
    }
  }

  /** The whole response: the JSON line, then chunks only when it reports success and a positive size. */
  function ProxyResponse(s: string, ok: bool, size: int): string {
    var i := IndexOf(s, '\n');
    if i < 0 then ""
    else s[..i + 1] + if ok && size > 0 then Forward(s[i + 1..]).out else ""
  }

  /** Whether the proxy goes on reading when everything the agent sent has arrived, until the connection ends. */
  predicate WaitsForEnd(s: string, ok: bool, size: int) {
    var i := IndexOf(s, '\n');
    i < 0 || (ok && size > 0 && !Forward(s[i + 1..]).terminated)
  }

  /** mountDownloadToFile: drop the JSON line, then decode. */
  function MountDownload(body: string): Decoded {
    var i := IndexOf(body, '\n');
    if i < 0 then Failed(Stalled, "") else Decode(MOUNT_POLICY, body[i + 1..])
  }

  lemma AfterFirstLine(line: string, after: string)
    requires '\n' !in line
    ensures
      var s := line + "\n" + after;
      IndexOf(s, '\n') == |line| && s[..|line| + 1] == line + "\n" && s[|line| + 1..] == after
  {
    IndexOfAfter(line, '\n', after);
    assert line + ['\n'] + after == line + "\n" + after;
  }

  /**
   * A read through the proxy gives the mount the file's bytes exactly when the
   * file is not empty. For an empty file the proxy sends no terminator and the
   * decoder stalls.
   */
  lemma ProxiedReadExactly(json: string, pieces: seq<string>)
    requires '\n' !in json && IsSplit(pieces)
    ensures
      var data := Flatten(pieces);
      var got := MountDownload(ProxyResponse(json + "\n" + Encode(pieces), true, |data|));
      && (got == Complete(data, "") <==> data != "")
      && (data == "" ==> got == Failed(Stalled, ""))
  {
    var data := Flatten(pieces);
    AfterFirstLine(json, Encode(pieces));
    assert Encode(pieces) + "" == Encode(pieces);
    EncodingForwards(pieces, "");
    if data == "" {
      AfterFirstLine(json, "");
      assert json + "\n" + "" == json + "\n";
    } else {
      AfterFirstLine(json, Encode(pieces));
      RoundTrip(pieces, "");
    }
  }

  /** A read response never keeps the proxy waiting: its terminator comes, or is not asked for. */
  lemma ReadNeverWaits(json: string, pieces: seq<string>)
    requires '\n' !in json && IsSplit(pieces)
    ensures !WaitsForEnd(json + "\n" + Encode(pieces), true, |Flatten(pieces)|)
  {
    AfterFirstLine(json, Encode(pieces));
    assert Encode(pieces) + "" == Encode(pieces);
    EncodingForwards(pieces, "");
  }

  /**
   * A write is answered by a JSON line alone, with success and the size when the
   * file was stored. The proxy passes the line on, and then waits for chunks until
   * the connection ends exactly when the write succeeded.
   */
  lemma WriteResponseWaitsExactly(
      cfg: Share, hash: string -> string, files: Files, req: WriteRequest, s: string, json: string)
    requires '\n' !in json
    ensures
      var reply := Handle(cfg, hash, files, req, s).reply;
      var size := if reply.Stored? then reply.size else 0;
      && ProxyResponse(json + "\n", reply.Stored?, size) == json + "\n"
      && (WaitsForEnd(json + "\n", reply.Stored?, size) <==> reply.Stored?)
  {
    AfterFirstLine(json, "");
    assert json + "\n" + "" == json + "\n";
  }

  /** For the mount's own uploads it waits exactly when the gates pass, the rename succeeds and one chunk is enough. */
  lemma MountUploadWaitsExactly(
      cfg: Share, hash: string -> string, files: Files, req: WriteRequest, data: string, tail: string, json: string)
    requires '\n' !in json && req.size == |data| < TWO_63 && req.checksum == ""
    ensures
      var reply := Handle(cfg, hash, files, req, Frame(data) + TERMINATOR + tail).reply;
      WaitsForEnd(json + "\n", reply.Stored?, if reply.Stored? then reply.size else 0)
      <==> Gate(cfg, Total(files), req).None? && req.renameOk && 1 <= |data| <= MAX_CHUNK
  {
    WriteResponseWaitsExactly(cfg, hash, files, req, Frame(data) + TERMINATOR + tail, json);
    MountUploadExactly(cfg, hash, files, req, data, tail);
  }
}
