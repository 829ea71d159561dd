/**
 * A connection to the agent's file share (internal/agent/fileshare.go,
 * handleFileShareConn): one reader, from which request lines are read and from
 * which the write handler takes its chunks. Whatever a handler leaves unread is
 * read as the next request line.
 */
module ShareConnection {
  import opened Common
  import opened Decimal
  import opened Chunk
  import opened FileWrite

  /** What a request line turns out to be. */
  datatype Line =
    | Rejected                          // not JSON, no known share, or no known operation
    | Other(effect: Files -> Files)     // answered without touching the reader
    | Subscribe                         // takes the connection over
    | Write(req: WriteRequest)

  /** interpret(k, line) says what the k-th line asks for, and how the filesystem then answers. */
  datatype Connection = Connection(cfg: Share, hash: string -> string, interpret: (nat, string) -> Line)

  /** A line that was read as a request, and the reply if it was a write. */
  datatype Event = Event(line: string, reply: Option<Reply>)

  datatype Outcome = Outcome(served: seq<Event>, files: Files)

  function Then(e: Event, o: Outcome): Outcome {
    o.(served := [e] + o.served)
  }

  /** The request loop from its k-th line on. */
  ghost function Serve(c: Connection, k: nat, files: Files, s: string): Outcome
    decreases |s|
  {
    var i := IndexOf(s, '\n');
    if i < 0 then Outcome([], files)
    else
      var line, rest := s[..i + 1], s[i + 1..];
      match c.interpret(k, line)
      case Rejected => Then(Event(line, None), Serve(c, k + 1, files, rest))
      case Other(effect) => Then(Event(line, None), Serve(c, k + 1, effect(files), rest))
      case Subscribe => Outcome([Event(line, None)], files)
      case Write(req) =>
        var h := Handle(c.cfg, c.hash, files, req, rest);
        Then(Event(line, Some(h.reply)), Serve(c, k + 1, h.files, h.rest))
  }

  /** handleFileShareConn. */
  method ServeConnection(dir: ShareDir, reader: Reader, interpret: (nat, string) -> Line) returns (served: seq<Event>)
    modifies dir, reader
    ensures Outcome(served, dir.files) ==
            Serve(Connection(dir.cfg, dir.hash, interpret), 0, old(dir.files), old(reader.rest))
  {
    served := [];
    var k: nat := 0;
    ghost var c := Connection(dir.cfg, dir.hash, interpret);
    ghost var whole := Serve(c, 0, dir.files, reader.rest);
    while true
      invariant whole.served == served + Serve(c, k, dir.files, reader.rest).served
      invariant whole.files == Serve(c, k, dir.files, reader.rest).files
      decreases |reader.rest|
    {
      ghost var todo := Serve(c, k, dir.files, reader.rest);
      ghost var before := served;
      var line := reader.ReadLine();
      if line.None? {
        return;
      }
      var asked := interpret(k, line.value);
      if asked.Subscribe? {
        return served + [Event(line.value, None)];
      }
      var reply := Answer(dir, reader, asked);
      var event := Event(line.value, reply);
      k := k + 1;
      served := served + [event];
      assert todo == Then(event, Serve(c, k, dir.files, reader.rest));
      ConcatAssociates(before, [event], Serve(c, k, dir.files, reader.rest).served);
    }
  }

  method Answer(dir: ShareDir, reader: Reader, asked: Line) returns (reply: Option<Reply>)
    requires !asked.Subscribe?
    modifies dir, reader
    ensures
      match asked
      case Write(req) =>
        var h := Handle(dir.cfg, dir.hash, old(dir.files), req, old(reader.rest));
        dir.files == h.files && reply == Some(h.reply) && reader.rest == h.rest
      case Other(effect) => dir.files == effect(old(dir.files)) && reply == None && reader.rest == old(reader.rest)
      case _ => dir.files == old(dir.files) && reply == None && reader.rest == old(reader.rest)
  {
    reply := None;
    match asked {
      case Other(effect) => dir.files := effect(dir.files);
      case Write(req) =>
        var answer := dir.HandleWrite(req, reader);
        reply := Some(answer);
      case _ =>
    }
  }

  predicate IsPlain(c: Connection, k: nat, line: string) {
    '\n' !in line && (c.interpret(k, line + "\n").Rejected? || c.interpret(k, line + "\n").Other?)
  }

  /** The share after a line that is no write. */
  function Effect(c: Connection, k: nat, files: Files, line: string): Files {
    var asked := c.interpret(k, line + "\n");
    if asked.Other? then asked.effect(files) else files
  }

  predicate ArePlain(c: Connection, k: nat, lines: seq<string>)
    decreases |lines|
  {
    lines == [] || (IsPlain(c, k, lines[0]) && ArePlain(c, k + 1, lines[1..]))
  }

  function Effects(c: Connection, k: nat, files: Files, lines: seq<string>): Files
    decreases |lines|
  {
    if lines == [] then files else Effects(c, k + 1, Effect(c, k, files, lines[0]), lines[1..])
  }

  function Unlined(lines: seq<string>): string {
    if lines == [] then "" else lines[0] + "\n" + Unlined(lines[1..])
  }

  function Unanswered(lines: seq<string>): seq<Event> {
    if lines == [] then [] else [Event(lines[0] + "\n", None)] + Unanswered(lines[1..])
  }

  /**
   * Requests that are no writes are served line by line, each on the share the
   * one before leaves. Refused ones do not end the connection.
   */
  lemma {:induction false} LinesAreServedInOrder(
      c: Connection, k: nat, files: Files, lines: seq<string>, tail: string, s: string, more: Outcome)
    requires ArePlain(c, k, lines) && s == Unlined(lines) + tail
    requires more == Serve(c, k + |lines|, Effects(c, k, files, lines), tail)
    ensures Serve(c, k, files, s) == Outcome(Unanswered(lines) + more.served, more.files)
    decreases |lines|
  {
    if lines == [] {
      assert s == tail && Unanswered(lines) + more.served == more.served;
    } else {
      var line, rest := lines[0], Unlined(lines[1..]) + tail;
      LinesAreServedInOrder(c, k + 1, Effect(c, k, files, line), lines[1..], tail, rest, more);
      ConcatAssociates(line + "\n", Unlined(lines[1..]), tail);
      PlainLine(c, k, files, line, rest, s);
      ConcatAssociates([Event(line + "\n", None)], Unanswered(lines[1..]), more.served);
    }
  }

  lemma PlainLine(c: Connection, k: nat, files: Files, line: string, rest: string, s: string)
    requires IsPlain(c, k, line) && s == line + "\n" + rest
    ensures Serve(c, k, files, s) == Then(Event(line + "\n", None), Serve(c, k + 1, Effect(c, k, files, line), rest))
  {
    assert s == line + ['\n'] + rest;
    IndexOfAfter(line, '\n', rest);
    assert s[..|line| + 1] == line + "\n" && s[|line| + 1..] == rest;
  }

  /** A subscription ends the connection's requests: nothing after it is read as one. */
  lemma SubscriptionIsLast(c: Connection, k: nat, files: Files, line: string, rest: string)
    requires '\n' !in line && c.interpret(k, line + "\n").Subscribe?
    ensures Serve(c, k, files, line + "\n" + rest) == Outcome([Event(line + "\n", None)], files)
  {
    var s := line + "\n" + rest;
    assert s == line + ['\n'] + rest;
    IndexOfAfter(line, '\n', rest);
    assert s[..|line| + 1] == line + "\n" && s[|line| + 1..] == rest;
  }

  // ---- uploads in a row ----

  /** A write request line, what it asks for, and the chunks after it. */
  datatype Upload = Upload(line: string, req: WriteRequest, pieces: seq<string>)

  function Pipeline(uploads: seq<Upload>): string {
    if uploads == [] then ""
    else uploads[0].line + "\n" + (Encode(uploads[0].pieces) + Pipeline(uploads[1..]))
  }

  /** Every upload declares the size it sends, and is understood as the write it is. */
  ghost predicate Honest(c: Connection, k: nat, uploads: seq<Upload>) {
    forall i :: 0 <= i < |uploads| ==>
      var u := uploads[i];
      && '\n' !in u.line && IsSplit(u.pieces) && u.req.size == |Flatten(u.pieces)|
      && var asked := c.interpret(k + i, u.line + "\n");
         asked.Write? && asked.req == u.req
  }

  /** No chunk header is a JSON document. */
  ghost predicate HeadersAreNoRequests(c: Connection) {
    forall k: nat, line :: HasPrefix(line, CHUNK) ==> c.interpret(k, line).Rejected?
  }

  /** The share after an upload whose gates passed. */
  function Uploaded(c: Connection, files: Files, u: Upload): (Files, Reply)
    requires u.req.path.Some?
  {
    var reply := Verdict(c.hash, u.req, Complete(Flatten(u.pieces), ""));
    (if reply.Stored? then files[u.req.path.value := Flatten(u.pieces)] else files, reply)
  }

  /** Each upload passes the gates, on the share its predecessors leave. */
  ghost predicate AllAdmitted(c: Connection, files: Files, uploads: seq<Upload>)
    decreases |uploads|
  {
    uploads == [] ||
    (Gate(c.cfg, Total(files), uploads[0].req).None? && AllAdmitted(c, Uploaded(c, files, uploads[0]).0, uploads[1..]))
  }

  /** Each upload judged on its own bytes, one after the other. */
  ghost function Expected(c: Connection, files: Files, uploads: seq<Upload>): Outcome
    requires AllAdmitted(c, files, uploads)
    decreases |uploads|
  {
    if uploads == [] then Outcome([], files)
    else
      var (files', reply) := Uploaded(c, files, uploads[0]);
      Then(Event(uploads[0].line + "\n", Some(reply)), Expected(c, files', uploads[1..]))
  }

  function LinesOf(served: seq<Event>): seq<string> {
    if served == [] then [] else [served[0].line] + LinesOf(served[1..])
  }

  function RequestLines(uploads: seq<Upload>): seq<string> {
    if uploads == [] then [] else [uploads[0].line + "\n"] + RequestLines(uploads[1..])
  }

  lemma LinesOfThen(e: Event, o: Outcome)
    ensures LinesOf(Then(e, o).served) == [e.line] + LinesOf(o.served)
  {
    assert ([e] + o.served)[1..] == o.served;
  }

  /** The loop's first turn on a pipeline: the request line, then the write handler. */
  lemma FirstUpload(c: Connection, k: nat, files: Files, uploads: seq<Upload>)
    requires uploads != [] && Honest(c, k, uploads)
    ensures
      var u := uploads[0];
      var h := Handle(c.cfg, c.hash, files, u.req, Encode(u.pieces) + Pipeline(uploads[1..]));
      Serve(c, k, files, Pipeline(uploads)) ==
      Then(Event(u.line + "\n", Some(h.reply)), Serve(c, k + 1, h.files, h.rest))
  {
    var u := uploads[0];
    var after := Encode(u.pieces) + Pipeline(uploads[1..]);
    var s := Pipeline(uploads);
    assert s == u.line + ['\n'] + after;
    IndexOfAfter(u.line, '\n', after);
    assert s[..|u.line| + 1] == u.line + "\n" && s[|u.line| + 1..] == after;
    assert c.interpret(k + 0, u.line + "\n").Write?;
  }

  lemma HonestTail(c: Connection, k: nat, uploads: seq<Upload>)
    requires uploads != [] && Honest(c, k, uploads)
    ensures Honest(c, k + 1, uploads[1..])
  {
    forall i | 0 <= i < |uploads[1..]|
      ensures
        var u := uploads[1..][i];
        && '\n' !in u.line && IsSplit(u.pieces) && u.req.size == |Flatten(u.pieces)|
        && var asked := c.interpret(k + 1 + i, u.line + "\n");
           asked.Write? && asked.req == u.req
    {
      assert uploads[1..][i] == uploads[i + 1];
      assert k + 1 + i == k + (i + 1);
    }
  }

  /** A line that is no request is skipped. */
  lemma RejectedLine(c: Connection, k: nat, files: Files, line: string, after: string, s: string)
    requires '\n' !in line && s == line + "\n" + after && c.interpret(k, line + "\n").Rejected?
    ensures Serve(c, k, files, s) == Then(Event(line + "\n", None), Serve(c, k + 1, files, after))
  {
    assert s == line + ['\n'] + after;
    IndexOfAfter(line, '\n', after);
    assert s[..|line| + 1] == line + "\n" && s[|line| + 1..] == after;
  }

  /** The first line of an encoding. */
  lemma EncodingHeader(pieces: seq<string>, tail: string) returns (n: nat, after: string)
    ensures Encode(pieces) + tail == CHUNK + Print(n) + "\n" + after
    ensures '\n' !in CHUNK + Print(n)
    ensures pieces != [] ==> n == |pieces[0]| && after == pieces[0] + (Encode(pieces[1..]) + tail)
  {
    n, after := 0, tail;
    if pieces == [] {
      assert Print(0) == "0";
    } else {
      n, after := |pieces[0]|, pieces[0] + (Encode(pieces[1..]) + tail);
      EncodeSplits(pieces, "", tail);
      ConcatAssociates(CHUNK + Print(n) + "\n", pieces[0], Encode(pieces[1..]) + tail);
    }
    assert forall i :: 0 <= i < |Print(n)| ==> Print(n)[i] != '\n';
  }

  /** Chunks left in the stream are served: the next line read as a request is a chunk header. */
  lemma ChunksAreReadAsLines(c: Connection, k: nat, files: Files, pieces: seq<string>, tail: string)
    requires HeadersAreNoRequests(c)
    ensures
      var lines := LinesOf(Serve(c, k, files, Encode(pieces) + tail).served);
      lines != [] && HasPrefix(lines[0], CHUNK)
  {
    var n, after := EncodingHeader(pieces, tail);
    var line := CHUNK + Print(n);
    assert HasPrefix(line + "\n", CHUNK) by { ConcatAssociates(CHUNK, Print(n), "\n"); }
    RejectedLine(c, k, files, line, after, Encode(pieces) + tail);
    LinesOfThen(Event(line + "\n", None), Serve(c, k + 1, files, after));
  }

  lemma AdmittedUpload(c: Connection, k: nat, files: Files, uploads: seq<Upload>)
    requires uploads != [] && Honest(c, k, uploads) && Gate(c.cfg, Total(files), uploads[0].req).None?
    ensures
      var (files', reply) := Uploaded(c, files, uploads[0]);
      Serve(c, k, files, Pipeline(uploads)) ==
      Then(Event(uploads[0].line + "\n", Some(reply)), Serve(c, k + 1, files', Pipeline(uploads[1..])))
  {
    var u := uploads[0];
    FirstUpload(c, k, files, uploads);
    UploadStaysInFrameExactly(c.cfg, c.hash, files, u.req, u.pieces, Pipeline(uploads[1..]));
  }

  /** After a refused upload a chunk header is read as a request. */
  lemma RefusedUpload(c: Connection, k: nat, files: Files, uploads: seq<Upload>)
    requires uploads != [] && Honest(c, k, uploads) && HeadersAreNoRequests(c)
    requires Gate(c.cfg, Total(files), uploads[0].req).Some?
    ensures
      var lines := LinesOf(Serve(c, k, files, Pipeline(uploads)).served);
      |lines| >= 2 && HasPrefix(lines[1], CHUNK) && lines != RequestLines(uploads)
  {
    var u, tail := uploads[0], Pipeline(uploads[1..]);
    var reply := Gate(c.cfg, Total(files), u.req).value;
    FirstUpload(c, k, files, uploads);
    LinesOfThen(Event(u.line + "\n", Some(reply)), Serve(c, k + 1, files, Encode(u.pieces) + tail));
    ChunksAreReadAsLines(c, k + 1, files, u.pieces, tail);
    RequestIsNoHeader(c, k, uploads);
  }

  /**
   * What a refused upload carries is read as requests in turn: after its first
   * header the loop goes on with its first piece and all that follows it.
   */
  lemma RefusedDataIsServed(c: Connection, k: nat, files: Files, uploads: seq<Upload>)
    requires uploads != [] && Honest(c, k, uploads) && HeadersAreNoRequests(c)
    requires Gate(c.cfg, Total(files), uploads[0].req).Some? && uploads[0].pieces != []
    ensures
      var u := uploads[0];
      var reply := Gate(c.cfg, Total(files), u.req).value;
      var after := u.pieces[0] + (Encode(u.pieces[1..]) + Pipeline(uploads[1..]));
      Serve(c, k, files, Pipeline(uploads)) ==
      Then(Event(u.line + "\n", Some(reply)),
           Then(Event(CHUNK + Print(|u.pieces[0]|) + "\n", None), Serve(c, k + 2, files, after)))
  {
    var u, tail := uploads[0], Pipeline(uploads[1..]);
    FirstUpload(c, k, files, uploads);
    var n, after := EncodingHeader(u.pieces, tail);
    var line := CHUNK + Print(n);
    assert HasPrefix(line + "\n", CHUNK) by { ConcatAssociates(CHUNK, Print(n), "\n"); }
    RejectedLine(c, k + 1, files, line, after, Encode(u.pieces) + tail);
  }

  /** So whatever line such an upload carries as its data is the next request. */
  lemma AnyLineIsCarried(c: Connection, k: nat, files: Files, uploads: seq<Upload>, carried: string)
    requires uploads != [] && Honest(c, k, uploads) && HeadersAreNoRequests(c)
    requires Gate(c.cfg, Total(files), uploads[0].req).Some?
    requires '\n' !in carried && uploads[0].pieces == [carried + "\n"]
    ensures
      var served := Serve(c, k, files, Pipeline(uploads)).served;
      |served| >= 3 && served[2].line == carried + "\n"
      && (served[2].reply.Some? <==> c.interpret(k + 2, carried + "\n").Write?)
  {
    RefusedDataIsServed(c, k, files, uploads);
    FirstLineServed(c, k + 2, files, carried, Encode([]) + Pipeline(uploads[1..]));
    assert uploads[0].pieces[1..] == [];
  }

  lemma FirstLineServed(c: Connection, k: nat, files: Files, line: string, after: string)
    requires '\n' !in line
    ensures
      var served := Serve(c, k, files, line + "\n" + after).served;
      |served| >= 1 && served[0].line == line + "\n"
      && (served[0].reply.Some? <==> c.interpret(k, line + "\n").Write?)
  {
    var s := line + "\n" + after;
    assert s == line + ['\n'] + after;
    IndexOfAfter(line, '\n', after);
    assert s[..|line| + 1] == line + "\n" && s[|line| + 1..] == after;
  }

  lemma RequestIsNoHeader(c: Connection, k: nat, uploads: seq<Upload>)
    requires uploads != [] && Honest(c, k, uploads) && HeadersAreNoRequests(c)
    ensures |RequestLines(uploads)| >= 2 ==> !HasPrefix(RequestLines(uploads)[1], CHUNK)
  {
    if |uploads| >= 2 {
      assert RequestLines(uploads)[1] == RequestLines(uploads[1..])[0] == uploads[1].line + "\n";
      assert c.interpret(k + 1, uploads[1].line + "\n").Write?;
    }
  }

  lemma {:induction false} AdmittedPipeline(c: Connection, k: nat, files: Files, uploads: seq<Upload>)
    requires Honest(c, k, uploads) && AllAdmitted(c, files, uploads)
    ensures Serve(c, k, files, Pipeline(uploads)) == Expected(c, files, uploads)
    decreases |uploads|
  {
    if uploads == [] {
    } else {
      HonestTail(c, k, uploads);
      AdmittedUpload(c, k, files, uploads);
      AdmittedPipeline(c, k + 1, Uploaded(c, files, uploads[0]).0, uploads[1..]);
    }
  }

  lemma {:induction false} ExpectedLines(c: Connection, files: Files, uploads: seq<Upload>)
    requires AllAdmitted(c, files, uploads)
    ensures LinesOf(Expected(c, files, uploads).served) == RequestLines(uploads)
    decreases |uploads|
  {
    if uploads == [] {
    } else {
      var (files', reply) := Uploaded(c, files, uploads[0]);
      ExpectedLines(c, files', uploads[1..]);
      LinesOfThen(Event(uploads[0].line + "\n", Some(reply)), Expected(c, files', uploads[1..]));
    }
  }

  lemma {:induction false} RefusedPipeline(c: Connection, k: nat, files: Files, uploads: seq<Upload>)
    requires Honest(c, k, uploads) && HeadersAreNoRequests(c) && !AllAdmitted(c, files, uploads)
    ensures LinesOf(Serve(c, k, files, Pipeline(uploads)).served) != RequestLines(uploads)
    decreases |uploads|
  {
    if Gate(c.cfg, Total(files), uploads[0].req).Some? {
      RefusedUpload(c, k, files, uploads);
    } else {
      var (files', reply) := Uploaded(c, files, uploads[0]);
      HonestTail(c, k, uploads);
      AdmittedUpload(c, k, files, uploads);
      RefusedPipeline(c, k + 1, files', uploads[1..]);
      var more := Serve(c, k + 1, files', Pipeline(uploads[1..]));
      LinesOfThen(Event(uploads[0].line + "\n", Some(reply)), more);
      SameRest(uploads[0].line + "\n", LinesOf(more.served), RequestLines(uploads[1..]));
    }
  }

  lemma SameRest(line: string, a: seq<string>, b: seq<string>)
    ensures [line] + a == [line] + b ==> a == b
  {
    assert ([line] + a)[1..] == a && ([line] + b)[1..] == b;
  }

  /**
   * A connection carrying uploads in a row stays in frame, so that exactly the
   * request lines are read as requests, if and only if every upload passes the
   * gates when its turn comes. Each is then judged on its own bytes.
   */
  lemma PipelineStaysInFrameExactly(c: Connection, k: nat, files: Files, uploads: seq<Upload>)
    requires Honest(c, k, uploads) && HeadersAreNoRequests(c)
    ensures AllAdmitted(c, files, uploads) ==> Serve(c, k, files, Pipeline(uploads)) == Expected(c, files, uploads)
    ensures LinesOf(Serve(c, k, files, Pipeline(uploads)).served) == RequestLines(uploads)
            <==> AllAdmitted(c, files, uploads)
  {
    if AllAdmitted(c, files, uploads) {
      AdmittedPipeline(c, k, files, uploads);
      ExpectedLines(c, files, uploads);
    } else {
      RefusedPipeline(c, k, files, uploads);
    }
  }
}
