/**
 * The agent's log ring (internal/agent/agent.go): a line splitter over a
 * partial-line buffer, feeding a fixed ring of the last 1000 lines.
 */
module LogRing {
  import opened Common

  const RING_SIZE: nat := 1000

  /** The completed lines of a byte stream, and the unfinished one after them. */
  function Lines(s: string): seq<string>
    decreases |s|
  {
    var i := IndexOf(s, '\n');
    if i < 0 then [] else [s[..i]] + Lines(s[i + 1..])
  }

  function Partial(s: string): string
    decreases |s|
  {
    var i := IndexOf(s, '\n');
    if i < 0 then s else Partial(s[i + 1..])
  }

  function LastN<T>(s: seq<T>, n: nat): seq<T> {
    if n >= |s| then s else s[|s| - n..]
  }

  lemma LinesHead(w: string, rest: string)
    requires '\n' !in w
    ensures Lines(w + ['\n'] + rest) == [w] + Lines(rest)
    ensures Partial(w + ['\n'] + rest) == Partial(rest)
  {
    IndexOfAfter(w, '\n', rest);
    var s := w + ['\n'] + rest;
    assert s[..|w|] == w && s[|w| + 1..] == rest;
  }

  /** A stream is its first line, a break and the rest, or has no break. */
  lemma Cut(s: string) returns (w: string, rest: string)
    requires IndexOf(s, '\n') >= 0
    ensures s == w + ['\n'] + rest && '\n' !in w && |rest| < |s|
    ensures w == s[..IndexOf(s, '\n')] && rest == s[IndexOf(s, '\n') + 1..]
  {
    var i := IndexOf(s, '\n');
    w, rest := s[..i], s[i + 1..];
  }

  /** Appending bytes appends to the unfinished line only: cuts between writes do not matter. */
  lemma {:induction false} LinesAppend(s: string, t: string)
    ensures Lines(s + t) == Lines(s) + Lines(Partial(s) + t)
    ensures Partial(s + t) == Partial(Partial(s) + t)
    decreases |s|
  {
    if IndexOf(s, '\n') < 0 {
      assert Lines(s) == [] && Partial(s) == s;
    } else {
      var w, rest := Cut(s);
      LinesAppend(rest, t);
      LinesAppendHead(w, rest, t);
    }
  }

  lemma LinesAppendHead(w: string, rest: string, t: string)
    requires '\n' !in w
    requires Lines(rest + t) == Lines(rest) + Lines(Partial(rest) + t)
    requires Partial(rest + t) == Partial(Partial(rest) + t)
    ensures
      var s := w + ['\n'] + rest;
      Lines(s + t) == Lines(s) + Lines(Partial(s) + t) && Partial(s + t) == Partial(Partial(s) + t)
  {
    LinesHead(w, rest);
    LinesHead(w, rest + t);
    ConcatAssociates(w + ['\n'], rest, t);
    ConcatAssociates([w], Lines(rest), Lines(Partial(rest) + t));
  }

  lemma {:induction false} PartialHasNoBreak(s: string)
    ensures '\n' !in Partial(s) && Lines(Partial(s)) == [] && Partial(Partial(s)) == Partial(s)
    decreases |s|
  {
    var i := IndexOf(s, '\n');
    if i >= 0 {
      PartialHasNoBreak(s[i + 1..]);
    }
  }

  /** No line or break is lost or invented. */
  function Unlines(lines: seq<string>, last: string): string {
    if lines == [] then last else lines[0] + "\n" + Unlines(lines[1..], last)
  }

  lemma UnlinesHead(w: string, lines: seq<string>, last: string)
    ensures Unlines([w] + lines, last) == w + "\n" + Unlines(lines, last)
  {
    assert ([w] + lines)[1..] == lines;
  }

  lemma {:induction false} LinesLoseNothing(s: string)
    ensures Unlines(Lines(s), Partial(s)) == s
    decreases |s|
  {
    if IndexOf(s, '\n') < 0 {
      assert Lines(s) == [] && Partial(s) == s;
    } else {
      var w, rest := Cut(s);
      LinesHead(w, rest);
      LinesLoseNothing(rest);
      UnlinesHead(w, Lines(rest), Partial(rest));
    }
  }

  /** The ring index of the kth last line when the next one goes to pos. */
  function Slot(pos: nat, k: int): (i: nat)
    ensures i < RING_SIZE
  {
    (pos - k + RING_SIZE) % RING_SIZE
  }

  /** Moving pos on by one renumbers the lines by one and leaves the others' slots alone. */
  lemma SlotsShift(pos: nat, k: int)
    requires pos < RING_SIZE && 1 <= k <= RING_SIZE
    ensures Slot((pos + 1) % RING_SIZE, k) == Slot(pos, k - 1)
    ensures Slot(pos, k - 1) == pos <==> k == 1
  {
  }

  /** Reading forward from the slot of the mth last line. */
  lemma SlotsFollow(pos: nat, m: int, i: int)
    requires pos < RING_SIZE && 0 <= i < m <= RING_SIZE
    ensures (Slot(pos, m) + i) % RING_SIZE == Slot(pos, m - i)
  {
  }

  lemma TailEquals<T>(a: seq<T>, s: seq<T>)
    requires |a| <= |s| && forall j :: 0 <= j < |a| ==> a[j] == s[|s| - (|a| - j)]
    ensures a == LastN(s, |a|)
  {
  }

  class LogRing {
    const ring: array<string>
    var pos: nat
    var len: nat
    var buf: string

    /** Every byte written through so far. */
    ghost var stream: string

    /** The ring holds, ending just before pos, the last lines of the stream. */
    ghost predicate Holds(lines: seq<string>)
      reads this, ring
    {
      && ring.Length == RING_SIZE && pos < RING_SIZE
      && len == (if |lines| <= RING_SIZE then |lines| else RING_SIZE)
      && forall k :: 1 <= k <= len ==> ring[Slot(pos, k)] == lines[|lines| - k]
    }

    ghost predicate Valid()
      reads this, ring
    {
      Holds(Lines(stream)) && buf == Partial(stream)
    }

    constructor ()
      ensures Valid() && stream == "" && fresh(ring)
    {
      ring := new string[RING_SIZE](_ => "");
      pos, len, buf, stream := 0, 0, "", "";
    }

    method Record(line: string, ghost lines: seq<string>)
      requires Holds(lines)
      modifies this`pos, this`len, ring
      ensures Holds(lines + [line])
    {
      ring[pos] := line;
      pos := (pos + 1) % RING_SIZE;
      if len < RING_SIZE {
        len := len + 1;
      }
      ghost var lines' := lines + [line];
      forall k | 1 <= k <= len
        ensures ring[Slot(pos, k)] == lines'[|lines'| - k]
      {
        SlotsShift(old(pos), k);
        if k > 1 {
          assert old(ring[Slot(pos, k - 1)]) == lines[|lines| - (k - 1)];
        }
      }
    }

    /**
     * logRingWriter.Write: n is how much of p the original writer took. The
     * lines recorded depend only on the bytes, not on how they were cut.
     */
    method Write(p: string, n: nat)
      requires Valid() && n <= |p|
      modifies this, ring
      ensures Valid() && stream == old(stream) + p[..n]
    {
      LinesAppend(stream, p[..n]);
      ghost var whole := stream + p[..n];
      buf := buf + p[..n];
      Drain(Lines(stream), whole);
      stream := whole;
    }

    /** The splitting loop: every completed line in the buffer goes to the ring. */
    method Drain(ghost recorded: seq<string>, ghost whole: string)
      requires Holds(recorded)
      requires recorded + Lines(buf) == Lines(whole) && Partial(buf) == Partial(whole)
      modifies this`pos, this`len, this`buf, ring
      ensures Holds(Lines(whole)) && buf == Partial(whole)
    {
      ghost var lines := recorded;
      var idx := IndexOf(buf, '\n');
      while idx >= 0
        invariant idx == IndexOf(buf, '\n')
        invariant Holds(lines)
        invariant lines + Lines(buf) == Lines(whole) && Partial(buf) == Partial(whole)
        decreases |buf|
      {
        ghost var w, rest := Cut(buf);
        LinesHead(w, rest);
        ConcatAssociates(lines, [w], Lines(rest));
        var line := buf[..idx];
        buf := buf[idx + 1..];
        Record(line, lines);
        lines := lines + [line];
        idx := IndexOf(buf, '\n');
      }
      assert lines + [] == lines;
    }

    /** snapshotLogRing: the last n recorded lines in order, all that are held when n is out of range. */
    method Snapshot(n: int) returns (lines: array<string>)
      requires Valid()
      ensures fresh(lines)
      ensures lines[..] == LastN(Lines(stream), if n <= 0 || n > RING_SIZE then RING_SIZE else n)
    {
      var m := if n <= 0 || n > len then len else n;
      lines := new string[m](_ => "");
      var start := Slot(pos, m);
      for i := 0 to m
        modifies lines
        invariant forall j :: 0 <= j < i ==> lines[j] == ring[Slot(pos, m - j)]
      {
        SlotsFollow(pos, m, i);
        lines[i] := ring[(start + i) % RING_SIZE];
      }
      ghost var all := Lines(stream);
      TailEquals(lines[..], all);
    }
  }
}
