/** The parts of Go's strings package the parsers rely on. */
module Text {
  import opened Common

  /** unicode.IsSpace. */
  predicate IsSpace(c: char) {
    || '\t' <= c <= '\r' || c == ' ' || c == '\U{85}' || c == '\U{A0}'
    || c == '\U{1680}' || '\U{2000}' <= c <= '\U{200A}'
    || c == '\U{2028}' || c == '\U{2029}' || c == '\U{202F}' || c == '\U{205F}' || c == '\U{3000}'
  }

  function TrimLeft(s: string, drop: char -> bool): string {
    if s != [] && drop(s[0]) then TrimLeft(s[1..], drop) else s
  }

  function TrimRight(s: string, drop: char -> bool): string {
    if s != [] && drop(s[|s| - 1]) then TrimRight(s[..|s| - 1], drop) else s
  }

  function Trim(s: string, drop: char -> bool): string {
    TrimRight(TrimLeft(s, drop), drop)
  }

  function TrimSpace(s: string): string {
    Trim(s, IsSpace)
  }

  function TrimPrefix(s: string, prefix: string): string {
    if HasPrefix(s, prefix) then s[|prefix|..] else s
  }

  /** A string with kept ends is what remains after its surroundings are trimmed. */
  lemma {:induction false} TrimSurrounded(left: string, s: string, right: string, drop: char -> bool)
    requires forall c :: c in left || c in right ==> drop(c)
    requires s != [] && !drop(s[0]) && !drop(s[|s| - 1])
    ensures Trim(left + s + right, drop) == s
    decreases |left| + |right|
  {
    if left != [] {
      assert (left + s + right)[1..] == left[1..] + s + right;
      TrimSurrounded(left[1..], s, right, drop);
    } else {
      assert left + s + right == s + right;
      assert TrimLeft(s + right, drop) == s + right;
      TrimRightOf(s, right, drop);
    }
  }

  lemma {:induction false} TrimRightOf(s: string, right: string, drop: char -> bool)
    requires forall c :: c in right ==> drop(c)
    requires s != [] && !drop(s[|s| - 1])
    ensures TrimRight(s + right, drop) == s
  {
    if right == [] {
      assert s + right == s;
    } else {
      var n := |right| - 1;
      assert (s + right)[..|s + right| - 1] == s + right[..n];
      assert right[n] in right;
      TrimRightOf(s, right[..n], drop);
    }
  }
}
