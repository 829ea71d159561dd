/** The If-Match and ETag header forms (RFC 7232, sections 2.3 and 3.1). */
module IfMatch {
  import opened Common
  import opened Decimal
  import opened Text
  import opened AccessVersion
  import opened AccessSteps

  predicate IsQuote(c: char) {
    c == '"'
  }

  /** parseIfMatch on the header value, "" when absent. None means no precondition. */
  function ParseIfMatch(header: string): Option<U64> {
    var raw := TrimSpace(header);
    if raw == "" || raw == "*" then None
    else
      match ParseUint(Trim(TrimPrefix(raw, "W/"), IsQuote))
      case Number(n) => Some(n)
      case _ => None
  }

  function Quoted(v: U64): string {
    "\"" + Print(v) + "\""
  }

  /** setETag: version 0 sets no header. */
  function ETag(v: U64): string {
    if v == 0 then "" else Quoted(v)
  }

  /** A header without space around it is parsed as it is. */
  lemma HeaderIsRaw(header: string)
    requires header != [] && !IsSpace(header[0]) && !IsSpace(header[|header| - 1])
    ensures TrimSpace(header) == header
  {
    TrimSurrounded([], header, [], IsSpace);
    assert [] + header + [] == header;
  }

  lemma DigitsUnquote(p: string)
    requires p != [] && forall i :: 0 <= i < |p| ==> IsDigit(p[i])
    ensures Trim("\"" + p + "\"", IsQuote) == p
    ensures Trim(p, IsQuote) == p
  {
    assert IsDigit(p[0]) && IsDigit(p[|p| - 1]);
    TrimSurrounded("\"", p, "\"", IsQuote);
    TrimSurrounded([], p, [], IsQuote);
    assert [] + p + [] == p;
  }

  lemma BareFormParses(v: U64)
    ensures ParseIfMatch(Print(v)) == Some(v)
  {
    var p := Print(v);
    assert IsDigit(p[0]) && IsDigit(p[|p| - 1]);
    HeaderIsRaw(p);
    assert p != "*" by { assert p[0] != '*'; }
    assert !HasPrefix(p, "W/") by { assert p[0] != 'W'; }
    DigitsUnquote(p);
    ParseUintOfPrint(v);
  }

  lemma QuotedFormsParse(v: U64)
    ensures ParseIfMatch(Quoted(v)) == Some(v)
    ensures ParseIfMatch("W/" + Quoted(v)) == Some(v)
  {
    var q := Quoted(v);
    assert q[0] == '"' && q[|q| - 1] == '"';
    HeaderIsRaw(q);
    HeaderIsRaw("W/" + q);
    assert !HasPrefix(q, "W/") by { assert q[0] != 'W'; }
    assert ("W/" + q)[2..] == q;
    DigitsUnquote(Print(v));
    ParseUintOfPrint(v);
  }

  /** The strong, weak and bare forms of a version all parse back to it. */
  lemma EveryFormParses(v: U64)
    ensures ParseIfMatch(Quoted(v)) == Some(v)
    ensures ParseIfMatch("W/" + Quoted(v)) == Some(v)
    ensures ParseIfMatch(Print(v)) == Some(v)
  {
    QuotedFormsParse(v);
    BareFormParses(v);
  }

  /**
   * A client echoing an ETag is let through exactly when that version is still
   * current; the version 0 has none, and echoing that is no precondition.
   */
  lemma EchoedETagDetectsChange(versions: Counters, id: string, v: U64)
    ensures StaleMatch(versions, id, ParseIfMatch(ETag(v))) <==> v != 0 && v != Version(versions, id)
  {
    EveryFormParses(v);
  }

  /** What is left of a header when space, a weak mark and quotes are taken off. */
  function Core(header: string): string {
    Trim(TrimPrefix(TrimSpace(header), "W/"), IsQuote)
  }

  /**
   * For every header: it is a precondition exactly when its core is a decimal
   * number of 64 bits, and then asks for that version. Any other header makes the
   * request unconditional, as if there were none.
   */
  lemma PreconditionExactly(header: string)
    ensures ParseIfMatch(header).Some? <==>
            Core(header) != [] && AllDigits(Core(header)) && Digits(Core(header), 0) < TWO_64
    ensures ParseIfMatch(header).Some? ==> ParseIfMatch(header).value == Digits(Core(header), 0)
  {
    ParseUintExactly(Core(header));
    if TrimSpace(header) == "*" {
      assert Core(header) == "*";
      assert !IsDigit("*"[0]);
    }
  }

  /** So the list form of RFC 7232, section 3.1, is no precondition, whatever it lists. */
  lemma ListIsNoPrecondition(v: U64, w: U64)
    ensures ParseIfMatch(Quoted(v) + ", " + Quoted(w)).None?
  {
    var header := Quoted(v) + ", " + Quoted(w);
    var inner := Print(v) + "\", \"" + Print(w);
    assert header[0] == '"' && header[|header| - 1] == '"';
    HeaderIsRaw(header);
    assert !HasPrefix(header, "W/") by { assert header[0] != 'W'; }
    assert IsDigit(Print(v)[0]) && IsDigit(Print(w)[|Print(w)| - 1]);
    assert inner[0] == Print(v)[0] && inner[|inner| - 1] == Print(w)[|Print(w)| - 1];
    assert header == "\"" + inner + "\"";
    TrimSurrounded("\"", inner, "\"", IsQuote);
    assert !IsDigit(inner[|Print(v)|]);
    PreconditionExactly(header);
  }
}
