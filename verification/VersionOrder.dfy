/**
 * CompareVersions (internal/channel/channel.go): split at dots and hyphens,
 * numbers by value and anything else as -1, compared with zero padding.
 */
module VersionOrder {
  import opened Common
  import opened Decimal
  import opened Text

  predicate IsSeparator(c: char) {
    c == '.' || c == '-'
  }

  /** strings.FieldsFunc: maximal runs without separators; cur is the run under way. */
  function FieldsFrom(s: string, cur: string): seq<string> {
    if s == [] then (if cur == [] then [] else [cur])
    else if IsSeparator(s[0]) then (if cur == [] then [] else [cur]) + FieldsFrom(s[1..], [])
    else FieldsFrom(s[1..], cur + [s[0]])
  }

  function Fields(s: string): seq<string> {
    FieldsFrom(s, [])
  }

  /** strconv.Atoi, with -1 for anything it rejects (out-of-range numbers included). */
  function Weight(field: string): int {
    match ParseInt(field)
    case Number(n) => n
    case _ => -1
  }

  function Weights(fields: seq<string>): seq<int> {
    seq(|fields|, i requires 0 <= i < |fields| => Weight(fields[i]))
  }

  function Norm(v: string): seq<int> {
    Weights(Fields(TrimPrefix(TrimPrefix(v, "v"), "V")))
  }

  function Padded(p: seq<int>, i: nat): int {
    if i < |p| then p[i] else 0
  }

  function CompareFrom(p: seq<int>, q: seq<int>, i: nat): int
    decreases |p| + |q| - i
  {
    if i >= |p| && i >= |q| then 0
    else if Padded(p, i) < Padded(q, i) then -1
    else if Padded(p, i) > Padded(q, i) then 1
    else CompareFrom(p, q, i + 1)
  }

  function Compare(a: string, b: string): int {
    CompareFrom(Norm(a), Norm(b), 0)
  }

  /** The norm closure: an array of numbers filled in a loop. */
  method Normalize(v: string) returns (nums: array<int>)
    ensures fresh(nums) && nums[..] == Norm(v)
  {
    var parts := Fields(TrimPrefix(TrimPrefix(v, "v"), "V"));
    nums := new int[|parts|];
    for i := 0 to |parts|
      invariant forall j :: 0 <= j < i ==> nums[j] == Weight(parts[j])
    {
      match ParseInt(parts[i]) {
        case Number(n) => nums[i] := n;
        case _ => nums[i] := -1;
      }
    }
  }

  /** CompareVersions. */
  method CompareVersions(a: string, b: string) returns (c: int)
    ensures c == Compare(a, b)
  {
    var pa := Normalize(a);
    var pb := Normalize(b);
    var length := pa.Length;
    if pb.Length > length {
      length := pb.Length;
    }
    for i := 0 to length
      invariant CompareFrom(pa[..], pb[..], 0) == CompareFrom(pa[..], pb[..], i)
    {
      var x := if i < pa.Length then pa[i] else 0;
      var y := if i < pb.Length then pb[i] else 0;
      if x < y {
        return -1;
      }
      if x > y {
        return 1;
      }
    }
    c := 0;
  }

  // ---- a total preorder ----

  /** The first position where the padded sequences differ decides. */
  ghost predicate FirstDifference(p: seq<int>, q: seq<int>, i: nat, k: nat) {
    i <= k && Padded(p, k) != Padded(q, k) && forall j :: i <= j < k ==> Padded(p, j) == Padded(q, j)
  }

  lemma {:induction false} CompareMeansLexicographic(p: seq<int>, q: seq<int>, i: nat)
    ensures CompareFrom(p, q, i) in {-1, 0, 1}
    ensures CompareFrom(p, q, i) == 0 <==> forall j :: i <= j ==> Padded(p, j) == Padded(q, j)
    ensures CompareFrom(p, q, i) == -1 <==> exists k :: FirstDifference(p, q, i, k) && Padded(p, k) < Padded(q, k)
    ensures CompareFrom(p, q, i) == 1 <==> exists k :: FirstDifference(p, q, i, k) && Padded(p, k) > Padded(q, k)
    decreases |p| + |q| - i
  {
    if i >= |p| && i >= |q| {
    } else if Padded(p, i) != Padded(q, i) {
      assert FirstDifference(p, q, i, i);
    } else {
      CompareMeansLexicographic(p, q, i + 1);
      forall k ensures FirstDifference(p, q, i, k) <==> FirstDifference(p, q, i + 1, k) {
      }
      assert (forall j :: i <= j ==> Padded(p, j) == Padded(q, j))
        <==> (forall j :: i + 1 <= j ==> Padded(p, j) == Padded(q, j));
    }
  }

  lemma {:induction false} CompareFlips(p: seq<int>, q: seq<int>, i: nat)
    ensures CompareFrom(p, q, i) == -CompareFrom(q, p, i)
    decreases |p| + |q| - i
  {
    if i < |p| || i < |q| {
      CompareFlips(p, q, i + 1);
    }
  }

  lemma {:induction false} CompareChains(p: seq<int>, q: seq<int>, r: seq<int>, i: nat)
    requires CompareFrom(p, q, i) <= 0 && CompareFrom(q, r, i) <= 0
    ensures CompareFrom(p, r, i) <= 0
    ensures CompareFrom(p, q, i) < 0 || CompareFrom(q, r, i) < 0 ==> CompareFrom(p, r, i) < 0
    decreases |p| + |q| + |r| - i
  {
    if (i < |p| || i < |q| || i < |r|) && Padded(p, i) == Padded(q, i) == Padded(r, i) {
      CompareSteps(p, q, i);
      CompareSteps(q, r, i);
      CompareSteps(p, r, i);
      CompareChains(p, q, r, i + 1);
    }
  }

  /** Equal padded elements never decide. */
  lemma CompareSteps(p: seq<int>, q: seq<int>, i: nat)
    requires Padded(p, i) == Padded(q, i)
    ensures CompareFrom(p, q, i) == CompareFrom(p, q, i + 1)
  {
  }

  /** On all strings: reflexive, antisymmetric in sign, transitive with strictness carried through. */
  lemma CompareIsTotalPreorder(a: string, b: string, c: string)
    ensures Compare(a, b) in {-1, 0, 1}
    ensures Compare(a, a) == 0
    ensures Compare(a, b) == -Compare(b, a)
    ensures Compare(a, b) <= 0 && Compare(b, c) <= 0 ==>
              Compare(a, c) <= 0 && (Compare(a, b) < 0 || Compare(b, c) < 0 ==> Compare(a, c) < 0)
  {
    CompareMeansLexicographic(Norm(a), Norm(b), 0);
    CompareMeansLexicographic(Norm(a), Norm(a), 0);
    CompareFlips(Norm(a), Norm(b), 0);
    if Compare(a, b) <= 0 && Compare(b, c) <= 0 {
      CompareChains(Norm(a), Norm(b), Norm(c), 0);
    }
  }

  // ---- rendered versions ----

  /** A release X.Y.Z, or its Nth prerelease. */
  datatype SemVer = SemVer(x: nat, y: nat, z: nat, pre: Option<nat>)

  predicate InRange(v: SemVer) {
    v.x < TWO_63 && v.y < TWO_63 && v.z < TWO_63 && (v.pre.Some? ==> v.pre.value < TWO_63)
  }

  function Core(v: SemVer): string {
    Print(v.x) + "." + Print(v.y) + "." + Print(v.z)
  }

  /** vX.Y.Z, or vX.Y.Z-name.N. */
  function Render(name: string, v: SemVer): string {
    "v" + Core(v) + (if v.pre.Some? then "-" + name + "." + Print(v.pre.value) else "")
  }

  function Sign(a: int, b: int): int {
    if a < b then -1 else if a > b then 1 else 0
  }

  /** Section 11 of Semantic Versioning 2.0.0, for one prerelease name. */
  function Precedence(a: SemVer, b: SemVer): int {
    if a.x != b.x then Sign(a.x, b.x)
    else if a.y != b.y then Sign(a.y, b.y)
    else if a.z != b.z then Sign(a.z, b.z)
    else
      match (a.pre, b.pre)
      case (None, None) => 0
      case (None, Some(_)) => 1
      case (Some(_), None) => -1
      case (Some(m), Some(n)) => Sign(m, n)
  }

  lemma {:induction false} FieldsOfWord(w: string, cur: string, sep: char, rest: string)
    requires forall i :: 0 <= i < |w| ==> !IsSeparator(w[i])
    requires IsSeparator(sep)
    ensures FieldsFrom(w, cur) == if cur + w == [] then [] else [cur + w]
    ensures FieldsFrom(w + [sep] + rest, cur) == FieldsFrom(w, cur) + FieldsFrom(rest, [])
    decreases |w|
  {
    var s := w + [sep] + rest;
    if w == [] {
      assert cur + w == cur;
      assert s == [sep] + rest && s[1..] == rest;
    } else {
      assert s[1..] == w[1..] + [sep] + rest;
      assert cur + [w[0]] + w[1..] == cur + w;
      FieldsOfWord(w[1..], cur + [w[0]], sep, rest);
    }
  }

  /** A separator ends the field before it, whatever is on either side. */
  lemma {:induction false} FieldsSplit(a: string, sep: char, b: string, cur: string)
    requires IsSeparator(sep)
    ensures FieldsFrom(a + [sep] + b, cur) == FieldsFrom(a, cur) + FieldsFrom(b, [])
    decreases |a|
  {
    var s := a + [sep] + b;
    if a == [] {
      assert s == [sep] + b && s[1..] == b;
    } else {
      assert s[1..] == a[1..] + [sep] + b;
      var cur' := if IsSeparator(a[0]) then [] else cur + [a[0]];
      FieldsSplit(a[1..], sep, b, cur');
      var done := if cur == [] then [] else [cur];
      if IsSeparator(a[0]) {
        assert done + (FieldsFrom(a[1..], []) + FieldsFrom(b, [])) == done + FieldsFrom(a[1..], []) + FieldsFrom(b, []);
      }
    }
  }

  lemma FieldsOfNumber(n: nat)
    ensures Fields(Print(n)) == [Print(n)]
  {
    FieldsOfWord(Print(n), [], '.', "");
    assert [] + Print(n) == Print(n);
  }

  lemma FieldsOfCore(v: SemVer)
    ensures Fields(Core(v)) == [Print(v.x), Print(v.y), Print(v.z)]
  {
    var y, z := Print(v.y), Print(v.z);
    assert Core(v) == Print(v.x) + ['.'] + (y + ['.'] + z);
    FieldsSplit(Print(v.x), '.', y + ['.'] + z, []);
    FieldsSplit(y, '.', z, []);
    FieldsOfNumber(v.x);
    FieldsOfNumber(v.y);
    FieldsOfNumber(v.z);
  }

  lemma FieldsOfRendered(name: string, v: SemVer)
    ensures
      Fields(Core(v) + if v.pre.Some? then "-" + name + "." + Print(v.pre.value) else "") ==
      [Print(v.x), Print(v.y), Print(v.z)] + if v.pre.Some? then Fields(name) + [Print(v.pre.value)] else []
  {
    FieldsOfCore(v);
    if v.pre.Some? {
      var n := Print(v.pre.value);
      assert Core(v) + ("-" + name + "." + n) == Core(v) + ['-'] + (name + ['.'] + n);
      FieldsSplit(Core(v), '-', name + ['.'] + n, []);
      FieldsSplit(name, '.', n, []);
      FieldsOfNumber(v.pre.value);
    } else {
      assert Core(v) + "" == Core(v);
    }
  }

  lemma NormOfRendered(name: string, v: SemVer)
    requires InRange(v)
    ensures Norm(Render(name, v)) ==
            [v.x, v.y, v.z] + if v.pre.Some? then Weights(Fields(name)) + [v.pre.value] else []
  {
    var body := Core(v) + if v.pre.Some? then "-" + name + "." + Print(v.pre.value) else "";
    assert Render(name, v) == "v" + body;
    assert TrimPrefix("v" + body, "v") == body;
    assert IsDigit(body[0]) by { assert body[0] == Print(v.x)[0]; }
    assert TrimPrefix(body, "V") == body;
    FieldsOfRendered(name, v);
    ParseIntOfPrint(v.x);
    ParseIntOfPrint(v.y);
    ParseIntOfPrint(v.z);
    if v.pre.Some? {
      ParseIntOfPrint(v.pre.value);
    }
  }

  // ---- agreement with Semantic Versioning ----

  /** The channel name's first field that is not a zero weighs -1: text, or a number out of range. */
  predicate TextFirst(w: seq<int>) {
    w != [] && (w[0] < 0 || (w[0] == 0 && TextFirst(w[1..])))
  }

  predicate NameSortsBelowRelease(name: string) {
    TextFirst(Weights(Fields(name)))
  }

  /** Comparing shared beginnings is comparing what follows them. */
  lemma {:induction false} CompareSharedPrefix(w: seq<int>, p: seq<int>, q: seq<int>, i: nat)
    requires i <= |w|
    ensures CompareFrom(w + p, w + q, i) == CompareFrom(w + p, w + q, |w|)
    decreases |w| - i
  {
    if i < |w| {
      CompareSharedPrefix(w, p, q, i + 1);
    }
  }

  lemma {:induction false} CompareShift(w: seq<int>, p: seq<int>, q: seq<int>, i: nat)
    ensures CompareFrom(w + p, w + q, |w| + i) == CompareFrom(p, q, i)
    decreases |p| + |q| - i
  {
    assert Padded(w + p, |w| + i) == Padded(p, i) && Padded(w + q, |w| + i) == Padded(q, i);
    if i < |p| || i < |q| {
      CompareShift(w, p, q, i + 1);
    }
  }

  /** A release against a prerelease with the same core: the name's weights against zeros. */
  lemma {:induction false} EmptyAgainst(w: seq<int>, n: nat, i: nat)
    requires i <= |w| && forall j :: 0 <= j < |w| ==> w[j] >= -1
    ensures CompareFrom([], w + [n], i) == 1 <==> TextFirst(w[i..])
    decreases |w| - i
  {
    if i < |w| {
      assert w[i..][1..] == w[i + 1..];
      EmptyAgainst(w, n, i + 1);
    } else {
      assert CompareFrom([], w + [n], i + 1) == 0;
    }
  }

  /** Fields of a name without plus or minus signs weigh at least -1. */
  lemma {:induction false} FieldCharacters(s: string, cur: string)
    requires '+' !in s && '+' !in cur && '-' !in cur
    ensures forall f :: f in FieldsFrom(s, cur) ==> '+' !in f && '-' !in f
  {
    if s != [] {
      FieldCharacters(s[1..], if IsSeparator(s[0]) then [] else cur + [s[0]]);
    }
  }

  lemma NameWeights(name: string)
    requires '+' !in name
    ensures forall j :: 0 <= j < |Fields(name)| ==> Weights(Fields(name))[j] >= -1
  {
    FieldCharacters(name, []);
    forall j | 0 <= j < |Fields(name)| ensures Weight(Fields(name)[j]) >= -1 {
      var f := Fields(name)[j];
      assert f in Fields(name);
      if f != [] {
        assert f[0] != '-';
      }
    }
  }

  /** With the same kind on both sides, or different cores, the order is always right. */
  lemma SameKindAgrees(name: string, a: SemVer, b: SemVer)
    requires InRange(a) && InRange(b)
    requires a.pre.Some? == b.pre.Some? || (a.x, a.y, a.z) != (b.x, b.y, b.z)
    ensures Compare(Render(name, a), Render(name, b)) == Precedence(a, b)
  {
    NormOfRendered(name, a);
    NormOfRendered(name, b);
    var w := Weights(Fields(name));
    var p, q := Norm(Render(name, a)), Norm(Render(name, b));
    assert p[0] == a.x && p[1] == a.y && p[2] == a.z && q[0] == b.x && q[1] == b.y && q[2] == b.z;
    if a.x == b.x && a.y == b.y && a.z == b.z {
      if a.pre.Some? {
        var prefix := [a.x, a.y, a.z] + w;
        assert p == prefix + [a.pre.value] && q == prefix + [b.pre.value];
        CompareSharedPrefix(prefix, [a.pre.value], [b.pre.value], 0);
        CompareShift(prefix, [a.pre.value], [b.pre.value], 0);
        assert CompareFrom([a.pre.value], [b.pre.value], 1) == 0;
      } else {
        CompareMeansLexicographic(p, q, 0);
      }
    } else {
      assert CompareFrom(p, q, 0) == if p[0] != q[0] then Sign(p[0], q[0]) else CompareFrom(p, q, 1);
      assert CompareFrom(p, q, 1) == if p[1] != q[1] then Sign(p[1], q[1]) else CompareFrom(p, q, 2);
      assert CompareFrom(p, q, 2) == if p[2] != q[2] then Sign(p[2], q[2]) else CompareFrom(p, q, 3);
    }
  }

  /** A release sorts above its own prereleases exactly for such names. */
  lemma ReleaseAbovePrereleaseExactly(name: string, r: SemVer, n: nat)
    requires InRange(r) && r.pre.None? && n < TWO_63 && '+' !in name
    ensures Compare(Render(name, r), Render(name, r.(pre := Some(n)))) == 1 <==> NameSortsBelowRelease(name)
  {
    var a := r.(pre := Some(n));
    NormOfRendered(name, r);
    NormOfRendered(name, a);
    var w := Weights(Fields(name));
    var core := [r.x, r.y, r.z];
    assert Norm(Render(name, r)) == core + [] && Norm(Render(name, a)) == core + (w + [n]);
    CompareSharedPrefix(core, [], w + [n], 0);
    CompareShift(core, [], w + [n], 0);
    NameWeights(name);
    EmptyAgainst(w, n, 0);
    assert w[0..] == w;
  }

  ghost predicate AgreesWithSemVer(name: string) {
    forall a, b :: InRange(a) && InRange(b) ==> Compare(Render(name, a), Render(name, b)) == Precedence(a, b)
  }

  /**
   * On X.Y.Z and X.Y.Z-name.N with in-range numbers the order is that of
   * section 11 exactly when the name has a field other than zero and the first
   * such field is text or a number out of range.
   */
  lemma SemVerAgreementExactly(name: string)
    requires '+' !in name
    ensures AgreesWithSemVer(name) <==> NameSortsBelowRelease(name)
  {
    var r, a := SemVer(0, 0, 0, None), SemVer(0, 0, 0, Some(0));
    ReleaseAbovePrereleaseExactly(name, r, 0);
    if AgreesWithSemVer(name) {
      assert Compare(Render(name, r), Render(name, a)) == Precedence(r, a);
    }
    if NameSortsBelowRelease(name) {
      forall a, b | InRange(a) && InRange(b)
        ensures Compare(Render(name, a), Render(name, b)) == Precedence(a, b)
      {
        if a.pre.Some? == b.pre.Some? || (a.x, a.y, a.z) != (b.x, b.y, b.z) {
          SameKindAgrees(name, a, b);
        } else if a.pre.None? {
          ReleaseAbovePrereleaseExactly(name, a, b.pre.value);
        } else {
          ReleaseAbovePrereleaseExactly(name, b, a.pre.value);
          CompareFlips(Norm(Render(name, a)), Norm(Render(name, b)), 0);
        }
      }
    }
  }

  lemma PlainNameWeight(name: string)
    requires name != "" && forall i :: 0 <= i < |name| ==> !IsSeparator(name[i])
    ensures Weights(Fields(name)) == [Weight(name)]
  {
    FieldsOfWord(name, [], '.', "");
    assert [] + name == name;
  }

  /** A plain lower-case word is text. */
  lemma WordSortsBelowRelease(name: string)
    requires name != "" && forall i :: 0 <= i < |name| ==> 'a' <= name[i] <= 'z'
    ensures AgreesWithSemVer(name)
  {
    PlainNameWeight(name);
    assert ParseInt(name).Syntax?;
    SemVerAgreementExactly(name);
  }

  /** A number is not. */
  lemma NumberDoesNot(n: nat)
    requires n < TWO_63
    ensures !AgreesWithSemVer(Print(n))
  {
    PlainNameWeight(Print(n));
    ParseIntOfPrint(n);
    assert '+' !in Print(n) by { assert forall i :: 0 <= i < |Print(n)| ==> Print(n)[i] != '+'; }
    SemVerAgreementExactly(Print(n));
    var w := Weights(Fields(Print(n)));
    assert w[0] == n && !TextFirst(w[1..]);
    assert !NameSortsBelowRelease(Print(n));
  }

  /** The built-in channels meet the condition. */
  lemma BuiltInNamesAgree()
    ensures AgreesWithSemVer("dev") && AgreesWithSemVer("beta")
  {
    WordSortsBelowRelease("dev");
    WordSortsBelowRelease("beta");
  }

  /** A leading v or V, or both, makes no difference. */
  lemma PrefixIgnored(s: string)
    requires s != "" ==> s[0] != 'v' && s[0] != 'V'
    ensures Norm("v" + s) == Norm(s) && Norm("V" + s) == Norm(s) && Norm("vV" + s) == Norm(s)
    ensures Compare("v" + s, s) == 0 && Compare("V" + s, s) == 0
  {
    assert ("v" + s)[1..] == s && ("V" + s)[1..] == s && ("vV" + s)[1..] == "V" + s;
    CompareIsTotalPreorder(s, s, s);
  }

  /** A hyphen separates fields as a dot does. */
  lemma SeparatorsAlike(a: string, b: string)
    requires a != "" && a[0] != 'v' && a[0] != 'V'
    ensures Norm(a + ['-'] + b) == Norm(a + ['.'] + b) == Weights(Fields(a)) + Weights(Fields(b))
  {
    FieldsSplit(a, '-', b, []);
    FieldsSplit(a, '.', b, []);
  }
}
