/**
 * Channel inference and update decisions (internal/channel/channel.go), with
 * the HEAD-path gates of the hub and the agent.
 */
module ReleaseChannel {
  import opened Common
  import opened Decimal
  import opened Text
  import opened VersionOrder

  const DEFAULT_CHANNEL := "dev"

  predicate IsNameChar(c: char) {
    'a' <= c <= 'z' || '0' <= c <= '9' || c == '-'
  }

  predicate IsValidName(name: string) {
    name != "" && forall i :: 0 <= i < |name| ==> IsNameChar(name[i])
  }

  /**
   * unicode.ToLower as far as a name check can tell: the ASCII letters and the
   * two non-ASCII characters whose lower case is ASCII. Every other non-ASCII
   * character stays one, and makes the name invalid either way.
   */
  function LowerChar(c: char): char {
    if 'A' <= c <= 'Z' then (c as int + 32) as char
    else if c == '\U{212A}' then 'k'
    else if c == '\U{130}' then 'i'
    else c
  }

  function ToLower(s: string): string {
    seq(|s|, i requires 0 <= i < |s| => LowerChar(s[i]))
  }

  function Normalize(name: string): string {
    var n := TrimSpace(ToLower(name));
    if IsValidName(n) then n else DEFAULT_CHANNEL
  }

  function CountChar(s: string, c: char): nat {
    if s == [] then 0 else (if s[0] == c then 1 else 0) + CountChar(s[1..], c)
  }

  predicate LooksLikeSemverCore(s: string) {
    CountChar(s, '.') >= 2 && forall i :: 0 <= i < |s| ==> s[i] == '.' || IsDigit(s[i])
  }

  function UpTo(s: string, c: char): string {
    var i := IndexOf(s, c);
    if i < 0 then s else s[..i]
  }

  /** The channel of a version without its v and build metadata. */
  function InferBare(v: string): string {
    var dash := IndexOf(v, '-');
    if dash < 0 then (if LooksLikeSemverCore(v) then "stable" else "")
    else if !LooksLikeSemverCore(v[..dash]) then ""
    else
      var first := ToLower(UpTo(v[dash + 1..], '.'));
      if IsValidName(first) then first else ""
  }

  /** InferFromVersion, "" when nothing can be inferred. */
  function Infer(version: string): string {
    var v := TrimSpace(version);
    if v == "" then ""
    else InferBare(UpTo(if v[0] == 'v' || v[0] == 'V' then v[1..] else v, '+'))
  }

  predicate IsNewer(candidate: string, current: string) {
    candidate != "dev" && current != "dev" && Compare(candidate, current) > 0
  }

  predicate IsCrossChannel(current: string, target: string) {
    current != "" && current != "dev" && target != "" && Infer(current) != Normalize(target)
  }

  predicate ShouldOffer(current: string, channel: string, target: string) {
    if target == "" then false
    else if current == "" || current == "dev" then true
    else if IsCrossChannel(current, channel) then current != target
    else IsNewer(target, current)
  }

  // ---- inference round trip ----

  lemma {:induction false} CountCharAppend(a: string, b: string, c: char)
    ensures CountChar(a + b, c) == CountChar(a, c) + CountChar(b, c)
  {
    if a == [] {
      assert a + b == b;
    } else {
      assert (a + b)[1..] == a[1..] + b;
      CountCharAppend(a[1..], b, c);
    }
  }

  lemma CoreLooksRight(v: SemVer)
    ensures LooksLikeSemverCore(Core(v))
    ensures '-' !in Core(v) && '+' !in Core(v)
  {
    var x, y, z := Print(v.x), Print(v.y), Print(v.z);
    CountCharAppend(x + "." + y + ".", z, '.');
    CountCharAppend(x + "." + y, ".", '.');
    CountCharAppend(x + ".", y, '.');
    CountCharAppend(x, ".", '.');
    assert CountChar(".", '.') == 1;
    assert forall i :: 0 <= i < |Core(v)| ==> Core(v)[i] == '.' || IsDigit(Core(v)[i]);
    assert !IsDigit('-') && !IsDigit('+');
  }

  lemma UpToSeparator(w: string, c: char, rest: string)
    requires c !in w
    ensures UpTo(w + [c] + rest, c) == w && UpTo(w, c) == w
  {
    IndexOfAfter(w, c, rest);
    assert (w + [c] + rest)[..|w|] == w;
  }

  lemma LowerKeepsValid(name: string)
    requires forall i :: 0 <= i < |name| ==> IsNameChar(name[i])
    ensures ToLower(name) == name
  {
    assert forall i :: 0 <= i < |name| ==> LowerChar(name[i]) == name[i];
  }

  lemma InferBarePrerelease(core: string, name: string, n: string)
    requires LooksLikeSemverCore(core) && '-' !in core && IsValidName(ToLower(name)) && '.' !in name
    ensures InferBare(core + ['-'] + (name + ['.'] + n)) == ToLower(name)
  {
    var body := core + ['-'] + (name + ['.'] + n);
    IndexOfAfter(core, '-', name + ['.'] + n);
    assert body[..|core|] == core && body[|core| + 1..] == name + ['.'] + n;
    UpToSeparator(name, '.', n);
  }

  lemma NoMarks(name: string)
    requires IsValidName(ToLower(name))
    ensures '.' !in name && '+' !in name
  {
    forall i | 0 <= i < |name| ensures name[i] != '.' && name[i] != '+' {
      assert IsNameChar(ToLower(name)[i]);
    }
  }

  /** A version without its v: X.Y.Z or X.Y.Z-name.N. */
  function Body(name: string, v: SemVer): string {
    Core(v) + if v.pre.Some? then "-" + name + "." + Print(v.pre.value) else ""
  }

  /** The channel of such a version: the name in lower case. */
  function ChannelOf(name: string, v: SemVer): string {
    if v.pre.Some? then ToLower(name) else "stable"
  }

  lemma BodyLooksRight(name: string, v: SemVer)
    requires IsValidName(ToLower(name))
    ensures var b := Body(name, v); b != "" && IsDigit(b[0]) && IsDigit(b[|b| - 1]) && '+' !in b
    ensures InferBare(Body(name, v)) == ChannelOf(name, v)
  {
    CoreLooksRight(v);
    var core := Core(v);
    assert IsDigit(Print(v.x)[0]) && IsDigit(Print(v.z)[|Print(v.z)| - 1]);
    if v.pre.Some? {
      var n := Print(v.pre.value);
      assert Body(name, v) == core + ['-'] + (name + ['.'] + n);
      NoMarks(name);
      InferBarePrerelease(core, name, n);
      assert IsDigit(n[|n| - 1]);
      assert '+' !in n by { assert forall i :: 0 <= i < |n| ==> n[i] != '+'; }
    } else {
      assert Body(name, v) == core;
    }
  }

  lemma InferOf(version: string, inner: string, bare: string, body: string)
    requires TrimSpace(version) == inner && inner != ""
    requires bare == (if inner[0] == 'v' || inner[0] == 'V' then inner[1..] else inner) && UpTo(bare, '+') == body
    ensures Infer(version) == InferBare(body)
  {
  }

  lemma WithoutBuild(body: string, build: string)
    requires '+' !in body && (build != "" ==> build[0] == '+')
    ensures UpTo(body + build, '+') == body
  {
    if build == "" {
      assert body + build == body;
      UpToSeparator(body, '+', "");
    } else {
      assert body + build == body + ['+'] + build[1..];
      UpToSeparator(body, '+', build[1..]);
    }
  }

  lemma WithoutV(v0: string, rest: string)
    requires v0 in ["", "v", "V"] && rest != "" && IsDigit(rest[0])
    ensures
      var inner := v0 + rest;
      && (if inner[0] == 'v' || inner[0] == 'V' then inner[1..] else inner) == rest
      && !IsSpace(inner[0]) && inner[|inner| - 1] == rest[|rest| - 1]
  {
    var inner := v0 + rest;
    if v0 == "" {
      assert inner == rest;
    } else {
      assert inner[0] == v0[0] && inner[1..] == rest;
    }
  }

  /** What surrounds a body of digits, dots and a prerelease does not matter. */
  lemma Undecorate(version: string, left: string, v0: string, body: string, build: string, right: string)
    requires version == left + (v0 + (body + build)) + right && v0 in ["", "v", "V"]
    requires body != "" && IsDigit(body[0]) && IsDigit(body[|body| - 1]) && '+' !in body
    requires build != "" ==> build[0] == '+' && !IsSpace(build[|build| - 1])
    requires forall c :: c in left || c in right ==> IsSpace(c)
    ensures Infer(version) == InferBare(body)
  {
    var rest := body + build;
    assert rest[|rest| - 1] == if build == "" then body[|body| - 1] else build[|build| - 1];
    WithoutV(v0, rest);
    WithoutBuild(body, build);
    TrimSurrounded(left, v0 + rest, right, IsSpace);
    InferOf(version, v0 + rest, rest, body);
  }

  /**
   * Every valid channel name is recovered from X.Y.Z-name.N, and a release is
   * stable: in any case, with or without v or V, build metadata and space around.
   */
  lemma InferDecorated(
      version: string, left: string, v0: string, name: string, v: SemVer, build: string, right: string)
    requires version == left + (v0 + (Body(name, v) + build)) + right
    requires IsValidName(ToLower(name)) && v0 in ["", "v", "V"]
    requires build != "" ==> build[0] == '+' && !IsSpace(build[|build| - 1])
    requires forall c :: c in left || c in right ==> IsSpace(c)
    ensures Infer(version) == ChannelOf(name, v)
  {
    BodyLooksRight(name, v);
    Undecorate(version, left, v0, Body(name, v), build, right);
  }

  /** In particular a rendered version gives back its name. */
  lemma InferRoundTrip(name: string, v: SemVer)
    requires IsValidName(name)
    ensures Infer(Render(name, v)) == if v.pre.Some? then name else "stable"
    ensures ChannelOf(name, v) == if v.pre.Some? then name else "stable"
  {
    LowerKeepsValid(name);
    RenderedIsBody(name, v);
    InferDecorated(Render(name, v), "", "v", name, v, "", "");
  }

  lemma RenderedIsBody(name: string, v: SemVer)
    ensures Render(name, v) == "" + ("v" + (Body(name, v) + "")) + ""
  {
  }

  lemma NormalizeValid(name: string)
    requires IsValidName(name)
    ensures Normalize(name) == name
  {
    LowerKeepsValid(name);
    TrimSurrounded("", name, "", IsSpace);
    assert "" + name + "" == name;
  }

  lemma LowerAppend(a: string, b: string)
    ensures ToLower(a + b) == ToLower(a) + ToLower(b)
  {
  }

  /** Normalizing always gives a valid name, once and for all: "dev" for what is none without case and space. */
  lemma NormalizeExactly(name: string)
    ensures IsValidName(Normalize(name)) && Normalize(Normalize(name)) == Normalize(name)
    ensures !IsValidName(TrimSpace(ToLower(name))) ==> Normalize(name) == "dev"
  {
    NormalizeValid(Normalize(name));
  }

  /** Case and space around a valid name are forgiven. */
  lemma NormalizeForgives(left: string, s: string, right: string)
    requires IsValidName(ToLower(s)) && forall c :: c in left || c in right ==> IsSpace(c)
    ensures Normalize(left + s + right) == ToLower(s)
  {
    LowerAppend(left + s, right);
    LowerAppend(left, s);
    LowerKeepsSpace(left);
    LowerKeepsSpace(right);
    var n := ToLower(s);
    assert IsNameChar(n[0]) && IsNameChar(n[|n| - 1]);
    TrimSurrounded(left, n, right, IsSpace);
  }

  lemma LowerKeepsSpace(s: string)
    requires forall c :: c in s ==> IsSpace(c)
    ensures ToLower(s) == s
  {
    forall i | 0 <= i < |s| ensures LowerChar(s[i]) == s[i] {
      assert s[i] in s;
      SpaceIsNoLetter(s[i]);
    }
  }

  lemma SpaceIsNoLetter(c: char)
    requires IsSpace(c)
    ensures LowerChar(c) == c
  {
  }

  /** Nothing crosses from or to the unknown, and a dev build compares with nothing. */
  lemma UnknownNeverCrosses(version: string, channel: string)
    ensures !IsCrossChannel("", channel) && !IsCrossChannel("dev", channel) && !IsCrossChannel(version, "")
    ensures !IsNewer(version, "dev") && !IsNewer("dev", version)
  {
  }

  /** A version crosses channels exactly when the target is another one, "stable" being a release's own. */
  lemma CrossChannelExactly(name: string, target: string, v: SemVer)
    requires IsValidName(name) && IsValidName(target)
    ensures IsCrossChannel(Render(name, v), target) <==> ChannelOf(name, v) != target
  {
    InferRoundTrip(name, v);
    NormalizeValid(target);
    assert Render(name, v)[0] == 'v' && "dev"[0] == 'd';
  }

  lemma RenderedIsNoDev(name: string, v: SemVer)
    ensures Render(name, v) != "" && Render(name, v) != "dev"
  {
    assert Render(name, v)[0] == 'v' && "dev"[0] == 'd';
  }

  lemma PrecedenceFlips(a: SemVer, b: SemVer)
    ensures Precedence(b, a) == 1 <==> Precedence(a, b) == -1
  {
  }

  lemma NewerExactly(name: string, a: SemVer, b: SemVer)
    requires InRange(a) && InRange(b) && a.pre.Some? == b.pre.Some?
    ensures IsNewer(Render(name, b), Render(name, a)) <==> Precedence(a, b) == -1
  {
    RenderedIsNoDev(name, a);
    RenderedIsNoDev(name, b);
    SameKindAgrees(name, b, a);
    PrecedenceFlips(a, b);
    assert -1 <= Precedence(b, a) <= 1;
  }

  /** On its own channel a version is offered exactly the versions that come after it in precedence. */
  lemma SameChannelOfferExactly(name: string, a: SemVer, b: SemVer)
    requires IsValidName(name) && InRange(a) && InRange(b) && a.pre.Some? == b.pre.Some?
    ensures ShouldOffer(Render(name, a), ChannelOf(name, a), Render(name, b)) <==> Precedence(a, b) == -1
  {
    var current, target := Render(name, a), Render(name, b);
    RenderedIsNoDev(name, a);
    RenderedIsNoDev(name, b);
    OwnChannel(name, a);
    NewerExactly(name, a, b);
    OfferOnOwnChannel(current, ChannelOf(name, a), target);
  }

  lemma OwnChannel(name: string, v: SemVer)
    requires IsValidName(name)
    ensures !IsCrossChannel(Render(name, v), ChannelOf(name, v))
  {
    assert IsValidName("stable");
    LowerKeepsValid(name);
    CrossChannelExactly(name, ChannelOf(name, v), v);
  }

  lemma OfferOnOwnChannel(current: string, channel: string, target: string)
    requires current != "" && current != "dev" && target != "" && !IsCrossChannel(current, channel)
    ensures ShouldOffer(current, channel, target) <==> IsNewer(target, current)
  {
  }

  /** Any other target is offered whenever it differs, and anything to a dev build or an unknown version. */
  lemma OtherOfferExactly(name: string, a: SemVer, channel: string, target: string)
    requires IsValidName(name) && IsValidName(channel)
    ensures ChannelOf(name, a) != channel ==>
              (ShouldOffer(Render(name, a), channel, target) <==> target != "" && target != Render(name, a))
    ensures ShouldOffer("dev", channel, target) <==> target != ""
    ensures ShouldOffer("", channel, target) <==> target != ""
    ensures !ShouldOffer(Render(name, a), channel, "")
  {
    CrossChannelExactly(name, channel, a);
    assert Render(name, a)[0] == 'v' && "dev"[0] == 'd';
  }

  // ---- convergence ----

  /** The version after one poll of a channel whose HEAD is head. */
  function Poll(current: string, channel: string, head: string): string {
    if ShouldOffer(current, channel, head) then head else current
  }

  /** How many of n polls install something. */
  function Installs(current: string, channel: string, head: string, n: nat): nat
    decreases n
  {
    if n == 0 then 0
    else
      (if ShouldOffer(current, channel, head) then 1 else 0)
      + Installs(Poll(current, channel, head), channel, head, n - 1)
  }

  lemma {:induction false} NothingMoreToInstall(current: string, channel: string, head: string, n: nat)
    requires !ShouldOffer(current, channel, head)
    ensures Installs(current, channel, head, n) == 0
  {
    if n > 0 {
      NothingMoreToInstall(current, channel, head, n - 1);
    }
  }

  /** What a dev build and an unknown one, or one from another channel, do with a HEAD called "dev". */
  predicate KeepsInstalling(current: string, channel: string, head: string) {
    head == "dev" && (current == "" || current == "dev" || IsCrossChannel(current, channel))
  }

  lemma {:induction false} KeepsInstallingForever(current: string, channel: string, head: string, n: nat)
    requires KeepsInstalling(current, channel, head)
    ensures Installs(current, channel, head, n) == n
    decreases n
  {
    if n > 0 {
      KeepsInstallingForever("dev", channel, head, n - 1);
    }
  }

  /** From a given start, polling a fixed HEAD installs at most once exactly when it is not the case above. */
  lemma PollingConvergesExactly(current: string, channel: string, head: string)
    ensures (forall n: nat :: Installs(current, channel, head, n) <= 1) <==> !KeepsInstalling(current, channel, head)
  {
    if KeepsInstalling(current, channel, head) {
      KeepsInstallingForever(current, channel, head, 2);
      assert Installs(current, channel, head, 2) == 2;
    } else {
      CompareIsTotalPreorder(head, head, head);
      forall n: nat ensures Installs(current, channel, head, n) <= 1 {
        if n > 0 {
          assert !ShouldOffer(Poll(current, channel, head), channel, head);
          NothingMoreToInstall(Poll(current, channel, head), channel, head, n - 1);
        }
      }
    }
  }

  /** From every start it does exactly when HEAD is not "dev". */
  lemma HeadSettlesExactly(channel: string, head: string)
    ensures (forall current: string, n: nat :: Installs(current, channel, head, n) <= 1) <==> head != "dev"
  {
    if head == "dev" {
      KeepsInstallingForever("dev", channel, head, 2);
      assert Installs("dev", channel, head, 2) == 2;
    } else {
      forall current: string, n: nat ensures Installs(current, channel, head, n) <= 1 {
        PollingConvergesExactly(current, channel, head);
      }
    }
  }

  /** A history of installs, each offered on the channel the running version belongs to. */
  ghost predicate SameChannelHistory(vs: seq<string>, channel: string) {
    forall i :: 0 <= i < |vs| - 1 ==>
      && vs[i] != "" && vs[i] != "dev" && !IsCrossChannel(vs[i], channel)
      && ShouldOffer(vs[i], channel, vs[i + 1])
  }

  lemma OfferIncreases(current: string, channel: string, target: string)
    requires current != "" && current != "dev" && !IsCrossChannel(current, channel)
    requires ShouldOffer(current, channel, target)
    ensures Compare(current, target) < 0
  {
    CompareIsTotalPreorder(current, target, target);
  }

  lemma StrictlyBelow(a: string, b: string, c: string)
    requires Compare(a, b) < 0 && Compare(b, c) < 0
    ensures Compare(a, c) < 0
  {
    CompareIsTotalPreorder(a, b, c);
  }

  /** Same-channel updates strictly increase, so no version ever recurs. */
  lemma {:induction false} NoVersionRecurs(vs: seq<string>, channel: string, i: nat, j: nat)
    requires SameChannelHistory(vs, channel) && i < j < |vs|
    ensures Compare(vs[i], vs[j]) < 0 && vs[i] != vs[j]
    decreases j
  {
    OfferIncreases(vs[j - 1], channel, vs[j]);
    if i < j - 1 {
      NoVersionRecurs(vs, channel, i, j - 1);
      StrictlyBelow(vs[i], vs[j - 1], vs[j]);
    }
    NeverBelowItself(vs[i]);
  }

  lemma NeverBelowItself(a: string)
    ensures Compare(a, a) == 0
  {
    CompareIsTotalPreorder(a, a, a);
  }

  // ---- the gates ----

  datatype Gate = AlreadyRunning | RefuseDowngrade | Proceed

  /** The checks handleAdminUpdate and handleMgmtRequest make once HEAD is resolved to ver. */
  function HeadGate(current: string, channel: string, ver: string): Gate {
    if ver == current && current != "dev" then AlreadyRunning
    else if current != "dev" && !IsCrossChannel(current, channel) && !IsNewer(ver, current) then RefuseDowngrade
    else Proceed
  }

  /**
   * For a resolved HEAD the gates proceed exactly when the update would be
   * offered, unless the running version is the empty string and HEAD does not
   * sort above it.
   */
  lemma GateMatchesOfferExactly(current: string, channel: string, ver: string)
    requires ver != ""
    ensures (HeadGate(current, channel, ver).Proceed? <==> ShouldOffer(current, channel, ver))
            <==> current != "" || IsNewer(ver, current)
  {
    CompareIsTotalPreorder(ver, ver, ver);
  }

  /** A gated HEAD update never goes down on its own channel. */
  lemma GateNeverDowngrades(current: string, channel: string, ver: string)
    requires current != "dev" && !IsCrossChannel(current, channel) && HeadGate(current, channel, ver).Proceed?
    ensures Compare(current, ver) < 0
  {
    CompareIsTotalPreorder(current, ver, ver);
  }

  /** Which of the two refusals a HEAD request meets. */
  lemma GateRefusesExactly(current: string, channel: string, ver: string)
    ensures HeadGate(current, channel, ver).AlreadyRunning? <==> ver == current && current != "dev"
    ensures HeadGate(current, channel, ver).RefuseDowngrade? <==>
              && current != "dev" && ver != current && !IsCrossChannel(current, channel)
              && (ver == "dev" || Compare(current, ver) >= 0)
  {
    CompareIsTotalPreorder(current, ver, ver);
  }
}
