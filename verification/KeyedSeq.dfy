/**
 * Lists searched and filtered by a string key: identities by ID, connect
 * grants by token, manage lists by the token itself.
 */
module KeyedSeq {
  import opened Common

  function FirstWith<T>(s: seq<T>, key: T -> string, k: string): Option<T> {
    if s == [] then None
    else if key(s[0]) == k then Some(s[0])
    else FirstWith(s[1..], key, k)
  }

  function IndexWith<T>(s: seq<T>, key: T -> string, k: string): (i: int)
    ensures -1 <= i < |s|
    ensures i >= 0 ==> key(s[i]) == k && forall j :: 0 <= j < i ==> key(s[j]) != k
    ensures i < 0 ==> forall j :: 0 <= j < |s| ==> key(s[j]) != k
  {
    if s == [] then -1
    else if key(s[0]) == k then 0
    else
      var j := IndexWith(s[1..], key, k);
      if j < 0 then -1 else j + 1
  }

  predicate Has<T>(s: seq<T>, key: T -> string, k: string) {
    IndexWith(s, key, k) >= 0
  }

  /** The order-preserving filter that drops every element with key k. */
  function Without<T>(s: seq<T>, key: T -> string, k: string): seq<T> {
    if s == [] then []
    else (if key(s[0]) == k then [] else [s[0]]) + Without(s[1..], key, k)
  }

  function Count<T>(s: seq<T>, p: T -> bool): nat {
    if s == [] then 0 else (if p(s[0]) then 1 else 0) + Count(s[1..], p)
  }

  ghost predicate Distinct<T>(s: seq<T>, key: T -> string) {
    forall i, j :: 0 <= i < j < |s| ==> key(s[i]) != key(s[j])
  }

  lemma {:induction false} WithoutSnoc<T>(s: seq<T>, x: T, key: T -> string, k: string)
    ensures Without(s + [x], key, k) == Without(s, key, k) + (if key(x) == k then [] else [x])
  {
    if s == [] {
      assert s + [x] == [x];
      assert Without([x][1..], key, k) == [];
    } else {
      assert (s + [x])[1..] == s[1..] + [x];
      WithoutSnoc(s[1..], x, key, k);
    }
  }

  /** Filtering one key out hides that key and leaves every other search alone. */
  lemma {:induction false} FirstWithWithout<T>(s: seq<T>, key: T -> string, gone: string, k: string)
    ensures FirstWith(Without(s, key, gone), key, k) == if k == gone then None else FirstWith(s, key, k)
  {
    if s == [] {
    } else {
      FirstWithWithout(s[1..], key, gone, k);
      var rest := Without(s[1..], key, gone);
      if key(s[0]) == gone {
        assert Without(s, key, gone) == rest;
      } else {
        assert ([s[0]] + rest)[1..] == rest;
      }
    }
  }

  lemma {:induction false} FirstWithAppend<T>(s: seq<T>, t: seq<T>, key: T -> string, k: string)
    ensures FirstWith(s + t, key, k) ==
            if FirstWith(s, key, k).Some? then FirstWith(s, key, k) else FirstWith(t, key, k)
  {
    if s == [] {
      assert s + t == t;
    } else {
      assert (s + t)[1..] == s[1..] + t;
      FirstWithAppend(s[1..], t, key, k);
    }
  }

  lemma {:induction false} FirstWithIsMember<T>(s: seq<T>, key: T -> string, k: string)
    ensures FirstWith(s, key, k).Some? <==> Has(s, key, k)
    ensures FirstWith(s, key, k).Some? ==> FirstWith(s, key, k).value in s && key(FirstWith(s, key, k).value) == k
  {
    if s == [] {
    } else {
      FirstWithIsMember(s[1..], key, k);
      if key(s[0]) != k && Has(s[1..], key, k) {
        var j := IndexWith(s[1..], key, k);
        assert key(s[j + 1]) == k;
      }
    }
  }

  /** What survives the filter: exactly the elements with another key. */
  lemma {:induction false} WithoutMember<T>(s: seq<T>, key: T -> string, k: string, x: T)
    ensures x in Without(s, key, k) <==> x in s && key(x) != k
  {
    if s == [] {
    } else {
      WithoutMember(s[1..], key, k, x);
      assert x in s <==> x == s[0] || x in s[1..];
    }
  }

  lemma {:induction false} WithoutDistinct<T>(s: seq<T>, key: T -> string, k: string, other: T -> string)
    requires Distinct(s, other)
    ensures Distinct(Without(s, key, k), other)
  {
    if s == [] {
    } else {
      assert Distinct(s[1..], other);
      WithoutDistinct(s[1..], key, k, other);
      var rest := Without(s[1..], key, k);
      forall j | 0 <= j < |rest| ensures other(s[0]) != other(rest[j]) {
        WithoutMember(s[1..], key, k, rest[j]);
        var i :| 0 <= i < |s[1..]| && s[1..][i] == rest[j];
        assert s[i + 1] == rest[j];
      }
    }
  }

  lemma {:induction false} CountUpdate<T>(s: seq<T>, i: nat, x: T, p: T -> bool)
    requires i < |s|
    ensures Count(s[i := x], p) == Count(s, p) - (if p(s[i]) then 1 else 0) + (if p(x) then 1 else 0)
    ensures p(s[i]) ==> Count(s, p) >= 1
  {
    if i == 0 {
      assert s[i := x][1..] == s[1..];
    } else {
      assert s[i := x][1..] == s[1..][i - 1 := x];
      CountUpdate(s[1..], i - 1, x, p);
    }
  }

  lemma {:induction false} CountAppend<T>(s: seq<T>, x: T, p: T -> bool)
    ensures Count(s + [x], p) == Count(s, p) + (if p(x) then 1 else 0)
  {
    if s == [] {
      assert (s + [x])[1..] == [];
    } else {
      assert (s + [x])[1..] == s[1..] + [x];
      CountAppend(s[1..], x, p);
    }
  }

  lemma CountPair<T>(a: T, b: T, p: T -> bool)
    ensures Count([a, b], p) == (if p(a) then 1 else 0) + (if p(b) then 1 else 0)
  {
    assert [a, b] == [] + [a] + [b];
    CountAppend([], a, p);
    CountAppend([] + [a], b, p);
  }

  lemma {:induction false} WithoutAbsent<T>(s: seq<T>, key: T -> string, k: string)
    requires !Has(s, key, k)
    ensures Without(s, key, k) == s
  {
    if s == [] {
    } else {
      assert forall j :: 0 <= j < |s[1..]| ==> s[1..][j] == s[j + 1];
      WithoutAbsent(s[1..], key, k);
    }
  }

  /** With distinct keys the filter drops one element, so it lowers a count by at most one. */
  lemma {:induction false} CountWithout<T>(s: seq<T>, key: T -> string, k: string, p: T -> bool)
    requires Distinct(s, key) && Has(s, key, k)
    ensures Count(Without(s, key, k), p) == Count(s, p) - (if p(s[IndexWith(s, key, k)]) then 1 else 0)
  {
    assert Distinct(s[1..], key);
    if key(s[0]) == k {
      assert !Has(s[1..], key, k) by {
        assert forall j :: 0 <= j < |s[1..]| ==> s[1..][j] == s[j + 1];
      }
      WithoutAbsent(s[1..], key, k);
      assert Without(s, key, k) == s[1..];
    } else {
      CountWithout(s[1..], key, k, p);
      var rest := Without(s[1..], key, k);
      assert ([s[0]] + rest)[1..] == rest;
    }
  }

  lemma {:induction false} CountPositive<T>(s: seq<T>, p: T -> bool)
    ensures Count(s, p) > 0 <==> exists i :: 0 <= i < |s| && p(s[i])
  {
    if s == [] {
    } else {
      CountPositive(s[1..], p);
      if Count(s[1..], p) > 0 {
        var j :| 0 <= j < |s[1..]| && p(s[1..][j]);
        assert p(s[j + 1]);
      }
      if i :| 0 <= i < |s| && p(s[i]) && i > 0 {
        assert p(s[1..][i - 1]);
      }
    }
  }

  /**
   * The compaction loop of removeConnectGrant, removeToken and the token-list
   * filter: survivors slide to the front of the same backing array, whose tail
   * keeps its old contents.
   */
  method CompactInPlace<T>(a: array<T>, n: nat, key: T -> string, k: string) returns (kept: nat)
    requires n <= a.Length
    modifies a
    ensures kept <= n
    ensures a[..kept] == Without(old(a[..n]), key, k)
    ensures a[kept..] == old(a[kept..])
  {
    kept := 0;
    ghost var before := a[..];
    for i := 0 to n
      invariant kept <= i
      invariant a[..kept] == Without(before[..i], key, k)
      invariant forall j :: kept <= j < a.Length ==> a[j] == before[j]
    {
      var x := a[i];
      assert before[..i + 1] == before[..i] + [x];
      WithoutSnoc(before[..i], x, key, k);
      if key(x) != k {
        a[kept] := x;
        kept := kept + 1;
      }
    }
    assert before[..n] == old(a[..n]);
  }
}
