/**
 * The per-identity version counters behind If-Match (internal/hub/access_version.go).
 * A counter is a uint64 that wraps; a missing or zero counter reads as 1.
 */
module AccessVersion {
  import opened Common

  type Counters = map<string, U64>

  /** The number of distinct versions a client can observe. */
  const CYCLE: int := TWO_64 - 1

  /** The raw map read, 0 when absent (currentAccessVersion). */
  function Raw(m: Counters, id: string): U64 {
    if id in m then m[id] else 0
  }

  /** The version a read reports and If-Match is compared with. */
  function Version(m: Counters, id: string): (v: U64)
    ensures 1 <= v
  {
    if Raw(m, id) == 0 then 1 else Raw(m, id)
  }

  function Ensured(m: Counters, id: string): Counters {
    if Raw(m, id) == 0 then m[id := 1] else m
  }

  function Bumped(m: Counters, id: string): Counters {
    m[id := (Version(m, id) + 1) % TWO_64]
  }

  function Renamed(m: Counters, oldId: string, newId: string): Counters {
    if oldId == newId then m
    else (m - {oldId})[newId := (Version(m, oldId) + 1) % TWO_64]
  }

  function Deleted(m: Counters, id: string): Counters {
    m - {id}
  }

  /** The version after v: 2^64 - 1 wraps through 0, which reads as 1. */
  function NextVersion(v: U64): (w: U64)
    requires 1 <= v
    ensures 1 <= w
  {
    if v == TWO_64 - 1 then 1 else v + 1
  }

  /** The version k bumps after v. */
  function Advance(v: U64, k: nat): (w: U64)
    requires 1 <= v
    ensures 1 <= w
  {
    if k == 0 then v else NextVersion(Advance(v, k - 1))
  }

  lemma {:induction false} AdvanceAdds(v: U64, j: nat, k: nat)
    requires 1 <= v
    ensures Advance(Advance(v, j), k) == Advance(v, j + k)
    decreases k
  {
    if k == 0 {
    } else {
      AdvanceAdds(v, j, k - 1);
    }
  }

  lemma StepAroundCycle(a: nat, w: U64)
    requires w == a % CYCLE + 1
    ensures NextVersion(w) == (a + 1) % CYCLE + 1
  {
    var q := a / CYCLE;
    assert a == q * CYCLE + a % CYCLE;
  }

  /** Bumping goes round the cycle 1 .. 2^64 - 1. */
  lemma {:induction false} AdvanceIsCyclic(v: U64, k: nat)
    requires 1 <= v
    ensures Advance(v, k) == (v - 1 + k) % CYCLE + 1
  {
    if k == 0 {
    } else {
      AdvanceIsCyclic(v, k - 1);
      StepAroundCycle(v - 1 + (k - 1), Advance(v, k - 1));
    }
  }

  lemma SameResidue(a: nat, k: nat)
    requires a < CYCLE
    ensures (a + k) % CYCLE == a <==> k % CYCLE == 0
  {
    var q, r := k / CYCLE, k % CYCLE;
    assert k == q * CYCLE + r;
    if a + r < CYCLE {
      assert a + k == q * CYCLE + (a + r);
    } else {
      assert a + k == (q + 1) * CYCLE + (a + r - CYCLE);
    }
  }

  /** Advancing returns to the same version exactly after whole cycles. */
  lemma AdvanceFixed(v: U64, k: nat)
    requires 1 <= v
    ensures Advance(v, k) == v <==> k % CYCLE == 0
    ensures Advance(v, k) == v ==> k == 0 || k >= CYCLE
  {
    AdvanceIsCyclic(v, k);
    SameResidue(v - 1, k);
  }

  /** Until the counter wraps, every bump adds one. */
  lemma {:induction false} AdvanceUntilWrap(v: U64, k: nat)
    requires 1 <= v && v + k < TWO_64
    ensures Advance(v, k) == v + k
  {
    if k == 0 {
    } else {
      AdvanceUntilWrap(v, k - 1);
    }
  }

  /** A bump is one step of the cycle, wrapping 2^64 - 1 back to 1. */
  lemma BumpAdvances(m: Counters, id: string, other: string)
    ensures Version(Bumped(m, id), id) == NextVersion(Version(m, id))
    ensures other != id ==> Version(Bumped(m, id), other) == Version(m, other)
  {
  }

  /** A read may create the counter but never changes what a later bump yields. */
  lemma EnsureIsInvisible(m: Counters, id: string, other: string)
    ensures Version(Ensured(m, id), other) == Version(m, other)
    ensures Bumped(Ensured(m, id), id) == Bumped(m, id)
  {
    assert Bumped(Ensured(m, id), id) == Bumped(m, id);
  }

  /** A rename carries the counter over, bumps it once, and frees the old name. */
  lemma RenameCarries(m: Counters, oldId: string, newId: string, other: string)
    requires oldId != newId
    ensures Version(Renamed(m, oldId, newId), newId) == NextVersion(Version(m, oldId))
    ensures Raw(Renamed(m, oldId, newId), oldId) == 0
    ensures other !in {oldId, newId} ==> Raw(Renamed(m, oldId, newId), other) == Raw(m, other)
  {
  }

  /** The package-level counter map and its mutex-protected operations. */
  class AccessVersions {
    var counters: Counters

    constructor ()
      ensures counters == map[]
    {
      counters := map[];
    }

    method Current(id: string) returns (v: U64)
      ensures v == Raw(counters, id)
    {
      v := if id in counters then counters[id] else 0;
    }

    method Ensure(id: string) returns (v: U64)
      modifies this
      ensures counters == Ensured(old(counters), id)
      ensures v == Version(old(counters), id)
    {
      v := Current(id);
      if v == 0 {
        v := 1;
        counters := counters[id := v];
      }
    }

    method Bump(id: string) returns (v: U64)
      modifies this
      ensures counters == Bumped(old(counters), id)
      ensures v == Raw(counters, id)
    {
      v := Current(id);
      if v == 0 {
        v := 1;
      }
      v := (v + 1) % TWO_64;
      counters := counters[id := v];
    }

    method Rename(oldId: string, newId: string)
      modifies this
      ensures counters == Renamed(old(counters), oldId, newId)
    {
      if oldId == newId {
        return;
      }
      var v := Current(oldId);
      counters := counters - {oldId};
      if v == 0 {
        v := 1;
      }
      v := (v + 1) % TWO_64;
      counters := counters[newId := v];
    }

    method Delete(id: string)
      modifies this
      ensures counters == Deleted(old(counters), id)
    {
      counters := counters - {id};
    }
  }
}
