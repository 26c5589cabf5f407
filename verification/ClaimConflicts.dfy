/** Conflicts between active claims. */
module ClaimConflicts {
  import opened Text
  import opened Filters
  import opened Resources

  datatype Conflict = Conflict(overlappingLocator: string, resourceType: string, claimA: Claim, claimB: Claim,
                               isHardConflict: bool)

  const ARROW := " \U{2194} "

  function ConflictOf(a: Claim, ra: ResourceRef, b: Claim, rb: ResourceRef): Conflict {
    Conflict(ra.locator + ARROW + rb.locator, ra.rtype, a, b, a.mode.EXCLUSIVE? || b.mode.EXCLUSIVE?)
  }

  function ActiveOnly(claims: seq<Claim>): seq<Claim> {
    Filter(claims, (c: Claim) => c.status.ACTIVE?)
  }

  function Row(env: Env, a: Claim, ra: ResourceRef, b: Claim, rbs: seq<ResourceRef>): seq<Conflict> {
    if rbs == [] then []
    else if ResourceLocatorsOverlap(env, ra, rbs[0]) then [ConflictOf(a, ra, b, rbs[0])] + Row(env, a, ra, b, rbs[1..])
    else Row(env, a, ra, b, rbs[1..])
  }

  function Grid(env: Env, a: Claim, ras: seq<ResourceRef>, b: Claim): seq<Conflict> {
    if ras == [] then [] else Row(env, a, ras[0], b, b.resources) + Grid(env, a, ras[1..], b)
  }

  predicate SameOwner(a: Claim, b: Claim) {
    a.actorId == b.actorId && a.taskId == b.taskId
  }

  function Between(env: Env, a: Claim, b: Claim): seq<Conflict> {
    if SameOwner(a, b) then [] else Grid(env, a, a.resources, b)
  }

  function Against(env: Env, a: Claim, rest: seq<Claim>): seq<Conflict> {
    if rest == [] then [] else Between(env, a, rest[0]) + Against(env, a, rest[1..])
  }

  function AllPairs(env: Env, active: seq<Claim>): seq<Conflict> {
    if active == [] then [] else Against(env, active[0], active[1..]) + AllPairs(env, active[1..])
  }

  method DetectBetween(env: Env, a: Claim, b: Claim) returns (conflicts: seq<Conflict>)
    ensures conflicts == Grid(env, a, a.resources, b)
  {
    conflicts := [];
    for k := 0 to |a.resources|
      invariant conflicts + Grid(env, a, a.resources[k..], b) == Grid(env, a, a.resources, b)
    {
      var ra := a.resources[k];
      assert a.resources[k..][1..] == a.resources[k + 1..];
      ghost var before, rest := conflicts, Grid(env, a, a.resources[k + 1..], b);
      for l := 0 to |b.resources|
        invariant conflicts + Row(env, a, ra, b, b.resources[l..]) == before + Row(env, a, ra, b, b.resources)
      {
        var rb := b.resources[l];
        assert b.resources[l..][1..] == b.resources[l + 1..];
        if ResourceLocatorsOverlap(env, ra, rb) {
          Regroup(conflicts, ConflictOf(a, ra, b, rb), Row(env, a, ra, b, b.resources[l + 1..]));
          conflicts := conflicts + [ConflictOf(a, ra, b, rb)];
        }
      }
      Assoc(before, Row(env, a, ra, b, b.resources), rest);
    }
  }

  method DetectAgainst(env: Env, a: Claim, rest: seq<Claim>) returns (conflicts: seq<Conflict>)
    ensures conflicts == Against(env, a, rest)
  {
    conflicts := [];
    for j := 0 to |rest|
      invariant conflicts + Against(env, a, rest[j..]) == Against(env, a, rest)
    {
      var b := rest[j];
      assert rest[j..][1..] == rest[j + 1..];
      if SameOwner(a, b) {
        continue;
      }
      var found := DetectBetween(env, a, b);
      Assoc(conflicts, found, Against(env, a, rest[j + 1..]));
      conflicts := conflicts + found;
    }
  }

  method DetectResourceClaimConflicts(env: Env, claims: seq<Claim>) returns (conflicts: seq<Conflict>)
    ensures conflicts == AllPairs(env, ActiveOnly(claims))
  {
    var active := ActiveOnly(claims);
    conflicts := [];
    for i := 0 to |active|
      invariant conflicts + AllPairs(env, active[i..]) == AllPairs(env, active)
    {
      assert active[i..][1..] == active[i + 1..];
      var found := DetectAgainst(env, active[i], active[i + 1..]);
      Assoc(conflicts, found, AllPairs(env, active[i + 1..]));
      conflicts := conflicts + found;
    }
  }

  // ---- what is reported -----------------------------------------------------------------------------------

  /** c reports resource k of a against resource l of b. */
  ghost predicate Reports(env: Env, c: Conflict, a: Claim, b: Claim, k: nat, l: nat) {
    && k < |a.resources| && l < |b.resources|
    && ResourceLocatorsOverlap(env, a.resources[k], b.resources[l])
    && c == ConflictOf(a, a.resources[k], b, b.resources[l])
  }

  lemma {:induction false} InRow(env: Env, a: Claim, ra: ResourceRef, b: Claim, rbs: seq<ResourceRef>, c: Conflict)
    ensures c in Row(env, a, ra, b, rbs)
            <==> exists l :: 0 <= l < |rbs| && ResourceLocatorsOverlap(env, ra, rbs[l]) && c == ConflictOf(a, ra, b, rbs[l])
    decreases |rbs|
  {
    if rbs != [] {
      InRow(env, a, ra, b, rbs[1..], c);
      if c in Row(env, a, ra, b, rbs[1..]) {
        var l :| 0 <= l < |rbs[1..]| && ResourceLocatorsOverlap(env, ra, rbs[1..][l]) && c == ConflictOf(a, ra, b, rbs[1..][l]);
        assert rbs[1..][l] == rbs[l + 1];
      }
    }
  }

  lemma {:induction false} InGrid(env: Env, a: Claim, ras: seq<ResourceRef>, b: Claim, c: Conflict)
    ensures c in Grid(env, a, ras, b) <==> exists k :: 0 <= k < |ras| && c in Row(env, a, ras[k], b, b.resources)
    decreases |ras|
  {
    if ras != [] {
      InGrid(env, a, ras[1..], b, c);
      assert forall k :: 0 <= k < |ras[1..]| ==> ras[1..][k] == ras[k + 1];
      if c in Grid(env, a, ras[1..], b) {
        var k :| 0 <= k < |ras[1..]| && c in Row(env, a, ras[1..][k], b, b.resources);
        assert c in Row(env, a, ras[k + 1], b, b.resources);
      }
    }
  }

  /** A conflict is reported of two claims exactly when they have different owners and it stands for an overlapping pair
      of their resources; how often it is reported is the matter of ConflictSites. */
  lemma InBetween(env: Env, a: Claim, b: Claim, c: Conflict)
    ensures c in Between(env, a, b) <==> !SameOwner(a, b) && exists k: nat, l: nat :: Reports(env, c, a, b, k, l)
  {
    InGrid(env, a, a.resources, b, c);
    forall k | 0 <= k < |a.resources| {
      InRow(env, a, a.resources[k], b, b.resources, c);
    }
    if c in Grid(env, a, a.resources, b) {
      var k :| 0 <= k < |a.resources| && c in Row(env, a, a.resources[k], b, b.resources);
      var l :| 0 <= l < |b.resources| && ResourceLocatorsOverlap(env, a.resources[k], b.resources[l])
               && c == ConflictOf(a, a.resources[k], b, b.resources[l]);
      assert Reports(env, c, a, b, k, l);
    }
  }

  lemma {:induction false} InAgainst(env: Env, a: Claim, rest: seq<Claim>, c: Conflict)
    ensures c in Against(env, a, rest) <==> exists j :: 0 <= j < |rest| && c in Between(env, a, rest[j])
    decreases |rest|
  {
    if rest != [] {
      InAgainst(env, a, rest[1..], c);
      assert forall j :: 0 <= j < |rest[1..]| ==> rest[1..][j] == rest[j + 1];
      if c in Against(env, a, rest[1..]) {
        var j :| 0 <= j < |rest[1..]| && c in Between(env, a, rest[1..][j]);
        assert c in Between(env, a, rest[j + 1]);
      }
    }
  }

  /** c lies between claim i and claim j. */
  ghost predicate LiesBetween(env: Env, active: seq<Claim>, c: Conflict, i: int, j: int) {
    0 <= i < j < |active| && c in Between(env, active[i], active[j])
  }

  /** A conflict is reported exactly when it lies between two active claims, the earlier one first. */
  lemma {:induction false} InAllPairs(env: Env, active: seq<Claim>, c: Conflict)
    ensures c in AllPairs(env, active) <==> exists i, j :: LiesBetween(env, active, c, i, j)
    decreases |active|
  {
    if active != [] {
      var tail := active[1..];
      InAllPairs(env, tail, c);
      InAgainst(env, active[0], tail, c);
      if c in AllPairs(env, tail) {
        var i, j :| LiesBetween(env, tail, c, i, j);
        assert LiesBetween(env, active, c, i + 1, j + 1);
      }
      if c in Against(env, active[0], tail) {
        var j :| 0 <= j < |tail| && c in Between(env, active[0], tail[j]);
        assert LiesBetween(env, active, c, 0, j + 1);
      }
      if i, j :| LiesBetween(env, active, c, i, j) {
        assert active[j] == tail[j - 1];
        if i > 0 {
          assert LiesBetween(env, tail, c, i - 1, j - 1);
        }
      }
    }
  }

  /** Two claims can be held together: same owner, or no resource of one overlaps a resource of the other. */
  ghost predicate Compatible(env: Env, a: Claim, b: Claim) {
    SameOwner(a, b)
    || forall k, l :: 0 <= k < |a.resources| && 0 <= l < |b.resources| ==>
         !ResourceLocatorsOverlap(env, a.resources[k], b.resources[l])
  }

  lemma BetweenEmptyExact(env: Env, a: Claim, b: Claim)
    ensures Between(env, a, b) == [] <==> Compatible(env, a, b)
  {
    if Between(env, a, b) != [] {
      var c := Between(env, a, b)[0];
      InBetween(env, a, b, c);
      var k: nat, l: nat :| Reports(env, c, a, b, k, l);
    } else if !Compatible(env, a, b) {
      var k, l :| 0 <= k < |a.resources| && 0 <= l < |b.resources|
                  && ResourceLocatorsOverlap(env, a.resources[k], b.resources[l]);
      var c := ConflictOf(a, a.resources[k], b, b.resources[l]);
      assert Reports(env, c, a, b, k, l);
      InBetween(env, a, b, c);
    }
  }

  /** No conflict is reported exactly when the active claims are pairwise compatible. */
  lemma NoConflictExact(env: Env, claims: seq<Claim>)
    ensures var active := ActiveOnly(claims);
            AllPairs(env, active) == [] <==> forall i, j :: 0 <= i < j < |active| ==> Compatible(env, active[i], active[j])
  {
    var active := ActiveOnly(claims);
    forall i, j | 0 <= i < j < |active| {
      BetweenEmptyExact(env, active[i], active[j]);
    }
    if AllPairs(env, active) != [] {
      var c := AllPairs(env, active)[0];
      InAllPairs(env, active, c);
      var i, j :| LiesBetween(env, active, c, i, j);
      assert !Compatible(env, active[i], active[j]);
    } else {
      forall i, j | 0 <= i < j < |active| ensures Compatible(env, active[i], active[j]) {
        if Between(env, active[i], active[j]) != [] {
          assert LiesBetween(env, active, Between(env, active[i], active[j])[0], i, j);
          InAllPairs(env, active, Between(env, active[i], active[j])[0]);
        }
      }
    }
  }

  /** The conflicts of a list of claims with one more claim. */
  function With(env: Env, active: seq<Claim>, c: Claim): seq<Conflict> {
    if active == [] then [] else Between(env, active[0], c) + With(env, active[1..], c)
  }

  lemma {:induction false} AgainstSnoc(env: Env, a: Claim, rest: seq<Claim>, c: Claim)
    ensures Against(env, a, rest + [c]) == Against(env, a, rest) + Between(env, a, c)
    decreases |rest|
  {
    if rest == [] {
      assert rest + [c] == [c];
      assert Against(env, a, [c]) == Between(env, a, c) + Against(env, a, [c][1..]);
    } else {
      AgainstSnoc(env, a, rest[1..], c);
      assert (rest + [c])[1..] == rest[1..] + [c];
      Assoc(Between(env, a, rest[0]), Against(env, a, rest[1..]), Between(env, a, c));
    }
  }

  /** One more active claim adds exactly its own conflicts; the others stay as they were. */
  lemma {:induction false} NewClaimAddsItsConflicts(env: Env, active: seq<Claim>, c: Claim)
    ensures multiset(AllPairs(env, active + [c])) == multiset(AllPairs(env, active)) + multiset(With(env, active, c))
    decreases |active|
  {
    if active == [] {
      assert active + [c] == [c];
      assert AllPairs(env, [c]) == Against(env, c, [c][1..]) + AllPairs(env, [c][1..]);
    } else {
      NewClaimAddsItsConflicts(env, active[1..], c);
      assert (active + [c])[1..] == active[1..] + [c];
      AgainstSnoc(env, active[0], active[1..], c);
    }
  }
}
