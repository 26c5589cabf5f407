/** How often claim conflicts are reported: once for each place where two active claims meet, in order. */
module ConflictSites {
  import opened Resources
  import opened ClaimConflicts

  /** Resource k of claim i against resource l of claim j. */
  datatype Site = Site(i: nat, j: nat, k: nat, l: nat)

  /** The place lies between two claims of different owners, the earlier one first, and its resources overlap. */
  predicate Meets(env: Env, active: seq<Claim>, s: Site) {
    && s.i < s.j < |active|
    && !SameOwner(active[s.i], active[s.j])
    && s.k < |active[s.i].resources| && s.l < |active[s.j].resources|
    && ResourceLocatorsOverlap(env, active[s.i].resources[s.k], active[s.j].resources[s.l])
  }

  function ConflictAt(active: seq<Claim>, s: Site): Conflict
    requires s.i < |active| && s.j < |active|
    requires s.k < |active[s.i].resources| && s.l < |active[s.j].resources|
  {
    ConflictOf(active[s.i], active[s.i].resources[s.k], active[s.j], active[s.j].resources[s.l])
  }

  /** The order of the four nested loops. */
  predicate Before(a: Site, b: Site) {
    a.i < b.i || (a.i == b.i && (a.j < b.j || (a.j == b.j && (a.k < b.k || (a.k == b.k && a.l < b.l)))))
  }

  ghost predicate InOrder(sites: seq<Site>) {
    forall x, y :: 0 <= x < y < |sites| ==> Before(sites[x], sites[y])
  }

  ghost predicate AllMeet(env: Env, active: seq<Claim>, sites: seq<Site>) {
    forall x :: 0 <= x < |sites| ==> Meets(env, active, sites[x])
  }

  /** The conflicts are those of the sites, one for each, in order. */
  ghost predicate Reported(env: Env, active: seq<Claim>, sites: seq<Site>, conflicts: seq<Conflict>) {
    && AllMeet(env, active, sites)
    && |conflicts| == |sites|
    && forall x :: 0 <= x < |sites| ==> conflicts[x] == ConflictAt(active, sites[x])
  }

  lemma ReportedConcat(env: Env, active: seq<Claim>, s: seq<Site>, c: seq<Conflict>, t: seq<Site>, d: seq<Conflict>)
    requires Reported(env, active, s, c) && Reported(env, active, t, d)
    ensures Reported(env, active, s + t, c + d)
  {
  }

  lemma InOrderConcat(s: seq<Site>, t: seq<Site>)
    requires InOrder(s) && InOrder(t)
    requires forall a, b :: a in s && b in t ==> Before(a, b)
    ensures InOrder(s + t)
  {
    forall x, y | 0 <= x < y < |s + t| ensures Before((s + t)[x], (s + t)[y]) {
      assert x < |s| <= y ==> s[x] in s && t[y - |s|] in t;
    }
  }

  // ---- the four loops -----------------------------------------------------------------------------------------

  function RowHead(env: Env, active: seq<Claim>, s: Site): seq<Conflict>
    requires s.i < |active| && s.j < |active|
    requires s.k < |active[s.i].resources| && s.l < |active[s.j].resources|
  {
    if ResourceLocatorsOverlap(env, active[s.i].resources[s.k], active[s.j].resources[s.l])
    then [ConflictAt(active, s)] else []
  }

  lemma RowStep(env: Env, active: seq<Claim>, s: Site, here: seq<Site>)
    requires s.i < s.j < |active| && !SameOwner(active[s.i], active[s.j])
    requires s.k < |active[s.i].resources| && s.l < |active[s.j].resources|
    requires here == if Meets(env, active, s) then [s] else []
    ensures Reported(env, active, here, RowHead(env, active, s))
    ensures var ra, b := active[s.i].resources[s.k], active[s.j];
            Row(env, active[s.i], ra, b, b.resources[s.l..])
            == RowHead(env, active, s) + Row(env, active[s.i], ra, b, b.resources[s.l + 1..])
  {
    var rest := active[s.j].resources[s.l..];
    assert rest[0] == active[s.j].resources[s.l] && rest[1..] == active[s.j].resources[s.l + 1..];
  }

  /** The sites of one row, from resource l of claim j on. */
  lemma {:induction false} RowSites(env: Env, active: seq<Claim>, i: nat, j: nat, k: nat, l: nat) returns (sites: seq<Site>)
    requires i < j < |active| && !SameOwner(active[i], active[j])
    requires k < |active[i].resources| && l <= |active[j].resources|
    ensures Reported(env, active, sites, Row(env, active[i], active[i].resources[k], active[j], active[j].resources[l..]))
    ensures InOrder(sites)
    ensures forall s :: s in sites <==> Meets(env, active, s) && s.i == i && s.j == j && s.k == k && s.l >= l
    decreases |active[j].resources| - l
  {
    var rest := active[j].resources[l..];
    if rest == [] {
      sites := [];
    } else {
      var here := if Meets(env, active, Site(i, j, k, l)) then [Site(i, j, k, l)] else [];
      var later := RowSites(env, active, i, j, k, l + 1);
      assert rest[1..] == active[j].resources[l + 1..];
      RowStep(env, active, Site(i, j, k, l), here);
      InOrderConcat(here, later);
      ReportedConcat(env, active, here, RowHead(env, active, Site(i, j, k, l)), later,
                     Row(env, active[i], active[i].resources[k], active[j], rest[1..]));
      sites := here + later;
    }
  }

  lemma {:induction false} GridSites(env: Env, active: seq<Claim>, i: nat, j: nat, k: nat) returns (sites: seq<Site>)
    requires i < j < |active| && !SameOwner(active[i], active[j]) && k <= |active[i].resources|
    ensures Reported(env, active, sites, Grid(env, active[i], active[i].resources[k..], active[j]))
    ensures InOrder(sites)
    ensures forall s :: s in sites <==> Meets(env, active, s) && s.i == i && s.j == j && s.k >= k
    decreases |active[i].resources| - k
  {
    var rest := active[i].resources[k..];
    if rest == [] {
      sites := [];
    } else {
      var row := RowSites(env, active, i, j, k, 0);
      var later := GridSites(env, active, i, j, k + 1);
      assert rest[1..] == active[i].resources[k + 1..];
      assert active[j].resources[0..] == active[j].resources;
      InOrderConcat(row, later);
      ReportedConcat(env, active, row, Row(env, active[i], rest[0], active[j], active[j].resources),
                     later, Grid(env, active[i], rest[1..], active[j]));
      sites := row + later;
    }
  }

  lemma BetweenSites(env: Env, active: seq<Claim>, i: nat, j: nat) returns (sites: seq<Site>)
    requires i < j < |active|
    ensures Reported(env, active, sites, Between(env, active[i], active[j]))
    ensures InOrder(sites)
    ensures forall s :: s in sites <==> Meets(env, active, s) && s.i == i && s.j == j
  {
    if SameOwner(active[i], active[j]) {
      sites := [];
    } else {
      sites := GridSites(env, active, i, j, 0);
      assert active[i].resources[0..] == active[i].resources;
    }
  }

  lemma {:induction false} AgainstSites(env: Env, active: seq<Claim>, i: nat, j: nat) returns (sites: seq<Site>)
    requires i < j <= |active|
    ensures Reported(env, active, sites, Against(env, active[i], active[j..]))
    ensures InOrder(sites)
    ensures forall s :: s in sites <==> Meets(env, active, s) && s.i == i && s.j >= j
    decreases |active| - j
  {
    if j == |active| {
      sites := [];
    } else {
      var here := BetweenSites(env, active, i, j);
      var later := AgainstSites(env, active, i, j + 1);
      assert active[j..][1..] == active[j + 1..];
      InOrderConcat(here, later);
      ReportedConcat(env, active, here, Between(env, active[i], active[j]), later, Against(env, active[i], active[j + 1..]));
      sites := here + later;
    }
  }

  lemma {:induction false} SitesFrom(env: Env, active: seq<Claim>, i: nat) returns (sites: seq<Site>)
    requires i <= |active|
    ensures Reported(env, active, sites, AllPairs(env, active[i..]))
    ensures InOrder(sites)
    ensures forall s :: s in sites <==> Meets(env, active, s) && s.i >= i
    decreases |active| - i
  {
    if i == |active| {
      sites := [];
    } else {
      var here := AgainstSites(env, active, i, i + 1);
      var later := SitesFrom(env, active, i + 1);
      assert active[i..][1..] == active[i + 1..];
      InOrderConcat(here, later);
      ReportedConcat(env, active, here, Against(env, active[i], active[i + 1..]), later, AllPairs(env, active[i + 1..]));
      sites := here + later;
    }
  }

  /** The sites are exactly the places where two active claims meet, each once. */
  ghost predicate ExactSites(env: Env, active: seq<Claim>, sites: seq<Site>) {
    InOrder(sites) && forall s :: s in sites <==> Meets(env, active, s)
  }

  /** Detection reports one conflict for each place where two active claims of different owners meet, none twice and
      none left out, in the order of the loops. */
  lemma ReportIsOneToOne(env: Env, claims: seq<Claim>) returns (sites: seq<Site>)
    ensures ExactSites(env, ActiveOnly(claims), sites)
    ensures Reported(env, ActiveOnly(claims), sites, AllPairs(env, ActiveOnly(claims)))
  {
    var active := ActiveOnly(claims);
    sites := SitesFrom(env, active, 0);
    assert active[0..] == active;
  }

  /** There is only one such list of sites, so the report is fixed by what meets what. */
  lemma {:induction false} SitesAreUnique(a: seq<Site>, b: seq<Site>)
    requires InOrder(a) && InOrder(b) && forall s :: s in a <==> s in b
    ensures a == b
    decreases |a|
  {
    if a == [] {
      assert forall x :: 0 <= x < |b| ==> b[x] in b;
    } else {
      assert a[0] in b;
      var y :| 0 <= y < |b| && b[y] == a[0];
      assert b[0] in a;
      var x :| 0 <= x < |a| && a[x] == b[0];
      assert a[0] == b[0];
      forall s ensures s in a[1..] <==> s in b[1..] {
        TailWithout(a, s);
        TailWithout(b, s);
      }
      SitesAreUnique(a[1..], b[1..]);
      assert a == [a[0]] + a[1..] && b == [b[0]] + b[1..];
    }
  }

  lemma TailWithout(a: seq<Site>, s: Site)
    requires a != [] && InOrder(a)
    ensures s in a[1..] <==> s in a && s != a[0]
  {
    if s in a[1..] {
      var x :| 0 <= x < |a[1..]| && a[1..][x] == s;
      assert a[x + 1] == s;
    }
    if s in a && s != a[0] {
      var x :| 0 <= x < |a| && a[x] == s;
      assert a[1..][x - 1] == s;
    }
  }
}
