/** Attribution decorators: UUID claims composed on a target, one decorator after the other. */
module Decorators {
  import opened Prelude
  import opened Ordering
  import opened Grouping

  datatype Relationship = Implements | Enforces | Embodies

  /** A declared claim; its confidence is always the same. */
  datatype Claim = Claim(relationship: Relationship, target: string)

  datatype Decoration = Decoration(relationship: Relationship, targets: seq<string>)

  function Rank(r: Relationship): nat {
    match r
    case Implements => 0
    case Enforces => 1
    case Embodies => 2
  }

  predicate ClaimLe(x: Claim, y: Claim) {
    Rank(x.relationship) < Rank(y.relationship)
    || (Rank(x.relationship) == Rank(y.relationship) && StringLe(x.target, y.target))
  }

  lemma ClaimOrder()
    ensures Preorder(ClaimLe)
    ensures forall s: multiset<Claim> :: Separates(ClaimLe, s)
  {
    forall x: Claim, y: Claim ensures ClaimLe(x, y) || ClaimLe(y, x) {
      StringLeTotal(x.target, y.target);
    }
    forall x: Claim, y: Claim, z: Claim | ClaimLe(x, y) && ClaimLe(y, z) ensures ClaimLe(x, z) {
      if Rank(x.relationship) == Rank(z.relationship) {
        StringLeTransitive(x.target, y.target, z.target);
      }
    }
    forall x: Claim, y: Claim | ClaimLe(x, y) && ClaimLe(y, x) ensures x == y {
      StringLeAntisymmetric(x.target, y.target);
    }
  }

  function ClaimsOf(d: Decoration): seq<Claim> {
    Map(t => Claim(d.relationship, t), d.targets)
  }

  /* ---------- normalization ---------- */

  datatype Fault = NoIdentifiers | EmptyIdentifier | NotAUuid(id: string) | RepeatedIdentifier

  /** What is wrong with identifier `i`, given the ones before it. */
  function FaultAt(ids: seq<string>, i: nat, isUuid: string -> bool): Option<Fault>
    requires i < |ids|
  {
    if ids[i] == "" then Some(EmptyIdentifier)
    else if !isUuid(ids[i]) then Some(NotAUuid(ids[i]))
    else if ids[i] in ids[..i] then Some(RepeatedIdentifier)
    else None
  }

  /**
   * Accepts some identifiers, each a UUID once stripped of white space, none twice; reports the first
   * fault otherwise.
   */
  method NormalizeUuids(values: seq<string>, strip: string -> string, isUuid: string -> bool)
    returns (r: Result<seq<string>, Fault>)
    ensures r.Ok? <==> values != [] && DistinctBy((id: string) => id, Map(strip, values))
                       && forall id :: id in Map(strip, values) ==> id != "" && isUuid(id)
    ensures r.Ok? ==> r.value == Map(strip, values)
    ensures r == Err(NoIdentifiers) <==> values == []
    ensures r.Err? && values != [] ==>
              exists i: nat :: i < |values| && FaultAt(Map(strip, values), i, isUuid) == Some(r.error)
                               && forall j: nat :: j < i ==> FaultAt(Map(strip, values), j, isUuid).None?
  {
    if values == [] {
      return Err(NoIdentifiers);
    }
    ghost var ids := Map(strip, values);
    var normalized: seq<string> := [];
    var seen: set<string> := {};
    for i := 0 to |values|
      invariant normalized == ids[..i]
      invariant forall id :: id in seen <==> id in ids[..i]
      invariant forall j: nat :: j < i ==> FaultAt(ids, j, isUuid).None?
    {
      var id := strip(values[i]);
      if id == "" {
        FaultRefuses(ids, i, isUuid);
        return Err(EmptyIdentifier);
      }
      if !isUuid(id) {
        FaultRefuses(ids, i, isUuid);
        return Err(NotAUuid(id));
      }
      if id in seen {
        FaultRefuses(ids, i, isUuid);
        return Err(RepeatedIdentifier);
      }
      seen := seen + {id};
      normalized := normalized + [id];
    }
    NoFaultAccepts(ids, isUuid);
    return Ok(normalized);
  }

  lemma FaultRefuses(ids: seq<string>, i: nat, isUuid: string -> bool)
    requires i < |ids| && FaultAt(ids, i, isUuid).Some?
    ensures !DistinctBy((id: string) => id, ids) || !(forall id :: id in ids ==> id != "" && isUuid(id))
  {
    assert ids[i] in ids;
    if ids[i] in ids[..i] {
      var j :| 0 <= j < i && ids[..i][j] == ids[i];
      assert ((id: string) => id)(ids[j]) == ((id: string) => id)(ids[i]);
    }
  }

  lemma NoFaultAccepts(ids: seq<string>, isUuid: string -> bool)
    requires forall j: nat :: j < |ids| ==> FaultAt(ids, j, isUuid).None?
    ensures DistinctBy((id: string) => id, ids) && forall id :: id in ids ==> id != "" && isUuid(id)
  {
    forall i, j | 0 <= i < j < |ids| ensures ids[i] != ids[j] {
      assert ids[..j][i] == ids[i];
      assert FaultAt(ids, j, isUuid).None?;
    }
    forall id | id in ids ensures id != "" && isUuid(id) {
      var j :| 0 <= j < |ids| && ids[j] == id;
      assert FaultAt(ids, j, isUuid).None?;
    }
  }

  /* ---------- one decorator ---------- */

  ghost predicate Repeats(existing: seq<Claim>, d: Decoration) {
    exists c :: c in existing && c in ClaimsOf(d)
  }

  /** The claims after a decorator; `None` when it repeats one. */
  ghost function Compose(existing: seq<Claim>, d: Decoration): Option<seq<Claim>> {
    if Repeats(existing, d) then None else Some(Sort(ClaimLe, existing + ClaimsOf(d)))
  }

  /** A decorated function or class. */
  class Target {
    var claims: seq<Claim>

    constructor ()
      ensures claims == []
    {
      claims := [];
    }

    /** Composes the claims of a decorator, or leaves the target alone and names the least repeated claim. */
    method Decorate(d: Decoration) returns (repeated: Option<Claim>)
      modifies this
      ensures repeated.None? ==> Compose(old(claims), d) == Some(claims)
      ensures repeated.Some? ==> Compose(old(claims), d) == None && claims == old(claims)
      ensures repeated.Some? ==> repeated.value in claims && repeated.value in ClaimsOf(d)
      ensures repeated.Some? ==> forall c :: c in claims && c in ClaimsOf(d) ==> ClaimLe(repeated.value, c)
    {
      repeated := LeastRepeated(claims, d);
      if repeated.Some? {
        return;
      }
      var composed := claims;
      for i := 0 to |d.targets|
        invariant composed == claims + ClaimsOf(d)[..i] && claims == old(claims)
      {
        composed := composed + [Claim(d.relationship, d.targets[i])];
      }
      assert ClaimsOf(d)[..|d.targets|] == ClaimsOf(d);
      claims := Sort(ClaimLe, composed);
    }
  }

  method LeastRepeated(existing: seq<Claim>, d: Decoration) returns (repeated: Option<Claim>)
    ensures repeated.Some? <==> Repeats(existing, d)
    ensures repeated.Some? ==> repeated.value in existing && repeated.value in ClaimsOf(d)
    ensures repeated.Some? ==> forall c :: c in existing && c in ClaimsOf(d) ==> ClaimLe(repeated.value, c)
  {
    ClaimOrder();
    repeated := None;
    var incoming := ClaimsOf(d);
    for i := 0 to |incoming|
      invariant repeated.None? ==> forall j :: 0 <= j < i ==> incoming[j] !in existing
      invariant repeated.Some? ==> repeated.value in existing && repeated.value in incoming
      invariant repeated.Some? ==> forall j :: 0 <= j < i && incoming[j] in existing ==> ClaimLe(repeated.value, incoming[j])
    {
      if incoming[i] in existing && (repeated.None? || ClaimLe(incoming[i], repeated.value)) {
        repeated := Some(incoming[i]);
      }
    }
  }

  /* ---------- whole runs ---------- */

  /** The claims after all decorators; `None` from the first repetition on. */
  ghost function Run(ds: seq<Decoration>): Option<seq<Claim>> {
    if ds == [] then Some([]) else
    match Run(ds[..|ds| - 1])
    case None => None
    case Some(claims) => Compose(claims, ds[|ds| - 1])
  }

  function Itself(c: Claim): Claim { c }

  /** The identifiers of each decorator are distinct, as normalization makes sure. */
  ghost predicate Normal(ds: seq<Decoration>) {
    forall d :: d in ds ==> DistinctBy(Itself, ClaimsOf(d))
  }

  lemma DistinctConcat(s: seq<Claim>, t: seq<Claim>)
    requires DistinctBy(Itself, t)
    ensures DistinctBy(Itself, s + t) <==> DistinctBy(Itself, s) && forall c :: c in t ==> c !in s
  {
    var all := s + t;
    assert forall i :: 0 <= i < |s| ==> all[i] == s[i];
    assert forall i :: 0 <= i < |t| ==> all[|s| + i] == t[i];
    if DistinctBy(Itself, all) {
      assert DistinctBy(Itself, s);
      forall c | c in t ensures c !in s {
        var j :| 0 <= j < |t| && t[j] == c;
        forall i | 0 <= i < |s| ensures s[i] != c {
          assert Itself(all[i]) != Itself(all[|s| + j]);
        }
      }
    }
    if DistinctBy(Itself, s) && forall c :: c in t ==> c !in s {
      forall i, j | 0 <= i < j < |all| ensures Itself(all[i]) != Itself(all[j]) {
        if j < |s| {
          assert Itself(s[i]) != Itself(s[j]);
        } else if i >= |s| {
          assert Itself(t[i - |s|]) != Itself(t[j - |s|]);
        } else {
          assert all[i] in s && all[j] in t;
        }
      }
    }
  }

  /**
   * A run of decorators, exactly: it fails if and only if some claim is made twice; otherwise it ends in
   * all the claims made, sorted by rank and target.
   */
  lemma {:induction false} RunMeans(ds: seq<Decoration>)
    requires Normal(ds)
    ensures Run(ds).Some? <==> DistinctBy(Itself, Gather(ClaimsOf, ds))
    ensures Run(ds).Some? ==> Run(ds).value == Sort(ClaimLe, Gather(ClaimsOf, ds))
  {
    if ds != [] {
      hide ClaimsOf, ClaimLe, Sort, DistinctBy;
      var init, d := ds[..|ds| - 1], ds[|ds| - 1];
      assert d in ds && forall x :: x in init ==> x in ds;
      RunMeans(init);
      var made := Gather(ClaimsOf, init);
      DistinctConcat(made, ClaimsOf(d));
      if Run(init).Some? {
        ComposeSorted(made, d);
      }
    }
  }

  /** Composing with sorted claims is composing with the claims in any order. */
  lemma ComposeSorted(made: seq<Claim>, d: Decoration)
    ensures Repeats(Sort(ClaimLe, made), d) <==> Repeats(made, d)
    ensures Sort(ClaimLe, Sort(ClaimLe, made) + ClaimsOf(d)) == Sort(ClaimLe, made + ClaimsOf(d))
  {
    hide ClaimsOf, ClaimLe;
    var claims := Sort(ClaimLe, made);
    forall c ensures c in claims <==> c in made {
      SameMembers(claims, made, c);
    }
    ClaimOrder();
    SortPermutation(ClaimLe, claims + ClaimsOf(d), made + ClaimsOf(d));
  }

  /** After every run the claims are sorted, pairwise distinct, and those that the decorators made. */
  lemma RunKeepsOrder(ds: seq<Decoration>)
    requires Normal(ds) && Run(ds).Some?
    ensures Sorted(ClaimLe, Run(ds).value) && DistinctBy(Itself, Run(ds).value)
    ensures multiset(Run(ds).value) == multiset(Gather(ClaimsOf, ds))
  {
    RunMeans(ds);
    ClaimOrder();
    SortSorted(ClaimLe, Gather(ClaimsOf, ds));
    DistinctByPermuted(Itself, Gather(ClaimsOf, ds), Run(ds).value);
  }

  /** Every order of the same decorators ends the same way: in the same claims, or in a failure. */
  lemma RunForgetsOrder(ds: seq<Decoration>, es: seq<Decoration>)
    requires Normal(ds) && multiset(ds) == multiset(es)
    ensures Normal(es) && Run(ds) == Run(es)
  {
    forall d ensures d in ds <==> d in es {
      SameMembers(ds, es, d);
    }
    RunMeans(ds);
    RunMeans(es);
    ClaimOrder();
    var all, other := Gather(ClaimsOf, ds), Gather(ClaimsOf, es);
    GatherPermuted(ClaimsOf, ds, es);
    SortPermutation(ClaimLe, all, other);
    if DistinctBy(Itself, all) {
      DistinctByPermuted(Itself, all, other);
    }
    if DistinctBy(Itself, other) {
      DistinctByPermuted(Itself, other, all);
    }
  }

  /** implements before enforces before embodies, and within one relationship by target. */
  ghost predicate Before(x: Claim, y: Claim) {
    (x.relationship == Implements && y.relationship != Implements)
    || (x.relationship == Enforces && y.relationship == Embodies)
    || (x.relationship == y.relationship && x.target != y.target && StringLe(x.target, y.target))
  }

  /** Every claim that a decorator of the run makes: its relationship with each of its targets. */
  ghost predicate Made(ds: seq<Decoration>, c: Claim) {
    exists d :: d in ds && d.relationship == c.relationship && c.target in d.targets
  }

  /** The claims at the end of a run, exactly: those that its decorators make, each once and in order. */
  lemma RunShows(ds: seq<Decoration>)
    requires Normal(ds) && Run(ds).Some?
    ensures var claims := Run(ds).value;
            && (forall c :: c in claims <==> Made(ds, c))
            && forall i, j :: 0 <= i < j < |claims| ==> Before(claims[i], claims[j])
  {
    RunKeepsOrder(ds);
    var claims := Run(ds).value;
    hide Run, Sorted, StringLe;
    forall c ensures c in claims <==> Made(ds, c) {
      SameMembers(claims, Gather(ClaimsOf, ds), c);
      GatherMembers(ClaimsOf, ds, c);
      forall d ensures c in ClaimsOf(d) <==> d.relationship == c.relationship && c.target in d.targets {
        ClaimsMean(d, c);
      }
    }
    forall i, j | 0 <= i < j < |claims| ensures Before(claims[i], claims[j]) {
      SortedClaims(claims, i, j);
      assert Itself(claims[i]) != Itself(claims[j]);
    }
  }

  lemma ClaimsMean(d: Decoration, c: Claim)
    ensures c in ClaimsOf(d) <==> d.relationship == c.relationship && c.target in d.targets
  {
    if d.relationship == c.relationship && c.target in d.targets {
      var i :| 0 <= i < |d.targets| && d.targets[i] == c.target;
      assert ClaimsOf(d)[i] == c;
    }
  }

  lemma SortedClaims(claims: seq<Claim>, i: nat, j: nat)
    requires Sorted(ClaimLe, claims) && i < j < |claims|
    ensures ClaimLe(claims[i], claims[j])
  {
  }
}
