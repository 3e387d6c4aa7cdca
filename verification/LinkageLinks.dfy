/**
 * The links of runs that succeed in every order of the records: exactly when they are the same in every
 * order, and a condition on the joined keys that is enough.
 */
module LinkageLinks {
  import opened Prelude
  import opened Ordering
  import opened Strings
  import opened StableMerge
  import opened Grouping
  import opened Linkage
  import opened LinkageLaws
  import opened LinkageSuccess
  import opened LinkageSoundness
  import opened LinkageOrder

  /* ---------- claims that stand in one group ---------- */

  function GroupKeyOf(c: Claim): string {
    c.GroupKey()
  }

  function EvidenceOfClaim(c: Claim): Occurrence {
    c.Evidence()
  }

  lemma EvidencePreorder(json: Json -> string)
    ensures Preorder(EvidenceLe(json))
  {
    var le := EvidenceLe(json);
    forall x, y ensures le(x, y) || le(y, x) {
      StringLeTotal(OccurrenceKey(json, x), OccurrenceKey(json, y));
    }
    forall x, y, z | le(x, y) && le(y, z) ensures le(x, z) {
      StringLeTransitive(OccurrenceKey(json, x), OccurrenceKey(json, y), OccurrenceKey(json, z));
    }
  }

  lemma SameIdentitySameClaim(json: Json -> string, claims: seq<Claim>, c: Claim, d: Claim)
    requires DistinctBy(IdentityBy(json), claims) && c in claims && d in claims && c.Identity(json) == d.Identity(json)
    ensures c == d
  {
    var i :| 0 <= i < |claims| && claims[i] == c;
    var j :| 0 <= j < |claims| && claims[j] == d;
    assert IdentityBy(json)(c) == IdentityBy(json)(d);
  }

  function EntityOf(ctx: Context, c: Claim): Fields {
    if c.Target() in ctx.entities then ctx.entities[c.Target()] else map[]
  }

  /** What a link takes from the first claim of its group, besides the key. */
  datatype Face = Face(implementationType: string, targetType: string, aliasId: string, aliasName: string, lifecycle: string)

  function FaceOf(ctx: Context, c: Claim): Face {
    var entity := EntityOf(ctx, c);
    Face(c.ImplementationType(), Text(entity, "entity_type"), Text(entity, "alias_id"), Text(entity, "alias_name"),
      Text(entity, "lifecycle_stage"))
  }

  /** Either claim can come first: they describe the link alike, and evidence with one sort key is the same. */
  ghost predicate Compatible(ctx: Context, c: Claim, d: Claim) {
    FaceOf(ctx, c) == FaceOf(ctx, d) && SameKeySameEvidence(ctx.json, c, d)
  }

  ghost predicate SameKeySameEvidence(json: Json -> string, c: Claim, d: Claim) {
    OccurrenceKey(json, c.Evidence()) == OccurrenceKey(json, d.Evidence()) ==> c.Evidence() == d.Evidence()
  }

  ghost predicate AllCompatible(ctx: Context, claims: seq<Claim>) {
    forall c, d :: c in claims && d in claims && c.GroupKey() == d.GroupKey() ==> Compatible(ctx, c, d)
  }

  /** Any two claims of the records that stand in one group are compatible. */
  ghost predicate Unambiguous(ctx: Context, records: seq<Json>) {
    AllCompatible(ctx, AllClaims(records))
  }

  lemma EvidenceSeparates(ctx: Context, claims: seq<Claim>, k: string)
    requires AllCompatible(ctx, claims)
    ensures Separates(EvidenceLe(ctx.json), multiset(Map(EvidenceOfClaim, Having(GroupKeyOf, k, claims))))
  {
    hide OccurrenceKey, FaceOf;
    var group := Having(GroupKeyOf, k, claims);
    var evidence := Map(EvidenceOfClaim, group);
    forall x, y | x in multiset(evidence) && y in multiset(evidence) && EvidenceLe(ctx.json)(x, y) && EvidenceLe(ctx.json)(y, x)
      ensures x == y
    {
      assert x in evidence && y in evidence;
      var i :| 0 <= i < |group| && evidence[i] == x;
      var j :| 0 <= j < |group| && evidence[j] == y;
      StringLeAntisymmetric(OccurrenceKey(ctx.json, x), OccurrenceKey(ctx.json, y));
      HavingMembers(GroupKeyOf, k, claims, group[i]);
      HavingMembers(GroupKeyOf, k, claims, group[j]);
      assert Compatible(ctx, group[i], group[j]);
    }
  }

  /** The sorted evidence of a group does not depend on the order of the claims. */
  lemma SortedEvidencePermuted(ctx: Context, s: seq<Claim>, t: seq<Claim>, k: string)
    requires AllCompatible(ctx, s) && multiset(s) == multiset(t)
    ensures Sort(EvidenceLe(ctx.json), Map(EvidenceOfClaim, Having(GroupKeyOf, k, s)))
         == Sort(EvidenceLe(ctx.json), Map(EvidenceOfClaim, Having(GroupKeyOf, k, t)))
  {
    EvidencePreorder(ctx.json);
    EvidenceSeparates(ctx, s, k);
    HavingPermuted(GroupKeyOf, k, s, t);
    MapPermuted(EvidenceOfClaim, Having(GroupKeyOf, k, s), Having(GroupKeyOf, k, t));
    SortPermutation(EvidenceLe(ctx.json), Map(EvidenceOfClaim, Having(GroupKeyOf, k, s)),
      Map(EvidenceOfClaim, Having(GroupKeyOf, k, t)));
  }

  /* ---------- groups of a successful run ---------- */

  ghost predicate LastingClaims(ctx: Context, claims: seq<Claim>) {
    forall c :: c in claims ==> !(c.Target() in ctx.entities && Fading(ctx.entities[c.Target()]))
  }

  /** A group as its claims describe it. */
  ghost predicate Describes(ctx: Context, claims: seq<Claim>, group: Group) {
    claims != []
    && group.occurrences == Map(EvidenceOfClaim, claims)
    && claims[0].Target() in ctx.entities
    && group.implementationType == claims[0].ImplementationType()
    && group.entity == ctx.entities[claims[0].Target()]
    && (group.warnings == [] <==> LastingClaims(ctx, claims))
  }

  lemma HeldIsDescribed(ctx: Context, events: seq<Event>, group: Group)
    requires Holds(ctx, group, events) && forall e :: e in events ==> e.Claimed?
    ensures Describes(ctx, Map(ClaimIn, events), group)
  {
    var claims := Map(ClaimIn, events);
    assert forall i :: 0 <= i < |events| ==> events[i] in events && claims[i] == events[i].claim;
    assert Map(EvidenceOf, events) == Map(EvidenceOfClaim, claims);
    assert Lasting(ctx, events) <==> LastingClaims(ctx, claims) by {
      assert forall i :: 0 <= i < |events| ==> claims[i] in claims;
      assert forall c :: c in claims ==> exists i :: 0 <= i < |events| && claims[i] == c && events[i] in events;
    }
  }

  lemma GroupsOfSuccess(ctx: Context, s: seq<Json>, k: string)
    requires Orderly(ctx, s)
    ensures var groups, claims := Settle(ctx, Events(s)).groups, Having(GroupKeyOf, k, AllClaims(s));
            && (k in groups <==> claims != []) && (k in groups ==> Describes(ctx, claims, groups[k]))
  {
    hide Settle, Orderly, Events, Having, Holds, Describes, Accepted;
    SuccessMeans(ctx, s);
    AcceptedAreGrouped(ctx, Events(s), k);
    var accepted := Accepted(ctx, Events(s));
    HavingMap(ClaimIn, GroupKeyOf, EventKey, k, accepted);
    var held := Having(EventKey, k, accepted);
    forall e | e in held ensures e.Claimed? {
      HavingMembers(EventKey, k, accepted, e);
    }
    if k in Settle(ctx, Events(s)).groups {
      HeldIsDescribed(ctx, held, Settle(ctx, Events(s)).groups[k]);
    }
  }

  /** A link without the diagnostics, which carry the positions of records. */
  function Bare(link: Link): Link {
    link.(diagnostics := [])
  }

  ghost predicate Alike(x: (string, Link), y: (string, Link)) {
    x.0 == y.0 && Bare(x.1) == Bare(y.1)
  }

  lemma FirstFace(ctx: Context, claims: seq<Claim>, g: Group)
    requires Describes(ctx, claims, g)
    ensures FaceOf(ctx, claims[0])
         == Face(g.implementationType, Text(g.entity, "entity_type"), Text(g.entity, "alias_id"), Text(g.entity, "alias_name"),
              Text(g.entity, "lifecycle_stage"))
  {
  }

  /** What a group is, in the terms that its link shows. */
  lemma AlikeMeans(json: Json -> string, k: string, g: Group, h: Group)
    ensures Alike(LinkOf(json, k, g), LinkOf(json, k, h)) ==>
              && Sort(EvidenceLe(json), g.occurrences) == Sort(EvidenceLe(json), h.occurrences)
              && g.implementationType == h.implementationType
              && Text(g.entity, "entity_type") == Text(h.entity, "entity_type")
              && Text(g.entity, "alias_id") == Text(h.entity, "alias_id")
              && Text(g.entity, "alias_name") == Text(h.entity, "alias_name")
              && Text(g.entity, "lifecycle_stage") == Text(h.entity, "lifecycle_stage")
    ensures (&& Sort(EvidenceLe(json), g.occurrences) == Sort(EvidenceLe(json), h.occurrences)
             && g.implementationType == h.implementationType
             && Text(g.entity, "entity_type") == Text(h.entity, "entity_type")
             && Text(g.entity, "alias_id") == Text(h.entity, "alias_id")
             && Text(g.entity, "alias_name") == Text(h.entity, "alias_name")
             && Text(g.entity, "lifecycle_stage") == Text(h.entity, "lifecycle_stage")
             && (g.warnings == [] <==> h.warnings == [])) ==> Alike(LinkOf(json, k, g), LinkOf(json, k, h))
  {
    hide Sort, OccurrenceKey, Split, Text;
  }

  /** The claims of one group in both orders. */
  lemma GroupPermuted(s: seq<Json>, t: seq<Json>, k: string)
    requires Permuted(s, t)
    ensures multiset(Having(GroupKeyOf, k, AllClaims(s))) == multiset(Having(GroupKeyOf, k, AllClaims(t)))
    ensures forall c :: c in Having(GroupKeyOf, k, AllClaims(s)) <==> c in Having(GroupKeyOf, k, AllClaims(t))
  {
    var cs, ds := Having(GroupKeyOf, k, AllClaims(s)), Having(GroupKeyOf, k, AllClaims(t));
    hide AllClaims, Having;
    ClaimsPermuted(s, t);
    HavingPermuted(GroupKeyOf, k, AllClaims(s), AllClaims(t));
    forall c ensures c in cs <==> c in ds {
      SameMembers(cs, ds, c);
    }
  }

  lemma SameGroup(ctx: Context, s: seq<Json>, t: seq<Json>, k: string, g: Group, h: Group)
    requires Permuted(s, t) && Unambiguous(ctx, s)
    requires Describes(ctx, Having(GroupKeyOf, k, AllClaims(s)), g) && Describes(ctx, Having(GroupKeyOf, k, AllClaims(t)), h)
    ensures Alike(LinkOf(ctx.json, k, g), LinkOf(ctx.json, k, h))
  {
    var cs, ds := Having(GroupKeyOf, k, AllClaims(s)), Having(GroupKeyOf, k, AllClaims(t));
    GroupPermuted(s, t, k);
    ClaimsPermuted(s, t);
    hide AllClaims, LinkOf, FaceOf, Having, Alike, OccurrenceKey, Sort, Text;
    SortedEvidencePermuted(ctx, AllClaims(s), AllClaims(t), k);
    assert ds[0] in cs;
    HavingMembers(GroupKeyOf, k, AllClaims(s), cs[0]);
    HavingMembers(GroupKeyOf, k, AllClaims(s), ds[0]);
    assert Compatible(ctx, cs[0], ds[0]);
    FirstFace(ctx, cs, g);
    FirstFace(ctx, ds, h);
    AlikeMeans(ctx.json, k, g, h);
  }

  /* ---------- sorting links that have the same keys ---------- */

  ghost predicate AllAlike(u: seq<(string, Link)>, v: seq<(string, Link)>) {
    |u| == |v| && forall i :: 0 <= i < |u| ==> Alike(u[i], v[i])
  }

  lemma {:induction false} InsertAlike(x: (string, Link), u: seq<(string, Link)>, y: (string, Link), v: seq<(string, Link)>)
    requires Alike(x, y) && AllAlike(u, v)
    ensures AllAlike(Insert(KeyLe, x, u), Insert(KeyLe, y, v))
  {
    hide Alike;
    if u == [] {
    } else {
      assert Alike(u[0], v[0]);
      SameComparison(x, u[0], y, v[0]);
      if !KeyLe(x, u[0]) {
        InsertAlike(x, u[1..], y, v[1..]);
      }
    }
  }

  lemma SameComparison(x: (string, Link), a: (string, Link), y: (string, Link), b: (string, Link))
    requires Alike(x, y) && Alike(a, b)
    ensures KeyLe(x, a) == KeyLe(y, b)
  {
  }

  lemma {:induction false} SortAlike(u: seq<(string, Link)>, v: seq<(string, Link)>)
    requires AllAlike(u, v)
    ensures AllAlike(Sort(KeyLe, u), Sort(KeyLe, v))
  {
    if u != [] {
      SortAlike(u[1..], v[1..]);
      InsertAlike(u[0], Sort(KeyLe, u[1..]), v[0], Sort(KeyLe, v[1..]));
    }
  }

  ghost predicate SameSortKeys(u: seq<(string, Link)>, v: seq<(string, Link)>) {
    |u| == |v| && forall i :: 0 <= i < |u| ==> u[i].0 == v[i].0
  }

  lemma PrependedPairs(x: (string, Link), u: seq<(string, Link)>, y: (string, Link), v: seq<(string, Link)>)
    ensures SameSortKeys([x] + u, [y] + v) <==> x.0 == y.0 && SameSortKeys(u, v)
    ensures AllAlike([x] + u, [y] + v) <==> Alike(x, y) && AllAlike(u, v)
  {
    hide Alike;
    var a, b := [x] + u, [y] + v;
    assert a[0] == x && b[0] == y && a[1..] == u && b[1..] == v;
    assert forall i :: 0 <= i < |u| ==> u[i] == a[i + 1];
    assert forall i :: 0 <= i < |v| ==> v[i] == b[i + 1];
  }

  lemma {:induction false} InsertSameKeys(x: (string, Link), u: seq<(string, Link)>, y: (string, Link), v: seq<(string, Link)>)
    requires x.0 == y.0 && SameSortKeys(u, v)
    ensures SameSortKeys(Insert(KeyLe, x, u), Insert(KeyLe, y, v))
    ensures AllAlike(Insert(KeyLe, x, u), Insert(KeyLe, y, v)) ==> Alike(x, y) && AllAlike(u, v)
  {
    PrependedPairs(x, u, y, v);
    if u != [] && !KeyLe(x, u[0]) {
      hide Alike, AllAlike, StringLe;
      assert u == [u[0]] + u[1..] && v == [v[0]] + v[1..];
      PrependedPairs(u[0], u[1..], v[0], v[1..]);
      InsertSameKeys(x, u[1..], y, v[1..]);
      PrependedPairs(u[0], Insert(KeyLe, x, u[1..]), v[0], Insert(KeyLe, y, v[1..]));
    }
  }

  /** Lists with the same keys are sorted alike, so that what holds of the sorted lists holds of the lists. */
  lemma {:induction false} SortSameKeys(u: seq<(string, Link)>, v: seq<(string, Link)>)
    requires SameSortKeys(u, v)
    ensures SameSortKeys(Sort(KeyLe, u), Sort(KeyLe, v))
    ensures AllAlike(Sort(KeyLe, u), Sort(KeyLe, v)) ==> AllAlike(u, v)
  {
    hide Alike;
    if u != [] {
      SortSameKeys(u[1..], v[1..]);
      InsertSameKeys(u[0], Sort(KeyLe, u[1..]), v[0], Sort(KeyLe, v[1..]));
      assert u == [u[0]] + u[1..] && v == [v[0]] + v[1..];
    }
  }

  lemma BareLinks(u: seq<(string, Link)>, v: seq<(string, Link)>)
    ensures AllAlike(u, v) ==> Map(Bare, Unkeyed(u)) == Map(Bare, Unkeyed(v))
    ensures SameSortKeys(u, v) && Map(Bare, Unkeyed(u)) == Map(Bare, Unkeyed(v)) ==> AllAlike(u, v)
  {
    var a, b := Map(Bare, Unkeyed(u)), Map(Bare, Unkeyed(v));
    if SameSortKeys(u, v) && a == b {
      forall i | 0 <= i < |u| ensures Alike(u[i], v[i]) {
        assert a[i] == Bare(u[i].1) && b[i] == Bare(v[i].1);
      }
    }
  }

  /* ---------- the links of a run ---------- */

  ghost function GroupsAfter(ctx: Context, records: seq<Json>): map<string, Group> {
    Settle(ctx, Events(records)).groups
  }

  ghost function LinksAfter(ctx: Context, records: seq<Json>): seq<Link> {
    ReportOf(ctx.json, Settle(ctx, Events(records))).links
  }

  ghost predicate Succeeds(ctx: Context, records: seq<Json>) {
    ReportOf(ctx.json, Settle(ctx, Events(records))).success
  }

  lemma SameKeys(ctx: Context, s: seq<Json>, t: seq<Json>)
    requires Permuted(s, t) && Orderly(ctx, s) && Orderly(ctx, t)
    ensures GroupsAfter(ctx, s).Keys == GroupsAfter(ctx, t).Keys
  {
    hide Settle, Events, Orderly, Describes, AllClaims, Having;
    ClaimsPermuted(s, t);
    forall k ensures k in GroupsAfter(ctx, s) <==> k in GroupsAfter(ctx, t) {
      GroupsOfSuccess(ctx, s, k);
      GroupsOfSuccess(ctx, t, k);
      HavingPermuted(GroupKeyOf, k, AllClaims(s), AllClaims(t));
      var a, b := Having(GroupKeyOf, k, AllClaims(s)), Having(GroupKeyOf, k, AllClaims(t));
      assert |multiset(a)| == |a| && |multiset(b)| == |b|;
    }
  }

  /** The links of two orders are the same if and only if they are so group by group. */
  lemma LinksAgree(ctx: Context, s: seq<Json>, t: seq<Json>)
    requires Permuted(s, t) && Orderly(ctx, s) && Orderly(ctx, t)
    ensures var g, h := GroupsAfter(ctx, s), GroupsAfter(ctx, t);
            Map(Bare, LinksAfter(ctx, s)) == Map(Bare, LinksAfter(ctx, t)) <==>
            forall k :: k in g && k in h ==> Alike(LinkOf(ctx.json, k, g[k]), LinkOf(ctx.json, k, h[k]))
  {
    hide Settle, Events, LinkOf, Orderly, Describes, Permuted, Alike, AllClaims, Having;
    var g, h := GroupsAfter(ctx, s), GroupsAfter(ctx, t);
    SameKeys(ctx, s, t);
    var keys := SortedKeys(g.Keys);
    var u, v := KeyedLinks(ctx.json, g, keys), KeyedLinks(ctx.json, h, keys);
    forall i | 0 <= i < |keys| ensures u[i].0 == v[i].0 {
      assert keys[i] in keys;
      SameLinkKey(ctx, s, t, keys[i]);
    }
    hide Sort, KeyedLinks;
    BareLinks(Sort(KeyLe, u), Sort(KeyLe, v));
    SortSameKeys(u, v);
    if AllAlike(u, v) {
      SortAlike(u, v);
    }
    AlikeByKey(ctx.json, g, h, keys);
  }

  lemma AlikeByKey(json: Json -> string, g: map<string, Group>, h: map<string, Group>, keys: seq<string>)
    requires g.Keys == h.Keys && forall k :: k in keys <==> k in g
    ensures AllAlike(KeyedLinks(json, g, keys), KeyedLinks(json, h, keys)) <==>
            forall k :: k in g && k in h ==> Alike(LinkOf(json, k, g[k]), LinkOf(json, k, h[k]))
  {
    hide LinkOf, Alike;
    var u, v := KeyedLinks(json, g, keys), KeyedLinks(json, h, keys);
    if AllAlike(u, v) {
      forall k | k in g && k in h ensures Alike(LinkOf(json, k, g[k]), LinkOf(json, k, h[k])) {
        assert k in keys;
        var i :| 0 <= i < |keys| && keys[i] == k;
        assert Alike(u[i], v[i]);
      }
    } else {
      assert forall i :: 0 <= i < |keys| ==> keys[i] in keys;
    }
  }

  /** The sort key of a link does not depend on the order: the least occurrence key is the same. */
  lemma SameLinkKey(ctx: Context, s: seq<Json>, t: seq<Json>, k: string)
    requires Permuted(s, t) && Orderly(ctx, s) && Orderly(ctx, t) && k in GroupsAfter(ctx, s) && k in GroupsAfter(ctx, t)
    ensures LinkOf(ctx.json, k, GroupsAfter(ctx, s)[k]).0 == LinkOf(ctx.json, k, GroupsAfter(ctx, t)[k]).0
  {
    hide Settle, Events, Orderly, Permuted, AllClaims, Having, OccurrenceKey, Sort, Split;
    GroupsOfSuccess(ctx, s, k);
    GroupsOfSuccess(ctx, t, k);
    GroupPermuted(s, t, k);
    var cs, ds := Having(GroupKeyOf, k, AllClaims(s)), Having(GroupKeyOf, k, AllClaims(t));
    MapPermuted(EvidenceOfClaim, cs, ds);
    SameLeastKey(ctx.json, Map(EvidenceOfClaim, cs), Map(EvidenceOfClaim, ds));
  }

  lemma SameLeastKey(json: Json -> string, a: seq<Occurrence>, b: seq<Occurrence>)
    requires multiset(a) == multiset(b) && a != []
    ensures b != []
    ensures OccurrenceKey(json, Sort(EvidenceLe(json), a)[0]) == OccurrenceKey(json, Sort(EvidenceLe(json), b)[0])
  {
    hide OccurrenceKey, Sort;
    assert |multiset(a)| == |multiset(b)|;
    EvidencePreorder(json);
    SortSorted(EvidenceLe(json), a);
    SortSorted(EvidenceLe(json), b);
    var x, y := Sort(EvidenceLe(json), a), Sort(EvidenceLe(json), b);
    assert x[0] in multiset(y) && y[0] in multiset(x);
    HeadIsLeast(EvidenceLe(json), y, x[0]);
    HeadIsLeast(EvidenceLe(json), x, y[0]);
    StringLeAntisymmetric(OccurrenceKey(json, x[0]), OccurrenceKey(json, y[0]));
  }

  /* ---------- compatible claims are enough ---------- */

  lemma CompatibleLinks(ctx: Context, s: seq<Json>, t: seq<Json>)
    requires Permuted(s, t) && Orderly(ctx, s) && Orderly(ctx, t) && Unambiguous(ctx, s)
    ensures Map(Bare, LinksAfter(ctx, s)) == Map(Bare, LinksAfter(ctx, t))
  {
    hide GroupsAfter, LinksAfter, Orderly, Unambiguous, Permuted, LinkOf, Alike, Describes, Having, AllClaims;
    LinksAgree(ctx, s, t);
    var g, h := GroupsAfter(ctx, s), GroupsAfter(ctx, t);
    forall k | k in g && k in h ensures Alike(LinkOf(ctx.json, k, g[k]), LinkOf(ctx.json, k, h[k])) {
      GroupDescribed(ctx, s, k);
      GroupDescribed(ctx, t, k);
      SameGroup(ctx, s, t, k, g[k], h[k]);
    }
  }

  lemma GroupDescribed(ctx: Context, s: seq<Json>, k: string)
    requires Orderly(ctx, s)
    ensures k in GroupsAfter(ctx, s) <==> Having(GroupKeyOf, k, AllClaims(s)) != []
    ensures k in GroupsAfter(ctx, s) ==> Describes(ctx, Having(GroupKeyOf, k, AllClaims(s)), GroupsAfter(ctx, s)[k])
  {
    hide Settle, Events, Orderly, Describes, Having, AllClaims;
    GroupsOfSuccess(ctx, s, k);
  }

  /* ---------- and they are needed ---------- */

  /** Moving a record of the list to its front. */
  lemma ToFront(s: seq<Json>, raw: Json) returns (rest: seq<Json>)
    requires raw in s
    ensures Permuted(s, [raw] + rest)
  {
    var k :| 0 <= k < |s| && s[k] == raw;
    rest := s[..k] + s[k + 1..];
    WithoutMultiset(s, k);
  }

  lemma FirstRecordFirst(raw: Json, rest: seq<Json>)
    ensures AllClaims([raw] + rest) == RecordClaims(raw) + AllClaims(rest)
  {
    hide RecordClaims, Gather;
    GatherConcat(RecordClaims, [raw], rest);
    assert [raw] == [] + [raw];
    GatherStep(RecordClaims, [], raw);
    NothingGathered();
    assert [] + RecordClaims(raw) == RecordClaims(raw);
  }

  lemma NothingGathered()
    ensures Gather(RecordClaims, []) == []
  {
  }

  /** A claim of the first record is the first of its group. */
  lemma LeadsItsGroup(ctx: Context, c: Claim, rest: seq<Json>)
    requires Orderly(ctx, [Obj(c.record)] + rest) && c in AllClaims([Obj(c.record)] + rest)
    ensures var group := Having(GroupKeyOf, c.GroupKey(), AllClaims([Obj(c.record)] + rest)); group != [] && group[0] == c
  {
    var raw, k, s := Obj(c.record), c.GroupKey(), [Obj(c.record)] + rest;
    ObjectClaimsOf(c.record, ClaimsOf(c.record));
    ClaimInOwnRecord(s, c);
    FirstRecordFirst(raw, rest);
    var claims := RecordClaims(raw);
    assert forall d :: d in claims ==> d.record == c.record;
    hide AllClaims, RecordClaims, Having, Types, Admissible, WellAttributed;
    HavingConcat(GroupKeyOf, k, claims, AllClaims(rest));
    HavingMembers(GroupKeyOf, k, claims, c);
    var own := Having(GroupKeyOf, k, claims);
    HavingMembers(GroupKeyOf, k, claims, own[0]);
    assert own[0].Identity(ctx.json) == c.Identity(ctx.json);
    SameIdentitySameClaim(ctx.json, AllClaims(s), own[0], c);
  }

  lemma ClaimInOwnRecord(s: seq<Json>, c: Claim)
    requires c in AllClaims(s)
    ensures c in RecordClaims(Obj(c.record))
  {
    GatherMembers(RecordClaims, s, c);
    var raw :| raw in s && c in RecordClaims(raw);
    ObjectClaimsOf(raw.fields, ClaimsOf(raw.fields));
  }

  function EvidenceSortKey(json: Json -> string): Occurrence -> Key {
    o => (OccurrenceKey(json, o), "")
  }

  lemma SameOrder(json: Json -> string, x: Occurrence, y: Occurrence)
    ensures EvidenceLe(json)(x, y) == Order(EvidenceSortKey(json))(x, y)
  {
    var a, b := OccurrenceKey(json, x), OccurrenceKey(json, y);
    StringLeTotal(a, a);
    assert EvidenceSortKey(json)(x) == (a, "") && EvidenceSortKey(json)(y) == (b, "");
    assert PairLe((a, ""), (b, "")) == StringLe(a, b);
  }

  lemma {:induction false} SortCongruent<T(!new)>(le: (T, T) -> bool, other: (T, T) -> bool, s: seq<T>)
    requires forall x, y :: le(x, y) == other(x, y)
    ensures Sort(le, s) == Sort(other, s)
  {
    if s != [] {
      SortCongruent(le, other, s[1..]);
      InsertCongruent(le, other, s[0], Sort(le, s[1..]));
    }
  }

  lemma {:induction false} InsertCongruent<T(!new)>(le: (T, T) -> bool, other: (T, T) -> bool, x: T, s: seq<T>)
    requires forall x, y :: le(x, y) == other(x, y)
    ensures Insert(le, x, s) == Insert(other, x, s)
  {
    if s != [] {
      InsertCongruent(le, other, x, s[1..]);
    }
  }

  /** The first of the evidence with its sort key shows in the sorted list, since the sort is stable. */
  lemma FirstEvidenceShows(json: Json -> string, a: seq<Occurrence>, b: seq<Occurrence>)
    requires a != [] && b != [] && OccurrenceKey(json, a[0]) == OccurrenceKey(json, b[0])
    requires Sort(EvidenceLe(json), a) == Sort(EvidenceLe(json), b)
    ensures a[0] == b[0]
  {
    var key := EvidenceSortKey(json);
    hide OccurrenceKey, Sort, Having;
    forall x, y ensures EvidenceLe(json)(x, y) == Order(key)(x, y) {
      SameOrder(json, x, y);
    }
    SortCongruent(EvidenceLe(json), Order(key), a);
    SortCongruent(EvidenceLe(json), Order(key), b);
    SortsAgreeExactly(key, a, b);
    var k := key(a[0]);
    HavingCons(key, k, a[0], a[1..]);
    HavingCons(key, k, b[0], b[1..]);
    assert a == [a[0]] + a[1..] && b == [b[0]] + b[1..];
    assert Having(key, k, a)[0] == a[0] && Having(key, k, b)[0] == b[0];
  }

  /** If the record of either of two claims can lead and the links are the same, the claims are compatible. */
  lemma FrontsShow(ctx: Context, c: Claim, s: seq<Json>, d: Claim, t: seq<Json>)
    requires var front, other := [Obj(c.record)] + s, [Obj(d.record)] + t;
             && Permuted(front, other) && Orderly(ctx, front) && Orderly(ctx, other)
             && c in AllClaims(front) && d in AllClaims(other) && c.GroupKey() == d.GroupKey()
             && Map(Bare, LinksAfter(ctx, front)) == Map(Bare, LinksAfter(ctx, other))
    ensures Compatible(ctx, c, d)
  {
    var front, other, k := [Obj(c.record)] + s, [Obj(d.record)] + t, c.GroupKey();
    hide GroupsAfter, LinksAfter, Orderly, Permuted, LinkOf, Alike, AllClaims, Having, FaceOf, OccurrenceKey, Sort;
    LeadsItsGroup(ctx, c, s);
    LeadsItsGroup(ctx, d, t);
    GroupDescribed(ctx, front, k);
    GroupDescribed(ctx, other, k);
    LinksAgree(ctx, front, other);
    var g, h := GroupsAfter(ctx, front)[k], GroupsAfter(ctx, other)[k];
    var cs, ds := Having(GroupKeyOf, k, AllClaims(front)), Having(GroupKeyOf, k, AllClaims(other));
    AlikeMeans(ctx.json, k, g, h);
    FirstFace(ctx, cs, g);
    FirstFace(ctx, ds, h);
    if OccurrenceKey(ctx.json, c.Evidence()) == OccurrenceKey(ctx.json, d.Evidence()) {
      FirstEvidenceShows(ctx.json, Map(EvidenceOfClaim, cs), Map(EvidenceOfClaim, ds));
    }
  }

  ghost predicate SameLinksInEveryOrder(ctx: Context, s: seq<Json>) {
    forall t :: Permuted(s, t) ==> Map(Bare, LinksAfter(ctx, t)) == Map(Bare, LinksAfter(ctx, s))
  }

  lemma SameLinksMeanCompatible(ctx: Context, s: seq<Json>, c: Claim, d: Claim)
    requires Orderly(ctx, s) && TypesAgree(s) && SameLinksInEveryOrder(ctx, s)
    requires c in AllClaims(s) && d in AllClaims(s) && c.GroupKey() == d.GroupKey()
    ensures Compatible(ctx, c, d)
  {
    hide LinksAfter, Orderly, TypesAgree, Permuted, AllClaims, Compatible;
    ClaimHasRecord(s, c);
    ClaimHasRecord(s, d);
    var u := ToFront(s, Obj(c.record));
    var v := ToFront(s, Obj(d.record));
    var front, other := [Obj(c.record)] + u, [Obj(d.record)] + v;
    OrderlyPermuted(ctx, s, front);
    OrderlyPermuted(ctx, s, other);
    ClaimsPermuted(s, front);
    ClaimsPermuted(s, other);
    BothPermuted(s, front, other);
    FrontsShow(ctx, c, u, d, v);
  }

  lemma BothPermuted(s: seq<Json>, t: seq<Json>, u: seq<Json>)
    requires Permuted(s, t) && Permuted(s, u)
    ensures Permuted(t, u)
  {
  }

  /**
   * Order-freedom of the whole result, exactly.  A list of records succeeds in every order with the same
   * links (the same ids, types, targets, statuses and occurrence lists in the same order; only the
   * positions inside diagnostics may differ) if and only if it succeeds as it stands, its implementation
   * types agree, and any two claims of one group are compatible.
   */
  lemma LinksIgnoreOrderExactly(ctx: Context, s: seq<Json>)
    ensures (forall t :: Permuted(s, t) ==> Succeeds(ctx, t) && Map(Bare, LinksAfter(ctx, t)) == Map(Bare, LinksAfter(ctx, s)))
       <==> Succeeds(ctx, s) && TypesAgree(s) && Unambiguous(ctx, s)
  {
    hide Settle, ReportOf, Orderly, TypesAgree, Permuted, AllClaims, Compatible, LinksAfter;
    SucceedsInEveryOrder(ctx, s);
    SuccessMeans(ctx, s);
    assert (forall t :: Permuted(s, t) ==> Succeeds(ctx, t)) <==> Succeeds(ctx, s) && TypesAgree(s);
    if Succeeds(ctx, s) && TypesAgree(s) {
      if Unambiguous(ctx, s) {
        forall t | Permuted(s, t) ensures Map(Bare, LinksAfter(ctx, t)) == Map(Bare, LinksAfter(ctx, s)) {
          OrderlyPermuted(ctx, s, t);
          CompatibleLinks(ctx, s, t);
        }
      }
      if SameLinksInEveryOrder(ctx, s) {
        forall c, d | c in AllClaims(s) && d in AllClaims(s) && c.GroupKey() == d.GroupKey() ensures Compatible(ctx, c, d) {
          SameLinksMeanCompatible(ctx, s, c, d);
        }
      }
    }
  }

  /* ---------- joined keys ---------- */

  /** A part that does not contain the separator is read off the front of a joined key. */
  lemma FirstPart(a: string, x: string, b: string, y: string)
    requires UNIT !in a && UNIT !in b && a + US + x == b + US + y
    ensures a == b && x == y
  {
    var s, t := a + US + x, b + US + y;
    assert s[|a|] == UNIT && t[|b|] == UNIT;
    assert s[..|a|] == a && t[..|b|] == b && s[|a| + 1..] == x && t[|b| + 1..] == y;
  }

  /** The provenance is an object none of whose identifying parts contains the separator. */
  ghost predicate SeparableProvenance(json: Json -> string, value: Option<Json>) {
    value.Some? && value.value.Obj?
    && forall i :: 0 <= i < 6 ==> UNIT !in ProvenanceParts(json, value.value.fields)[i]
  }

  /** What the joined keys rely on. */
  ghost predicate Separable(json: Json -> string, raw: Json) {
    raw.Obj? ==> UNIT !in ImplementationOf(raw) && SeparableProvenance(json, Lookup(raw.fields, "provenance"))
  }

  lemma JoinedSix(p: seq<string>, x: string, q: seq<string>, y: string)
    requires |p| == 6 && |q| == 6 && forall i :: 0 <= i < 6 ==> UNIT !in p[i] && UNIT !in q[i]
    requires JoinSix(p) + US + x == JoinSix(q) + US + y
    ensures JoinSix(p) == JoinSix(q)
  {
    FirstPart(p[0], Tail(p, 1, x), q[0], Tail(q, 1, y)) by { Unroll(p, x); Unroll(q, y); }
    FirstPart(p[1], Tail(p, 2, x), q[1], Tail(q, 2, y));
    FirstPart(p[2], Tail(p, 3, x), q[2], Tail(q, 3, y));
    FirstPart(p[3], Tail(p, 4, x), q[3], Tail(q, 4, y));
    FirstPart(p[4], Tail(p, 5, x), q[4], Tail(q, 5, y));
    assert Tail(p, 6, x) == x && Tail(q, 6, y) == y;
    FirstPart(p[5], x, q[5], y);
  }

  /** The parts from `i` on, each with a separator after it, and then `x`. */
  ghost function Tail(p: seq<string>, i: nat, x: string): string
    requires i <= |p|
    decreases |p| - i
  {
    if i == |p| then x else p[i] + US + Tail(p, i + 1, x)
  }

  lemma Unroll(p: seq<string>, x: string)
    requires |p| == 6
    ensures JoinSix(p) + US + x == p[0] + US + Tail(p, 1, x)
  {
    assert Tail(p, 5, x) == p[5] + US + x;
    assert Tail(p, 4, x) == p[4] + US + Tail(p, 5, x);
    assert Tail(p, 3, x) == p[3] + US + Tail(p, 4, x);
    assert Tail(p, 2, x) == p[2] + US + Tail(p, 3, x);
    assert Tail(p, 1, x) == p[1] + US + Tail(p, 2, x);
  }

  lemma CopyKeepsKey(json: Json -> string, value: Option<Json>)
    requires value.Some? && value.value.Obj?
    ensures CopyProvenance(value).Obj? && ProvenanceParts(json, CopyProvenance(value).fields) == ProvenanceParts(json, value.value.fields)
    ensures ProvenanceKey(json, Some(CopyProvenance(value))) == ProvenanceKey(json, value)
  {
  }

  ghost predicate ClaimSeparable(json: Json -> string, c: Claim) {
    UNIT !in c.Implementation() && SeparableProvenance(json, Lookup(c.record, "provenance"))
  }

  /** Within a group, evidence with one sort key comes from one identity. */
  lemma EvidenceKeyShowsIdentity(json: Json -> string, c: Claim, d: Claim)
    requires ClaimSeparable(json, c) && ClaimSeparable(json, d) && c.GroupKey() == d.GroupKey()
    requires OccurrenceKey(json, c.Evidence()) == OccurrenceKey(json, d.Evidence())
    ensures c.Identity(json) == d.Identity(json)
  {
    var p, q := Lookup(c.record, "provenance"), Lookup(d.record, "provenance");
    CopyKeepsKey(json, p);
    CopyKeepsKey(json, q);
    hide ProvenanceParts, JoinSix, CopyProvenance;
    var x, y := AfterProvenance(c.Evidence()), AfterProvenance(d.Evidence());
    OccurrenceKeyParts(json, c.Evidence());
    OccurrenceKeyParts(json, d.Evidence());
    JoinedSix(ProvenanceParts(json, p.value.fields), x, ProvenanceParts(json, q.value.fields), y);
  }

  /** The part of an occurrence key behind the provenance. */
  ghost function AfterProvenance(o: Occurrence): string {
    o.confidence + US + (match o.language case Some(Str(s)) => s case _ => "")
  }

  lemma OccurrenceKeyParts(json: Json -> string, o: Occurrence)
    ensures OccurrenceKey(json, o) == ProvenanceKey(json, Some(o.provenance)) + US + AfterProvenance(o)
  {
    hide ProvenanceKey;
    var p, l := ProvenanceKey(json, Some(o.provenance)), (match o.language case Some(Str(s)) => s case _ => "");
    assert p + US + o.confidence + US + l == p + US + (o.confidence + US + l);
  }

  /** The two records name the same provenance: none that is an object, or the same six facts. */
  ghost predicate SameProvenance(json: Json -> string, p: Option<Json>, q: Option<Json>) {
    if p.Some? && p.value.Obj? && q.Some? && q.value.Obj? then
      var a, b := p.value.fields, q.value.fields;
      && Text(a, "source_file") == Text(b, "source_file") && Text(a, "source_pointer") == Text(b, "source_pointer")
      && Text(a, "extractor") == Text(b, "extractor") && Text(a, "commit") == Text(b, "commit")
      && Serialized(json, a, "start_line") == Serialized(json, b, "start_line")
      && Serialized(json, a, "end_line") == Serialized(json, b, "end_line")
    else !(p.Some? && p.value.Obj?) && !(q.Some? && q.value.Obj?)
  }

  ghost predicate PlainKeys(json: Json -> string, c: Claim) {
    UNIT !in c.Implementation() && UNIT !in c.Relationship() && UNIT !in c.Target()
    && forall fields, i :: Lookup(c.record, "provenance") == Some(Obj(fields)) && 0 <= i < 6 ==> UNIT !in ProvenanceParts(json, fields)[i]
  }

  lemma SixShow(p: seq<string>, q: seq<string>)
    requires |p| == 6 && |q| == 6 && forall i :: 0 <= i < 6 ==> UNIT !in p[i] && UNIT !in q[i]
    ensures JoinSix(p) == JoinSix(q) <==> forall i :: 0 <= i < 6 ==> p[i] == q[i]
  {
    if JoinSix(p) == JoinSix(q) {
      Unroll(p, "");
      Unroll(q, "");
      FirstPart(p[0], Tail(p, 1, ""), q[0], Tail(q, 1, ""));
      FirstPart(p[1], Tail(p, 2, ""), q[1], Tail(q, 2, ""));
      FirstPart(p[2], Tail(p, 3, ""), q[2], Tail(q, 3, ""));
      FirstPart(p[3], Tail(p, 4, ""), q[3], Tail(q, 4, ""));
      FirstPart(p[4], Tail(p, 5, ""), q[4], Tail(q, 5, ""));
      assert Tail(p, 6, "") == "" == Tail(q, 6, "");
      FirstPart(p[5], "", q[5], "");
    }
  }

  lemma ProvenanceKeyMeans(json: Json -> string, c: Claim, d: Claim)
    requires PlainKeys(json, c) && PlainKeys(json, d)
    ensures var p, q := Lookup(c.record, "provenance"), Lookup(d.record, "provenance");
            ProvenanceKey(json, p) == ProvenanceKey(json, q) <==> SameProvenance(json, p, q)
  {
    var p, q := Lookup(c.record, "provenance"), Lookup(d.record, "provenance");
    if p.Some? && p.value.Obj? && q.Some? && q.value.Obj? {
      var x, y := ProvenanceParts(json, p.value.fields), ProvenanceParts(json, q.value.fields);
      SixShow(x, y);
      hide JoinSix, Text, Serialized;
      assert x[0] == y[0] && x[1] == y[1] && x[2] == y[2] && x[3] == y[3] && x[4] == y[4] && x[5] == y[5] <==>
          forall i :: 0 <= i < 6 ==> x[i] == y[i];
    } else {
      NeverEmpty(json, p);
      NeverEmpty(json, q);
      hide ProvenanceParts, JoinSix;
    }
  }

  lemma NeverEmpty(json: Json -> string, p: Option<Json>)
    ensures ProvenanceKey(json, p) != "" <==> p.Some? && p.value.Obj?
  {
    hide ProvenanceParts;
  }

  /** Two claims have one identity exactly if they join the same ids under the same provenance. */
  lemma IdentityExactly(json: Json -> string, c: Claim, d: Claim)
    requires PlainKeys(json, c) && PlainKeys(json, d)
    ensures c.GroupKey() == d.GroupKey() <==>
              c.Implementation() == d.Implementation() && c.Relationship() == d.Relationship() && c.Target() == d.Target()
    ensures c.Identity(json) == d.Identity(json) <==>
              c.GroupKey() == d.GroupKey() && SameProvenance(json, Lookup(c.record, "provenance"), Lookup(d.record, "provenance"))
  {
    ProvenanceKeyMeans(json, c, d);
    hide ProvenanceKey, SameProvenance;
    GroupKeyParts(c);
    GroupKeyParts(d);
    if c.GroupKey() == d.GroupKey() {
      FirstPart(c.Implementation(), c.PairKey(), d.Implementation(), d.PairKey());
      FirstPart(c.Relationship(), c.Target(), d.Relationship(), d.Target());
    }
    if c.Identity(json) == d.Identity(json) {
      IdentityParts(json, c);
      IdentityParts(json, d);
      var x, y := ProvenanceKey(json, Lookup(c.record, "provenance")), ProvenanceKey(json, Lookup(d.record, "provenance"));
      FirstPart(c.Implementation(), c.Relationship() + US + (c.Target() + US + x), d.Implementation(), d.Relationship() + US + (d.Target() + US + y));
      FirstPart(c.Relationship(), c.Target() + US + x, d.Relationship(), d.Target() + US + y);
      FirstPart(c.Target(), x, d.Target(), y);
    }
  }

  lemma IdentityParts(json: Json -> string, c: Claim)
    ensures c.Identity(json)
         == c.Implementation() + US + (c.Relationship() + US + (c.Target() + US + ProvenanceKey(json, Lookup(c.record, "provenance"))))
  {
    hide ProvenanceKey;
    var i, r, t, p := c.Implementation(), c.Relationship(), c.Target(), ProvenanceKey(json, Lookup(c.record, "provenance"));
    hide Text;
    assert i + US + r + US + t + US + p == i + US + (r + US + (t + US + p));
  }

  /** Claims that may stand in one group: separable, and no two with one identity. */
  ghost predicate Groupable(json: Json -> string, claims: seq<Claim>) {
    (forall c :: c in claims ==> ClaimSeparable(json, c)) && DistinctBy(IdentityBy(json), claims)
  }

  /** The first claims of a group fix its implementation and its target. */
  lemma GroupKeyDetermines(ctx: Context, c: Claim, d: Claim)
    requires c.GroupKey() == d.GroupKey() && Admissible(ctx, c) && Admissible(ctx, d)
    requires UNIT !in c.Implementation() && UNIT !in d.Implementation()
    ensures c.Implementation() == d.Implementation() && c.Target() == d.Target()
  {
    hide Admissible;
    GroupKeyParts(c);
    GroupKeyParts(d);
    RelationshipIsPlain(ctx, c);
    RelationshipIsPlain(ctx, d);
    FirstPart(c.Implementation(), c.PairKey(), d.Implementation(), d.PairKey());
    FirstPart(c.Relationship(), c.Target(), d.Relationship(), d.Target());
  }

  lemma GroupKeyParts(c: Claim)
    ensures c.GroupKey() == c.Implementation() + US + c.PairKey()
  {
    assert c.Implementation() + US + (c.Relationship() + US + c.Target()) == c.GroupKey();
  }

  lemma RelationshipIsPlain(ctx: Context, c: Claim)
    requires Admissible(ctx, c)
    ensures UNIT !in c.Relationship()
  {
  }

  /** A condition on the records by which claims are compatible: the joined keys can be taken apart. */
  ghost predicate Comparable(ctx: Context, s: seq<Json>) {
    Orderly(ctx, s) && TypesAgree(s) && forall raw :: raw in s ==> Separable(ctx.json, raw)
  }

  lemma ComparableClaims(ctx: Context, s: seq<Json>)
    requires Comparable(ctx, s)
    ensures Groupable(ctx.json, AllClaims(s))
    ensures forall c :: c in AllClaims(s) ==> Admissible(ctx, c)
  {
    hide AllClaims, Admissible, SeparableProvenance;
    forall c | c in AllClaims(s) ensures ClaimSeparable(ctx.json, c) {
      ClaimHasRecord(s, c);
      assert Separable(ctx.json, Obj(c.record));
    }
  }

  lemma ComparableIsUnambiguous(ctx: Context, s: seq<Json>)
    requires Comparable(ctx, s)
    ensures Unambiguous(ctx, s)
  {
    hide AllClaims, Admissible, SeparableProvenance, OccurrenceKey;
    ComparableClaims(ctx, s);
    forall c, d | c in AllClaims(s) && d in AllClaims(s) && c.GroupKey() == d.GroupKey() ensures Compatible(ctx, c, d) {
      assert ClaimSeparable(ctx.json, c) && ClaimSeparable(ctx.json, d);
      FacesAgree(ctx, s, c, d);
      if OccurrenceKey(ctx.json, c.Evidence()) == OccurrenceKey(ctx.json, d.Evidence()) {
        EvidenceKeyShowsIdentity(ctx.json, c, d);
        SameIdentitySameClaim(ctx.json, AllClaims(s), c, d);
      }
    }
  }

  /** Where implementation ids have no separator, the claims of a group differ in their evidence at most. */
  lemma FacesAgree(ctx: Context, s: seq<Json>, c: Claim, d: Claim)
    requires Orderly(ctx, s) && TypesAgree(s) && c in AllClaims(s) && d in AllClaims(s) && c.GroupKey() == d.GroupKey()
    requires UNIT !in c.Implementation() && UNIT !in d.Implementation()
    ensures FaceOf(ctx, c) == FaceOf(ctx, d)
  {
    hide AllClaims, Admissible;
    GroupKeyDetermines(ctx, c, d);
    ClaimHasRecord(s, c);
    assert ImplementationOf(Obj(c.record)) == d.Implementation();
  }

  /** So the condition is then one on the evidence alone. */
  lemma EvidenceDecides(ctx: Context, s: seq<Json>)
    requires Orderly(ctx, s) && TypesAgree(s) && forall c :: c in AllClaims(s) ==> UNIT !in c.Implementation()
    ensures Unambiguous(ctx, s) <==>
            forall c, d :: c in AllClaims(s) && d in AllClaims(s) && c.GroupKey() == d.GroupKey() ==>
              SameKeySameEvidence(ctx.json, c, d)
  {
    hide AllClaims, Orderly, TypesAgree, SameKeySameEvidence, FaceOf;
    forall c, d | c in AllClaims(s) && d in AllClaims(s) && c.GroupKey() == d.GroupKey() ensures FaceOf(ctx, c) == FaceOf(ctx, d) {
      FacesAgree(ctx, s, c, d);
    }
  }

  /** Records whose joined keys can be told apart give the same links in every order, and reject nothing. */
  lemma LinksIgnoreOrder(ctx: Context, s: seq<Json>, t: seq<Json>)
    requires Permuted(s, t) && Comparable(ctx, s)
    ensures var r1, r2 := ReportOf(ctx.json, Settle(ctx, Events(s))), ReportOf(ctx.json, Settle(ctx, Events(t)));
            && r1.success && r2.success && r1.rejected == [] && r2.rejected == []
            && Map(Bare, r1.links) == Map(Bare, r2.links)
  {
    hide Settle, Events, ReportOf, Orderly, TypesAgree, Separable, Permuted, Unambiguous;
    OrderlyPermuted(ctx, s, t);
    SuccessMeans(ctx, s);
    SuccessMeans(ctx, t);
    SuccessRejectsNothing(ctx, s);
    SuccessRejectsNothing(ctx, t);
    ComparableIsUnambiguous(ctx, s);
    CompatibleLinks(ctx, s, t);
  }

  /* ---------- why the conditions are needed ---------- */

  /**
   * Without the demand that provenance is an object: a missing one and an empty one have different
   * identities but one sort key, so that the order of the records shows in the occurrence list.
   */
  lemma MissingProvenanceShowsOrder(json: Json -> string, implementation: string, relationship: string, target: string)
    ensures var claim := map["relationship" := Str(relationship), "target_entity_id" := Str(target)];
            var c := Claim(map["implementation_entity_id" := Str(implementation)], claim);
            var d := Claim(map["implementation_entity_id" := Str(implementation), "provenance" := Obj(map[]),
                               "attribution_source_language" := Number(5)], claim);
            && c.GroupKey() == d.GroupKey() && c.Identity(json) != d.Identity(json)
            && c.Evidence() != d.Evidence()
            && Sort(EvidenceLe(json), [c.Evidence(), d.Evidence()]) == [c.Evidence(), d.Evidence()]
            && Sort(EvidenceLe(json), [d.Evidence(), c.Evidence()]) == [d.Evidence(), c.Evidence()]
  {
    var claim := map["relationship" := Str(relationship), "target_entity_id" := Str(target)];
    var c := Claim(map["implementation_entity_id" := Str(implementation)], claim);
    var d := Claim(map["implementation_entity_id" := Str(implementation), "provenance" := Obj(map[]),
                       "attribution_source_language" := Number(5)], claim);
    assert |c.Identity(json)| < |d.Identity(json)|;
    assert CopyProvenance(Some(Obj(map[]))) == Obj(map[]);
    var x, y := c.Evidence(), d.Evidence();
    assert OccurrenceKey(json, x) == OccurrenceKey(json, y);
    StringLeTotal(OccurrenceKey(json, x), OccurrenceKey(json, y));
    hide OccurrenceKey;
    SortsToItself(EvidenceLe(json), x, y);
    SortsToItself(EvidenceLe(json), y, x);
  }

  /** Two records whose claims are not compatible show their order in the links. */
  lemma IncompatibleShowOrder(ctx: Context, c: Claim, d: Claim)
    requires var s := [Obj(c.record), Obj(d.record)]; Orderly(ctx, s) && TypesAgree(s) && c in AllClaims(s) && d in AllClaims(s)
    requires c.GroupKey() == d.GroupKey() && !Compatible(ctx, c, d)
    ensures var s, t := [Obj(c.record), Obj(d.record)], [Obj(d.record), Obj(c.record)];
            Succeeds(ctx, s) && Succeeds(ctx, t) && Map(Bare, LinksAfter(ctx, s)) != Map(Bare, LinksAfter(ctx, t))
  {
    var x, y := Obj(c.record), Obj(d.record);
    hide Settle, Events, ReportOf, LinksAfter, Orderly, TypesAgree, AllClaims, Compatible;
    assert multiset([x, y]) == multiset([y, x]);
    assert [x, y] == [x] + [y] && [y, x] == [y] + [x];
    ClaimsPermuted([x, y], [y, x]);
    OrderlyPermuted(ctx, [x, y], [y, x]);
    SuccessMeans(ctx, [x, y]);
    SuccessMeans(ctx, [y, x]);
    if Map(Bare, LinksAfter(ctx, [x, y])) == Map(Bare, LinksAfter(ctx, [y, x])) {
      FrontsShow(ctx, c, [y], d, [x]);
    }
  }

  const WITHOUT_PROVENANCE := map["implementation_entity_id" := Str("a"), "claims" := Arr([Obj(CLAIM)])]
  const EMPTY_PROVENANCE :=
    map["implementation_entity_id" := Str("a"), "claims" := Arr([Obj(CLAIM)]), "provenance" := Obj(map[]),
        "attribution_source_language" := Number(5)]

  /** The same on a run: both orders of two such records succeed, with different links. */
  lemma MissingProvenanceShowsInLinks(json: Json -> string)
    ensures var ctx := Context(Brownfield, V16, map["t" := map["entity_type" := Str("system")]], json);
            var s, t := [Obj(WITHOUT_PROVENANCE), Obj(EMPTY_PROVENANCE)], [Obj(EMPTY_PROVENANCE), Obj(WITHOUT_PROVENANCE)];
            Succeeds(ctx, s) && Succeeds(ctx, t) && Map(Bare, LinksAfter(ctx, s)) != Map(Bare, LinksAfter(ctx, t))
  {
    var ctx := Context(Brownfield, V16, map["t" := map["entity_type" := Str("system")]], json);
    var c, d := Claim(WITHOUT_PROVENANCE, CLAIM), Claim(EMPTY_PROVENANCE, CLAIM);
    ClaimsOfOneEach(c, d);
    BothAreAdmissible(ctx, c, d);
    NotCompatible(ctx, c, d);
    hide Orderly, TypesAgree, Compatible, Succeeds, LinksAfter, AllClaims;
    TwoOrderly(ctx, c, d);
    IncompatibleShowOrder(ctx, c, d);
  }

  lemma ClaimsOfOneEach(c: Claim, d: Claim)
    requires c == Claim(WITHOUT_PROVENANCE, CLAIM) && d == Claim(EMPTY_PROVENANCE, CLAIM)
    ensures AllClaims([Obj(c.record), Obj(d.record)]) == [c, d]
  {
    assert ClaimsOf(c.record) == [Obj(CLAIM)] == ClaimsOf(d.record) && [Obj(CLAIM)][..0] == [];
    assert ObjectClaims(c.record, []) == [] == ObjectClaims(d.record, []);
    assert RecordClaims(Obj(c.record)) == [c] && RecordClaims(Obj(d.record)) == [d];
    hide RecordClaims;
    GatherTwo(RecordClaims, Obj(c.record), Obj(d.record));
    assert [c] + [d] == [c, d];
  }

  lemma BothAreAdmissible(ctx: Context, c: Claim, d: Claim)
    requires ctx == Context(Brownfield, V16, map["t" := map["entity_type" := Str("system")]], ctx.json)
    requires c == Claim(WITHOUT_PROVENANCE, CLAIM) && d == Claim(EMPTY_PROVENANCE, CLAIM)
    ensures Admissible(ctx, c) && Admissible(ctx, d)
    ensures c.Implementation() == "a" == d.Implementation() && c.ImplementationType() == "" == d.ImplementationType()
    ensures c.GroupKey() == d.GroupKey()
  {
  }

  lemma NotCompatible(ctx: Context, c: Claim, d: Claim)
    requires c == Claim(WITHOUT_PROVENANCE, CLAIM) && d == Claim(EMPTY_PROVENANCE, CLAIM)
    ensures !Compatible(ctx, c, d) && c.Identity(ctx.json) != d.Identity(ctx.json)
  {
    SameSortKey(ctx.json, c, d);
    DifferentIdentity(ctx.json, c, d);
    hide OccurrenceKey, FaceOf;
  }

  lemma SameSortKey(json: Json -> string, c: Claim, d: Claim)
    requires c == Claim(WITHOUT_PROVENANCE, CLAIM) && d == Claim(EMPTY_PROVENANCE, CLAIM)
    ensures OccurrenceKey(json, c.Evidence()) == OccurrenceKey(json, d.Evidence()) && c.Evidence() != d.Evidence()
  {
    hide Text;
    assert CopyProvenance(Some(Obj(map[]))) == Obj(map[]);
    assert c.Evidence().language == None && d.Evidence().language == Some(Number(5));
  }

  lemma DifferentIdentity(json: Json -> string, c: Claim, d: Claim)
    requires c == Claim(WITHOUT_PROVENANCE, CLAIM) && d == Claim(EMPTY_PROVENANCE, CLAIM)
    ensures c.Identity(json) != d.Identity(json)
  {
    assert c.GroupKey() == d.GroupKey();
    assert |ProvenanceKey(json, Lookup(d.record, "provenance"))| > 0 == |ProvenanceKey(json, Lookup(c.record, "provenance"))|;
    assert |c.Identity(json)| < |d.Identity(json)|;
  }

  /** Two records of one implementation and type with one claim each. */
  lemma TwoOrderly(ctx: Context, c: Claim, d: Claim)
    requires ctx.profile != Greenfield && AllClaims([Obj(c.record), Obj(d.record)]) == [c, d]
    requires Admissible(ctx, c) && Admissible(ctx, d) && c.Identity(ctx.json) != d.Identity(ctx.json)
    requires c.Implementation() == d.Implementation() && c.ImplementationType() == d.ImplementationType()
    ensures Orderly(ctx, [Obj(c.record), Obj(d.record)]) && TypesAgree([Obj(c.record), Obj(d.record)])
  {
    hide AllClaims, Admissible, Types;
    var s := [Obj(c.record), Obj(d.record)];
    FirstFixesType(Obj(c.record), [Obj(d.record)]);
    assert s == [Obj(c.record)] + [Obj(d.record)];
  }

  lemma SortsToItself<T>(le: (T, T) -> bool, x: T, y: T)
    requires le(x, y)
    ensures Sort(le, [x, y]) == [x, y]
  {
    assert [x, y][1..] == [y] && [y][1..] == [];
    assert Sort(le, [y]) == [y];
  }
}
