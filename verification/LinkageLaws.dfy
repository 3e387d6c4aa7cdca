/**
 * What linkage does with claims, over whole runs: every claim is rejected once or is one occurrence of one
 * link, and what is accepted is sound.
 */
module LinkageLaws {
  import opened Prelude
  import opened Ordering
  import opened Grouping
  import opened Linkage

  function ClaimsIn(events: seq<Event>): (claims: seq<Event>)
    ensures forall e :: e in claims ==> e.Claimed?
  {
    if events == [] then [] else
    var last := events[|events| - 1];
    ClaimsIn(events[..|events| - 1]) + if last.Claimed? then [last] else []
  }

  /** The claims without a fault, given the events before each of them. */
  ghost function Accepted(ctx: Context, events: seq<Event>): (claims: seq<Event>)
    ensures forall e :: e in claims ==> e.Claimed? && e in events && e.claim.Target() in ctx.entities
  {
    if events == [] then [] else
    var before, last := events[..|events| - 1], events[|events| - 1];
    if last.Claimed? then
      FaultlessTargetExists(ctx, last, SeenInRecord(before, last.at, last.claim.PairKey()),
        Prior(ctx.json, before, last.claim.Identity(ctx.json)));
      Accepted(ctx, before) + if FaultsAfter(ctx, before, last) == [] then [last] else []
    else Accepted(ctx, before)
  }

  ghost function Refused(ctx: Context, events: seq<Event>): (claims: seq<Event>)
    ensures forall e :: e in claims ==> e.Claimed? && e in events
  {
    if events == [] then [] else
    var before, last := events[..|events| - 1], events[|events| - 1];
    Refused(ctx, before) + if last.Claimed? && FaultsAfter(ctx, before, last) != [] then [last] else []
  }

  lemma {:induction false} EachClaimOnce(ctx: Context, events: seq<Event>)
    ensures multiset(Accepted(ctx, events)) + multiset(Refused(ctx, events)) == multiset(ClaimsIn(events))
  {
    hide FaultsAfter;
    if events != [] {
      EachClaimOnce(ctx, events[..|events| - 1]);
    }
  }

  /* ---------- rejected claims ---------- */

  ghost predicate Reports(json: Json -> string, pair: (string, Rejection), e: Event) {
    e.Claimed? && pair == (RejectionKey(json, e.claim), RejectionOf(e.claim, pair.1.diagnostics)) && pair.1.diagnostics != []
  }

  ghost predicate AllReported(json: Json -> string, rejected: seq<(string, Rejection)>, refused: seq<Event>) {
    |rejected| == |refused| && forall i :: 0 <= i < |refused| ==> Reports(json, rejected[i], refused[i])
  }

  lemma NothingReported(ctx: Context)
    ensures AllReported(ctx.json, Settle(ctx, []).rejected, Refused(ctx, []))
  {
  }

  lemma {:induction false} RefusedAreReported(ctx: Context, events: seq<Event>)
    ensures AllReported(ctx.json, Settle(ctx, events).rejected, Refused(ctx, events))
  {
    hide *;
    if events == [] {
      NothingReported(ctx);
    } else {
      var before, last := events[..|events| - 1], events[|events| - 1];
      RefusedAreReported(ctx, before);
      assert events == before + [last];
      RefusalStep(ctx, before, last);
      var rejected, refused := Settle(ctx, before).rejected, Refused(ctx, before);
      if last.Claimed? && FaultsAfter(ctx, before, last) != [] {
        ReportedAppend(ctx.json, rejected, refused, last, FaultsAfter(ctx, before, last));
      } else {
        assert rejected + [] == rejected && refused + [] == refused;
      }
    }
  }

  lemma ReportedAppend(
      json: Json -> string, rejected: seq<(string, Rejection)>, refused: seq<Event>, e: Event, faults: seq<Diagnostic>)
    requires AllReported(json, rejected, refused) && e.Claimed? && faults != []
    ensures AllReported(json, rejected + [(RejectionKey(json, e.claim), RejectionOf(e.claim, faults))], refused + [e])
  {
    hide RejectionKey;
  }

  lemma RefusalStep(ctx: Context, before: seq<Event>, e: Event)
    ensures var faults := if e.Claimed? then FaultsAfter(ctx, before, e) else [];
            && Refused(ctx, before + [e]) == Refused(ctx, before) + (if faults != [] then [e] else [])
            && Settle(ctx, before + [e]).rejected == Settle(ctx, before).rejected
               + (if faults != [] then [(RejectionKey(ctx.json, e.claim), RejectionOf(e.claim, faults))] else [])
  {
    hide Faults, RejectionKey, RejectionOf, Admit, Warnings, SeenInRecord, Prior;
    assert (before + [e])[..|before|] == before;
    var rejected := Settle(ctx, before).rejected;
    assert rejected + [] == rejected;
    hide Settle;
    SettleStep(ctx, before, e);
  }

  /* ---------- groups ---------- */

  function EventKey(e: Event): string {
    if e.Claimed? then e.claim.GroupKey() else ""
  }

  function EvidenceOf(e: Event): Occurrence {
    if e.Claimed? then e.claim.Evidence() else Occurrence("", Null, None)
  }

  ghost predicate FadingTarget(ctx: Context, e: Event) {
    e.Claimed? && e.claim.Target() in ctx.entities && Fading(ctx.entities[e.claim.Target()])
  }

  /** A group holds the evidence of its claims, in order, and is described by the first of them. */
  ghost predicate Holds(ctx: Context, group: Group, claims: seq<Event>) {
    claims != []
    && group.occurrences == Map(EvidenceOf, claims)
    && claims[0].Claimed? && claims[0].claim.Target() in ctx.entities
    && group.implementationType == claims[0].claim.ImplementationType()
    && group.entity == ctx.entities[claims[0].claim.Target()]
    && (group.warnings == [] <==> Lasting(ctx, claims))
  }

  ghost predicate Lasting(ctx: Context, claims: seq<Event>) {
    forall e :: e in claims ==> !FadingTarget(ctx, e)
  }

  lemma LastingAppend(ctx: Context, claims: seq<Event>, e: Event)
    ensures Lasting(ctx, claims + [e]) <==> Lasting(ctx, claims) && !FadingTarget(ctx, e)
  {
    assert forall x :: x in claims + [e] <==> x in claims || x == e;
  }

  lemma {:induction false} AcceptedAreGrouped(ctx: Context, events: seq<Event>, k: string)
    ensures var groups, claims := Settle(ctx, events).groups, Having(EventKey, k, Accepted(ctx, events));
            && (k in groups <==> claims != []) && (k in groups ==> Holds(ctx, groups[k], claims))
  {
    if events != [] {
      var before, last := events[..|events| - 1], events[|events| - 1];
      AcceptedAreGrouped(ctx, before, k);
      assert events == before + [last];
      SettleStep(ctx, before, last);
      if last.Claimed? && FaultsAfter(ctx, before, last) == [] {
        hide Faults, Settle, SeenInRecord, Prior, Warnings, Fading;
        HavingStep(EventKey, k, Accepted(ctx, before), last);
        FaultlessTargetExists(ctx, last, SeenInRecord(before, last.at, last.claim.PairKey()),
          Prior(ctx.json, before, last.claim.Identity(ctx.json)));
        AdmitGrows(ctx, Settle(ctx, before).groups, Having(EventKey, k, Accepted(ctx, before)), last, k);
      } else {
        hide Faults, Accepted, Having, Holds;
        SameAccepted(ctx, before, last);
      }
    }
  }

  lemma SameAccepted(ctx: Context, before: seq<Event>, e: Event)
    requires !e.Claimed? || FaultsAfter(ctx, before, e) != []
    ensures Accepted(ctx, before + [e]) == Accepted(ctx, before)
    ensures Settle(ctx, before + [e]).groups == Settle(ctx, before).groups
  {
    hide Faults, Admit, Warnings;
    assert (before + [e])[..|before|] == before;
    assert Accepted(ctx, before) + [] == Accepted(ctx, before);
  }

  /** Admitting a claim appends its evidence to its own group and leaves the others alone. */
  lemma AdmitGrows(ctx: Context, groups: map<string, Group>, claims: seq<Event>, e: Event, k: string)
    requires e.Claimed? && e.claim.Target() in ctx.entities
    requires (k in groups <==> claims != []) && (k in groups ==> Holds(ctx, groups[k], claims))
    ensures var after, more := Admit(ctx, groups, e), claims + if EventKey(e) == k then [e] else [];
            && (k in after <==> more != []) && (k in after ==> Holds(ctx, after[k], more))
  {
    if EventKey(e) == k {
      var more := claims + [e];
      assert Map(EvidenceOf, more) == Map(EvidenceOf, claims) + [EvidenceOf(e)];
      LastingAppend(ctx, claims, e);
      assert Lasting(ctx, []);
      assert claims == [] ==> more == [e];
      hide Lasting, FadingTarget;
    } else {
      assert claims + [] == claims;
    }
  }

  /* ---------- the report ---------- */

  function EvidenceIn(link: Link): seq<Occurrence> {
    link.occurrences
  }

  lemma UnkeyedIsMap<T>(pairs: seq<(string, T)>)
    ensures Unkeyed(pairs) == Map((p: (string, T)) => p.1, pairs)
  {
  }

  lemma UnkeyedPermuted<T>(s: seq<(string, T)>, t: seq<(string, T)>)
    requires multiset(s) == multiset(t)
    ensures multiset(Unkeyed(s)) == multiset(Unkeyed(t))
  {
    UnkeyedIsMap(s);
    UnkeyedIsMap(t);
    MapPermuted((p: (string, T)) => p.1, s, t);
  }

  /** The claims of each group, key by key. */
  ghost function Regrouped(ctx: Context, events: seq<Event>, keys: seq<string>): seq<Event> {
    Gather(k => Having(EventKey, k, Accepted(ctx, events)), keys)
  }

  lemma RegroupedStep(ctx: Context, events: seq<Event>, keys: seq<string>, k: string)
    ensures Regrouped(ctx, events, keys + [k]) == Regrouped(ctx, events, keys) + Having(EventKey, k, Accepted(ctx, events))
  {
    GatherStep(k => Having(EventKey, k, Accepted(ctx, events)), keys, k);
  }

  lemma KeyedLinksStep(json: Json -> string, groups: map<string, Group>, keys: seq<string>, k: string)
    requires k in groups && forall x :: x in keys ==> x in groups
    ensures (forall x :: x in keys + [k] ==> x in groups)
    ensures Gather(EvidenceIn, Unkeyed(KeyedLinks(json, groups, keys + [k])))
         == Gather(EvidenceIn, Unkeyed(KeyedLinks(json, groups, keys))) + LinkOf(json, k, groups[k]).1.occurrences
  {
    hide LinkOf;
    var link := LinkOf(json, k, groups[k]).1;
    assert Unkeyed(KeyedLinks(json, groups, keys + [k])) == Unkeyed(KeyedLinks(json, groups, keys)) + [link];
    GatherStep(EvidenceIn, Unkeyed(KeyedLinks(json, groups, keys)), link);
  }

  lemma LinkKeepsEvidence(json: Json -> string, k: string, group: Group)
    ensures multiset(LinkOf(json, k, group).1.occurrences) == multiset(group.occurrences)
  {
  }

  /** The evidence of the links before they are sorted. */
  lemma {:induction false} LinksGather(ctx: Context, events: seq<Event>, keys: seq<string>)
    requires forall k :: k in keys ==> k in Settle(ctx, events).groups
    ensures multiset(Gather(EvidenceIn, Unkeyed(KeyedLinks(ctx.json, Settle(ctx, events).groups, keys))))
         == multiset(Map(EvidenceOf, Regrouped(ctx, events, keys)))
  {
    hide Settle, Accepted, Having, KeyedLinks, LinkOf, EvidenceOf;
    if keys == [] {
      NoLinks(ctx, events);
    } else {
      hide Gather, Unkeyed, Map, Regrouped;
      var groups, init, k := Settle(ctx, events).groups, keys[..|keys| - 1], keys[|keys| - 1];
      assert keys == init + [k];
      LinksGather(ctx, events, init);
      AcceptedAreGrouped(ctx, events, k);
      KeyedLinksStep(ctx.json, groups, init, k);
      RegroupedStep(ctx, events, init, k);
      LinkKeepsEvidence(ctx.json, k, groups[k]);
      MapConcat(EvidenceOf, Regrouped(ctx, events, init), Having(EventKey, k, Accepted(ctx, events)));
    }
  }

  lemma NoLinks(ctx: Context, events: seq<Event>)
    ensures Gather(EvidenceIn, Unkeyed(KeyedLinks(ctx.json, Settle(ctx, events).groups, []))) == []
    ensures Map(EvidenceOf, Regrouped(ctx, events, [])) == []
  {
    hide Settle, Accepted;
  }

  lemma MapConcat<S, T>(f: S -> T, s: seq<S>, t: seq<S>)
    ensures Map(f, s + t) == Map(f, s) + Map(f, t)
  {
  }

  /**
   * Conservation.  Every claim object is either refused or accepted, once; the rejected claims of the
   * report are those of the refused ones, and the occurrences of all links together are the evidence of
   * the accepted ones, none missing, none twice.
   */
  lemma ClaimsAreConserved(ctx: Context, records: seq<Json>)
    ensures var events := Events(records);
            var accepted, refused, r := Accepted(ctx, events), Refused(ctx, events), ReportOf(ctx.json, Settle(ctx, events));
            && multiset(accepted) + multiset(refused) == multiset(ClaimsIn(events))
            && multiset(r.rejected) == multiset(Unkeyed(Settle(ctx, events).rejected)) && |r.rejected| == |refused|
            && multiset(Gather(EvidenceIn, r.links)) == multiset(Map(EvidenceOf, accepted))
            && |r.rejected| + |Gather(EvidenceIn, r.links)| == |ClaimsIn(events)|
  {
    hide Settle, Accepted, Refused, Events, LinkOf;
    var events := Events(records);
    var t, accepted := Settle(ctx, events), Accepted(ctx, events);
    EachClaimOnce(ctx, events);
    RefusedAreReported(ctx, events);
    UnkeyedPermuted(Sort(KeyLe, t.rejected), t.rejected);
    var keys := SortedKeys(t.groups.Keys);
    var pairs := KeyedLinks(ctx.json, t.groups, keys);
    UnkeyedPermuted(Sort(KeyLe, pairs), pairs);
    GatherPermuted(EvidenceIn, Unkeyed(Sort(KeyLe, pairs)), Unkeyed(pairs));
    LinksGather(ctx, events, keys);
    forall e | e in accepted ensures EventKey(e) in keys {
      HavingMembers(EventKey, EventKey(e), accepted, e);
      AcceptedAreGrouped(ctx, events, EventKey(e));
    }
    RegroupPermutes(EventKey, keys, accepted);
    assert multiset(Regrouped(ctx, events, keys)) == multiset(accepted);
    MapPermuted(EvidenceOf, Regrouped(ctx, events, keys), accepted);
    Sizes(ctx, events, ReportOf(ctx.json, t));
  }

  lemma Sizes(ctx: Context, events: seq<Event>, r: Report)
    requires multiset(Accepted(ctx, events)) + multiset(Refused(ctx, events)) == multiset(ClaimsIn(events))
    requires multiset(Gather(EvidenceIn, r.links)) == multiset(Map(EvidenceOf, Accepted(ctx, events)))
    requires |r.rejected| == |Refused(ctx, events)|
    ensures |r.rejected| + |Gather(EvidenceIn, r.links)| == |ClaimsIn(events)|
  {
    hide Accepted, Refused, ClaimsIn, Gather;
    var a, b, c := Accepted(ctx, events), Refused(ctx, events), ClaimsIn(events);
    assert |multiset(a)| == |a| && |multiset(b)| == |b| && |multiset(c)| == |c|;
    assert |multiset(a) + multiset(b)| == |a| + |b|;
    assert |multiset(Gather(EvidenceIn, r.links))| == |multiset(Map(EvidenceOf, a))| == |a|;
  }
}
