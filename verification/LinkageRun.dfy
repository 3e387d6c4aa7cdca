/** The linkage operation as the program runs it: nested loops over records and claims that update maps and lists. */
module LinkageRun {
  import opened Prelude
  import opened Ordering
  import opened Linkage

  function WithEntity(table: map<string, Fields>, raw: Json): map<string, Fields> {
    if raw.Obj? && Text(raw.fields, "id") != "" then table[Text(raw.fields, "id") := raw.fields] else table
  }

  /** The entities by id; of several with one id the last counts, and entities without an id do not. */
  function EntityTable(entities: seq<Json>): map<string, Fields> {
    if entities == [] then map[] else WithEntity(EntityTable(entities[..|entities| - 1]), entities[|entities| - 1])
  }

  method CollectEntities(entities: seq<Json>) returns (table: map<string, Fields>)
    ensures table == EntityTable(entities)
  {
    table := map[];
    for i := 0 to |entities|
      invariant table == EntityTable(entities[..i])
    {
      assert entities[..i + 1][..i] == entities[..i];
      if entities[i].Obj? {
        var id := Text(entities[i].fields, "id");
        if id != "" {
          table := table[id := entities[i].fields];
        }
      }
    }
    assert entities[..|entities|] == entities;
  }

  /** The last entity with the id stands at `i`. */
  ghost predicate LastNamed(entities: seq<Json>, id: string, fields: Fields, i: nat) {
    i < |entities| && entities[i] == Obj(fields) && Text(fields, "id") == id
    && forall j :: i < j < |entities| && entities[j].Obj? ==> Text(entities[j].fields, "id") != id
  }

  lemma InTheList(entities: seq<Json>, id: string, fields: Fields, i: nat)
    requires LastNamed(entities, id, fields, i)
    ensures i < |entities|
  {
  }

  /** The table, exactly: the last entity with an id that is some text. */
  lemma {:induction false} EntityTableMeans(entities: seq<Json>, id: string, fields: Fields)
    ensures id in EntityTable(entities) && EntityTable(entities)[id] == fields <==>
              id != "" && exists i: nat :: LastNamed(entities, id, fields, i)
  {
    hide Text;
    if entities != [] {
      var n := |entities| - 1;
      EntityTableMeans(entities[..n], id, fields);
      assert forall i :: 0 <= i < n ==> entities[..n][i] == entities[i];
      forall i: nat | i < n
        ensures LastNamed(entities, id, fields, i) <==>
                  LastNamed(entities[..n], id, fields, i) && (entities[n].Obj? ==> Text(entities[n].fields, "id") != id)
      {
        assert forall j :: i < j < n ==> entities[..n][j] == entities[j];
      }
      assert LastNamed(entities, id, fields, n) <==> entities[n] == Obj(fields) && Text(fields, "id") == id;
      hide LastNamed;
      if i: nat :| LastNamed(entities[..n], id, fields, i) {
        InTheList(entities[..n], id, fields, i);
        assert LastNamed(entities, id, fields, i) <==> (entities[n].Obj? ==> Text(entities[n].fields, "id") != id);
      }
      if i: nat :| LastNamed(entities, id, fields, i) {
        InTheList(entities, id, fields, i);
        assert i < n ==> LastNamed(entities[..n], id, fields, i);
      }
    }
  }

  /** The state of a run: the tally and the claims seen so far. */
  class Run {
    const ctx: Context
    var tally: Tally
    var seen: map<string, Qualifiers>
    var types: map<string, string>
    ghost var events: seq<Event>

    constructor (ctx: Context)
      ensures Valid() && this.ctx == ctx && events == [] && types == map[]
    {
      this.ctx := ctx;
      tally := Tally([], [], map[]);
      seen := map[];
      types := map[];
      events := [];
    }

    /** The tally is that of the events; `seen` has the first qualifiers of each identity. */
    ghost predicate Valid()
      reads this
    {
      tally == Settle(ctx, events)
      && forall id :: (id in seen) == Prior(ctx.json, events, id).Some? && (id in seen ==> Prior(ctx.json, events, id) == Some(seen[id]))
    }

    method Note(e: Event)
      requires Valid() && !e.Claimed?
      modifies this`tally, this`events
      ensures Valid() && events == old(events) + [e]
    {
      hide Settle, Prior;
      SettleStep(ctx, events, e);
      PriorUnchanged(ctx.json, events, e);
      tally := Settled(ctx, tally, e, false, None);
      events := events + [e];
    }

    /** One claim: its diagnostics decide between a rejection and an occurrence of a group. */
    method Consider(e: Event, repeated: bool)
      requires Valid() && e.Claimed? && repeated == SeenInRecord(events, e.at, e.claim.PairKey())
      modifies this`tally, this`events, this`seen
      ensures Valid() && events == old(events) + [e]
    {
      hide Settle, Prior, Faults, Admit;
      SettleStep(ctx, events, e);
      var c := e.claim;
      var identity := c.Identity(ctx.json);
      var prior := if identity in seen then Some(seen[identity]) else None;
      assert prior == Prior(ctx.json, events, identity);
      PriorAppend(ctx.json, events, e);
      if identity !in seen {
        seen := seen[identity := Qualifiers(c.Confidence(), c.Language())];
      }
      events := events + [e];
      var faults := Faults(ctx, e, repeated, prior);
      FaultsAreErrors(ctx, e, repeated, prior);
      FaultlessTargetExists(ctx, e, repeated, prior);
      assert faults != [] ==> faults[0].severity == Error;
      if (exists i :: 0 <= i < |faults| && faults[i].severity == Error) || c.Target() !in ctx.entities {
        assert faults != [];
        tally := Tally(tally.diagnostics + faults, tally.rejected + [(RejectionKey(ctx.json, c), RejectionOf(c, faults))],
          tally.groups);
      } else {
        assert faults == [];
        tally := Tally(tally.diagnostics + faults + Warnings(ctx, e), tally.rejected, Admit(ctx, tally.groups, e));
        assert old(tally).diagnostics + [] == old(tally).diagnostics;
      }
    }
  }

  lemma PriorUnchanged(json: Json -> string, before: seq<Event>, e: Event)
    requires !e.Claimed?
    ensures forall id :: Prior(json, before + [e], id) == Prior(json, before, id)
  {
    assert (before + [e])[..|before|] == before;
  }

  lemma PriorAppend(json: Json -> string, before: seq<Event>, e: Event)
    requires e.Claimed?
    ensures forall id :: Prior(json, before + [e], id) ==
              if Prior(json, before, id).Some? then Prior(json, before, id)
              else if id == e.claim.Identity(json) then Some(Qualifiers(e.claim.Confidence(), e.claim.Language())) else None
  {
    assert (before + [e])[..|before|] == before;
  }

  ghost predicate AllErrors(diagnostics: seq<Diagnostic>) {
    forall i :: 0 <= i < |diagnostics| ==> diagnostics[i].severity == Error
  }

  lemma FaultsAreErrors(ctx: Context, e: Event, repeated: bool, prior: Option<Qualifiers>)
    requires e.Claimed?
    ensures AllErrors(Faults(ctx, e, repeated, prior))
  {
  }

  /** The pairs that the current record has claimed. */
  ghost predicate PairsOf(pairs: set<string>, events: seq<Event>, at: nat) {
    forall pair :: pair in pairs <==> SeenInRecord(events, at, pair)
  }

  /** Every event belongs to a record before `n`. */
  ghost predicate EventsBelow(events: seq<Event>, n: nat) {
    forall j :: 0 <= j < |events| ==> events[j].at < n
  }

  lemma {:induction false} ClaimEventsAt(at: nat, record: Fields, claims: seq<Json>, previousType: string)
    ensures forall e :: e in ClaimEvents(at, record, claims, previousType) ==> e.at == at && e.Claimed?
  {
    if claims != [] {
      ClaimEventsAt(at, record, claims[..|claims| - 1], previousType);
    }
  }

  lemma RecordEventsAt(at: nat, raw: Json, types: map<string, string>)
    ensures EventsBelow(RecordEvents(at, raw, types), at + 1)
  {
    hide ClaimEvents;
    if raw.Obj? {
      var claims := ClaimEvents(at, raw.fields, ClaimsOf(raw.fields), PreviousType(types, raw.fields));
      ClaimEventsAt(at, raw.fields, ClaimsOf(raw.fields), PreviousType(types, raw.fields));
      assert forall j :: 0 <= j < |claims| ==> claims[j] in claims;
    }
  }

  lemma NothingSeen(events: seq<Event>, at: nat)
    requires EventsBelow(events, at)
    ensures PairsOf({}, events, at)
    ensures forall header: Event :: header == Unattributed(at) ==> PairsOf({}, events + [header], at)
  {
  }

  lemma PairAdded(pairs: set<string>, events: seq<Event>, e: Event)
    requires e.Claimed? && PairsOf(pairs, events, e.at)
    ensures PairsOf(pairs + {e.claim.PairKey()}, events + [e], e.at)
  {
    var after := events + [e];
    forall pair ensures SeenInRecord(after, e.at, pair) <==> SeenInRecord(events, e.at, pair) || pair == e.claim.PairKey() {
      if SeenInRecord(events, e.at, pair) {
        var i :| 0 <= i < |events| && events[i].Claimed? && events[i].at == e.at && events[i].claim.PairKey() == pair;
        assert after[i] == events[i];
      }
      if pair == e.claim.PairKey() {
        assert after[|events|] == e;
      }
    }
  }

  lemma ClaimStep(at: nat, record: Fields, claims: seq<Json>, previousType: string, i: nat)
    requires i < |claims|
    ensures ClaimEvents(at, record, claims[..i + 1], previousType)
         == ClaimEvents(at, record, claims[..i], previousType)
            + if claims[i].Obj? then [Claimed(at, i, Claim(record, claims[i].fields), previousType)] else []
  {
    assert claims[..i + 1][..i] == claims[..i];
  }

  /** One record: its claims against the type its implementation has, duplicates within it remembered. */
  method ConsiderRecord(run: Run, at: nat, record: Fields)
    requires run.Valid() && EventsBelow(run.events, at)
    modifies run
    ensures run.Valid() && run.types == TypesWith(old(run.types), record)
    ensures run.events == old(run.events) + RecordEvents(at, Obj(record), old(run.types))
  {
    hide Settle, Prior, Settled, SeenInRecord, ClaimEvents;
    var claims := ClaimsOf(record);
    NothingSeen(run.events, at);
    if claims == [] {
      run.Note(Unattributed(at));
    }
    ghost var header := run.events;
    assert header == old(run.events) + HeaderEvents(at, record);
    var id, kind := Text(record, "implementation_entity_id"), Text(record, "implementation_entity_type");
    if id !in run.types {
      run.types := run.types[id := kind];
    }
    var previousType := run.types[id];
    var pairs: set<string> := {};
    NoClaimsYet(at, record, claims, previousType);
    assert header + [] == header;
    for i := 0 to |claims|
      invariant run.Valid() && run.types == TypesWith(old(run.types), record)
      invariant run.events == header + ClaimEvents(at, record, claims[..i], previousType)
      invariant PairsOf(pairs, run.events, at)
    {
      ClaimStep(at, record, claims, previousType, i);
      ghost var so := ClaimEvents(at, record, claims[..i], previousType);
      if !claims[i].Obj? {
        assert so + [] == so;
        continue;
      }
      var e := Claimed(at, i, Claim(record, claims[i].fields), previousType);
      var pair := e.claim.PairKey();
      var repeated := pair in pairs;
      PairAdded(pairs, run.events, e);
      run.Consider(e, repeated);
      assert (header + so) + [e] == header + (so + [e]);
      pairs := pairs + {pair};
    }
    assert claims[..|claims|] == claims;
    assert run.events == old(run.events) + (HeaderEvents(at, record) + ClaimEvents(at, record, claims, previousType));
  }

  lemma NoClaimsYet(at: nat, record: Fields, claims: seq<Json>, previousType: string)
    ensures ClaimEvents(at, record, claims[..0], previousType) == []
  {
  }

  method BuildLinkage(profile: Profile, version: Version, records: seq<Json>, entities: seq<Json>, json: Json -> string)
    returns (r: Report)
    ensures r == ReportOf(json, Settle(Context(profile, version, EntityTable(entities), json), Events(records)))
  {
    var table := CollectEntities(entities);
    var run := new Run(Context(profile, version, table, json));
    hide Settle, Prior, ReportOf, Settled, SeenInRecord, RecordEvents, TypesWith;
    for i := 0 to |records|
      invariant run.Valid() && run.ctx == Context(profile, version, table, json)
      invariant run.events == Events(records[..i]) && run.types == Types(records[..i]) && EventsBelow(run.events, i)
    {
      RecordStep(records, i);
      RecordEventsAt(i, records[i], run.types);
      if !records[i].Obj? {
        BadRecordEvents(i, records[i], run.types);
        run.Note(BadRecord(i));
        continue;
      }
      ConsiderRecord(run, i, records[i].fields);
    }
    assert records[..|records|] == records;
    r := Compile(json, run.tally);
  }

  lemma BadRecordEvents(at: nat, raw: Json, types: map<string, string>)
    requires !raw.Obj?
    ensures RecordEvents(at, raw, types) == [BadRecord(at)]
  {
  }

  lemma RecordStep(records: seq<Json>, i: nat)
    requires i < |records|
    ensures Events(records[..i + 1]) == Events(records[..i]) + RecordEvents(i, records[i], Types(records[..i]))
    ensures Types(records[..i + 1])
         == if records[i].Obj? then TypesWith(Types(records[..i]), records[i].fields) else Types(records[..i])
  {
    hide RecordEvents, TypesWith;
    assert records[..i + 1][..i] == records[..i];
  }

  /** The report: links in the order of their group keys, then sorted; counts over the diagnostics. */
  method Compile(json: Json -> string, tally: Tally) returns (r: Report)
    ensures r == ReportOf(json, tally)
  {
    hide LinkOf, Sort;
    var keys := SortedKeys(tally.groups.Keys);
    var links: seq<(string, Link)> := [];
    for i := 0 to |keys|
      invariant links == KeyedLinks(json, tally.groups, keys)[..i]
    {
      links := links + [LinkOf(json, keys[i], tally.groups[keys[i]])];
    }
    assert KeyedLinks(json, tally.groups, keys)[..|keys|] == KeyedLinks(json, tally.groups, keys);
    links := Sort(KeyLe, links);
    var rejected := Sort(KeyLe, tally.rejected);
    var errors := CountSeverity(tally.diagnostics, Error);
    var warnings := CountSeverity(tally.diagnostics, Warning);
    return Report(errors == 0, Unkeyed(links), Unkeyed(rejected), tally.diagnostics, errors, warnings);
  }

  method CountSeverity(diagnostics: seq<Diagnostic>, severity: Severity) returns (count: nat)
    ensures count == CountOf(diagnostics, severity)
  {
    count := 0;
    for i := 0 to |diagnostics|
      invariant count == CountOf(diagnostics[..i], severity)
    {
      assert diagnostics[..i + 1][..i] == diagnostics[..i];
      if diagnostics[i].severity == severity {
        count := count + 1;
      }
    }
    assert diagnostics[..|diagnostics|] == diagnostics;
  }
}
