/** Entities of the mbus server, filters, and the sequence-numbered change feed. */
module Mbus {

  // ---- Entities and filters ----

  datatype Item = StringItem(value: string) | ArrayItem(items: seq<Item>)

  datatype Entity = Entity(id: nat, sequence: nat, name: string, properties: map<string, Item>)

  datatype Filter =
    | Equals(path: string, value: Item)
    | Conjunction(operands: seq<Filter>)
    | Disjunction(operands: seq<Filter>)

  predicate Matches(properties: map<string, Item>, filter: Filter) {
    match filter
    case Equals(path, value) => path in properties && value.StringItem? && properties[path] == value
    case Conjunction(operands) => forall k :: 0 <= k < |operands| ==> Matches(properties, operands[k])
    case Disjunction(operands) => exists k :: 0 <= k < |operands| && Matches(properties, operands[k])
  }

  // ---- What filters mean ----

  /** Properties with the values that an entity has to have. */
  type Clause = set<(string, Item)>

  ghost predicate Has(properties: map<string, Item>, clause: Clause) {
    forall pair :: pair in clause ==> pair.0 in properties && properties[pair.0] == pair.1
  }

  ghost predicate HasSome(properties: map<string, Item>, clauses: set<Clause>) {
    exists clause :: clause in clauses && Has(properties, clause)
  }

  ghost function Merged(a: set<Clause>, b: set<Clause>): set<Clause> {
    set x, y | x in a && y in b :: x + y
  }

  /** The disjunctive normal form of a filter; only strings can be compared. */
  ghost function Clauses(filter: Filter): set<Clause>
    decreases filter, 0
  {
    match filter
    case Equals(path, value) => if value.StringItem? then {{(path, value)}} else {}
    case Conjunction(operands) => AllMerged(operands)
    case Disjunction(operands) => AllUnited(operands)
  }

  ghost function AllMerged(filters: seq<Filter>): set<Clause>
    decreases filters
  {
    if filters == [] then {{}} else Merged(Clauses(filters[0]), AllMerged(filters[1..]))
  }

  ghost function AllUnited(filters: seq<Filter>): set<Clause>
    decreases filters
  {
    if filters == [] then {} else Clauses(filters[0]) + AllUnited(filters[1..])
  }

  lemma HasMerged(properties: map<string, Item>, a: set<Clause>, b: set<Clause>)
    ensures HasSome(properties, Merged(a, b)) <==> HasSome(properties, a) && HasSome(properties, b)
  {
    if HasSome(properties, a) && HasSome(properties, b) {
      var x, y :| x in a && Has(properties, x) && y in b && Has(properties, y);
      assert x + y in Merged(a, b) && Has(properties, x + y);
    }
    if HasSome(properties, Merged(a, b)) {
      var clause :| clause in Merged(a, b) && Has(properties, clause);
      var x, y :| x in a && y in b && clause == x + y;
      assert Has(properties, x) && Has(properties, y);
    }
  }

  /** An entity matches a filter exactly if it has all properties of some clause of the normal form. */
  lemma {:induction false} MatchesIffHasClause(properties: map<string, Item>, filter: Filter)
    ensures Matches(properties, filter) <==> HasSome(properties, Clauses(filter))
    decreases filter, 0
  {
    match filter
    case Equals(path, value) =>
      if value.StringItem? {
        assert Clauses(filter) == {{(path, value)}} && {(path, value)} in Clauses(filter);
        assert Has(properties, {(path, value)}) <==> path in properties && properties[path] == value;
      }
    case Conjunction(operands) => MatchesAll(properties, operands);
    case Disjunction(operands) => MatchesAny(properties, operands);
  }

  lemma {:induction false} MatchesAll(properties: map<string, Item>, filters: seq<Filter>)
    ensures (forall k :: 0 <= k < |filters| ==> Matches(properties, filters[k])) <==>
            HasSome(properties, AllMerged(filters))
    decreases filters
  {
    if filters == [] {
      assert {} in AllMerged(filters) && Has(properties, {});
    } else {
      MatchesIffHasClause(properties, filters[0]);
      MatchesAll(properties, filters[1..]);
      HasMerged(properties, Clauses(filters[0]), AllMerged(filters[1..]));
      assert forall k :: 0 < k < |filters| ==> filters[k] == filters[1..][k - 1];
      assert forall k :: 0 <= k < |filters[1..]| ==> filters[1..][k] == filters[k + 1];
    }
  }

  lemma {:induction false} MatchesAny(properties: map<string, Item>, filters: seq<Filter>)
    ensures (exists k :: 0 <= k < |filters| && Matches(properties, filters[k])) <==>
            HasSome(properties, AllUnited(filters))
    decreases filters
  {
    if filters != [] {
      MatchesIffHasClause(properties, filters[0]);
      MatchesAny(properties, filters[1..]);
      assert forall k :: 0 < k < |filters| ==> filters[k] == filters[1..][k - 1];
      assert forall k :: 0 <= k < |filters[1..]| ==> filters[1..][k] == filters[k + 1];
    }
  }

  /** Empty and concatenated operand lists. */
  lemma OperandLaws(properties: map<string, Item>, a: seq<Filter>, b: seq<Filter>)
    ensures Matches(properties, Conjunction([])) && !Matches(properties, Disjunction([]))
    ensures Matches(properties, Conjunction(a + b)) <==>
            Matches(properties, Conjunction(a)) && Matches(properties, Conjunction(b))
    ensures Matches(properties, Disjunction(a + b)) <==>
            Matches(properties, Disjunction(a)) || Matches(properties, Disjunction(b))
  {
    forall k | 0 <= k < |a| ensures (a + b)[k] == a[k] {}
    forall k | 0 <= k < |b| ensures (a + b)[|a| + k] == b[k] {}
    assert forall k :: |a| <= k < |a + b| ==> (a + b)[k] == b[k - |a|];
  }

  // ---- Updates of properties ----

  /** updateProperty() for each new property: emplace() leaves existing keys alone. */
  function Emplace(properties: map<string, Item>, updates: map<string, Item>): (r: map<string, Item>)
    ensures forall key :: key in properties ==> key in r && r[key] == properties[key]
    ensures forall key :: key in updates ==> key in r && (key !in properties ==> r[key] == updates[key])
    ensures r.Keys == properties.Keys + updates.Keys
  {
    updates + properties
  }

  // ---- The bus ----

  /**
   The server: the sequence that globalSeq will hand out next, the next entity ID, and
   all entities in the order of their sequences.
   */
  datatype Bus = Bus(current: nat, nextId: nat, entities: seq<Entity>)

  ghost predicate Ascending(entities: seq<Entity>) {
    forall i, j :: 0 <= i < j < |entities| ==> entities[i].sequence < entities[j].sequence
  }

  ghost predicate BusOk(bus: Bus) {
    && Ascending(bus.entities)
    && (forall i :: 0 <= i < |bus.entities| ==>
          bus.entities[i].sequence < bus.current && bus.entities[i].id < bus.nextId)
    && (forall i, j :: 0 <= i < j < |bus.entities| ==> bus.entities[i].id != bus.entities[j].id)
  }

  /** CreateObjectRequest: the new entity gets the current sequence, then the sequence is raised. */
  function Create(bus: Bus, name: string, properties: map<string, Item>): Bus {
    Bus(bus.current + 1, bus.nextId + 1, bus.entities + [Entity(bus.nextId, bus.current, name, properties)])
  }

  /** UpdatePropertiesRequest for the entity at position k: it moves to the current sequence. */
  function Update(bus: Bus, k: nat, updates: map<string, Item>): Bus
    requires k < |bus.entities|
  {
    var e := bus.entities[k];
    Bus(bus.current + 1, bus.nextId,
        bus.entities[..k] + bus.entities[k + 1..]
        + [e.(sequence := bus.current, properties := Emplace(e.properties, updates))])
  }

  // ---- What an update changes ----

  /** An update takes effect exactly for properties that are new, or already have the value. */
  lemma UpdateTakesEffectIff(properties: map<string, Item>, updates: map<string, Item>, key: string)
    requires key in updates
    ensures Emplace(properties, updates)[key] == updates[key] <==> key !in properties || properties[key] == updates[key]
  {
    if key in properties { assert Emplace(properties, updates)[key] == properties[key]; }
  }

  /** Filters know no negation and emplace() never overwrites: what matches once matches forever. */
  lemma {:induction false} UpdatesKeepMatches(properties: map<string, Item>, updates: map<string, Item>, filter: Filter)
    requires Matches(properties, filter)
    ensures Matches(Emplace(properties, updates), filter)
    decreases filter
  {
    match filter
    case Equals(_, _) =>
    case Conjunction(operands) =>
      forall k | 0 <= k < |operands| ensures Matches(Emplace(properties, updates), operands[k]) {
        UpdatesKeepMatches(properties, updates, operands[k]);
      }
    case Disjunction(operands) =>
      var k :| 0 <= k < |operands| && Matches(properties, operands[k]);
      UpdatesKeepMatches(properties, updates, operands[k]);
  }

  /** After an update that changes a property, the entity still matches its old value and not the new one. */
  lemma UpdateCanBeLost(key: string, before: string, after: string)
    requires before != after
    ensures var bus := Create(Bus(0, 1, []), "", map[key := StringItem(before)]);
            && |bus.entities| == 1
            && var e := Update(bus, 0, map[key := StringItem(after)]).entities[0];
               && Matches(e.properties, Equals(key, StringItem(before)))
               && !Matches(e.properties, Equals(key, StringItem(after)))
  {
    var was, update := map[key := StringItem(before)], map[key := StringItem(after)];
    UpdateTakesEffectIff(was, update, key);
    UpdatesKeepMatches(was, update, Equals(key, StringItem(before)));
  }

  // ---- Enumeration ----

  const MAX_ENTITIES: nat := 16

  /** The entities at or above the sequence that match, in order. */
  function MatchesFrom(entities: seq<Entity>, from: nat, filter: Filter): seq<Entity> {
    if entities == [] then []
    else
      var e := entities[0];
      (if e.sequence >= from && Matches(e.properties, filter) then [e] else [])
      + MatchesFrom(entities[1..], from, filter)
  }

  lemma {:induction false} MatchesFromIn(entities: seq<Entity>, from: nat, filter: Filter, e: Entity)
    ensures e in MatchesFrom(entities, from, filter) <==>
            e in entities && e.sequence >= from && Matches(e.properties, filter)
    decreases |entities|
  {
    if entities != [] {
      assert entities == [entities[0]] + entities[1..];
      MatchesFromIn(entities[1..], from, filter, e);
    }
  }

  lemma {:induction false} MatchesFromAscends(entities: seq<Entity>, from: nat, filter: Filter)
    requires Ascending(entities)
    ensures Ascending(MatchesFrom(entities, from, filter))
    decreases |entities|
  {
    if entities != [] {
      var rest := MatchesFrom(entities[1..], from, filter);
      MatchesFromAscends(entities[1..], from, filter);
      forall i | 0 <= i < |rest| ensures entities[0].sequence < rest[i].sequence {
        MatchesFromIn(entities[1..], from, filter, rest[i]);
        assert rest[i] in entities[1..];
      }
    }
  }

  /** What one tryEnumerate() returns: at most MAX_ENTITIES matches, and where to resume. */
  function Page(bus: Bus, from: nat, filter: Filter): (seq<Entity>, nat) {
    var found := MatchesFrom(bus.entities, from, filter);
    if |found| < MAX_ENTITIES then (found, bus.current)
    else (found[..MAX_ENTITIES], found[MAX_ENTITIES - 1].sequence + 1)
  }

  // ---- A client among other clients ----

  /** A client that always resumes at out_seq, and all that it was sent. */
  datatype Client = Client(filter: Filter, cursor: nat, seen: seq<Entity>)

  datatype Step =
    | CreateObject(name: string, properties: map<string, Item>)
    | UpdateProperties(k: nat, updates: map<string, Item>)
    | Enumerate

  predicate Enabled(bus: Bus, client: Client, step: Step) {
    match step
    case CreateObject(_, _) => true
    case UpdateProperties(k, _) => k < |bus.entities|
    case Enumerate => client.cursor < bus.current // async_wait() returns
  }

  function Next(bus: Bus, client: Client, step: Step): (Bus, Client)
    requires Enabled(bus, client, step)
  {
    match step
    case CreateObject(name, properties) => (Create(bus, name, properties), client)
    case UpdateProperties(k, updates) => (Update(bus, k, updates), client)
    case Enumerate =>
      var (page, outSeq) := Page(bus, client.cursor, client.filter);
      (bus, client.(cursor := outSeq, seen := client.seen + page))
  }

  ghost predicate IsRun(bus: Bus, client: Client, steps: seq<Step>)
    decreases |steps|
  {
    steps != [] ==>
      && Enabled(bus, client, steps[0])
      && var (bus', client') := Next(bus, client, steps[0]); IsRun(bus', client', steps[1..])
  }

  ghost function After(bus: Bus, client: Client, steps: seq<Step>): (Bus, Client)
    requires IsRun(bus, client, steps)
    decreases |steps|
  {
    if steps == [] then (bus, client)
    else
      var (bus', client') := Next(bus, client, steps[0]);
      After(bus', client', steps[1..])
  }

  /** The client saw only matches, each version once and in order, and every current match below its cursor. */
  ghost predicate UpToDate(bus: Bus, client: Client) {
    && client.cursor <= bus.current && Ascending(client.seen)
    && (forall i :: 0 <= i < |client.seen| ==>
          client.seen[i].sequence < client.cursor && Matches(client.seen[i].properties, client.filter))
    && (forall e :: e in bus.entities && Matches(e.properties, client.filter) && e.sequence < client.cursor ==>
          e in client.seen)
  }

  lemma CreateKeeps(bus: Bus, name: string, properties: map<string, Item>)
    requires BusOk(bus)
    ensures BusOk(Create(bus, name, properties))
  {
  }

  lemma UpdateKeeps(bus: Bus, k: nat, updates: map<string, Item>)
    requires BusOk(bus) && k < |bus.entities|
    ensures BusOk(Update(bus, k, updates))
  {
    RemovedKeeps(bus, k);
    var rest := bus.entities[..k] + bus.entities[k + 1..];
    assert Update(bus, k, updates).entities[..|rest|] == rest;
    forall i | 0 <= i < |rest| ensures rest[i].id != bus.entities[k].id {
      assert rest[i] == bus.entities[if i < k then i else i + 1];
    }
  }

  lemma RemovedKeeps(bus: Bus, k: nat)
    requires BusOk(bus) && k < |bus.entities|
    ensures BusOk(bus.(entities := bus.entities[..k] + bus.entities[k + 1..]))
  {
    var rest := bus.entities[..k] + bus.entities[k + 1..];
    assert forall i :: 0 <= i < |rest| ==> rest[i] == bus.entities[if i < k then i else i + 1];
  }

  lemma FoundFacts(bus: Bus, from: nat, filter: Filter, found: seq<Entity>)
    requires BusOk(bus) && found == MatchesFrom(bus.entities, from, filter)
    ensures Ascending(found)
    ensures forall i :: 0 <= i < |found| ==>
              from <= found[i].sequence < bus.current && Matches(found[i].properties, filter)
  {
    MatchesFromAscends(bus.entities, from, filter);
    forall i | 0 <= i < |found|
      ensures from <= found[i].sequence < bus.current && Matches(found[i].properties, filter)
    {
      MatchesFromIn(bus.entities, from, filter, found[i]);
      assert found[i] in bus.entities;
    }
  }

  /** A page holds every match between the cursor and where the client resumes. */
  lemma PageIsComplete(bus: Bus, from: nat, filter: Filter, e: Entity)
    requires BusOk(bus) && e in bus.entities && Matches(e.properties, filter)
    requires from <= e.sequence < Page(bus, from, filter).1
    ensures e in Page(bus, from, filter).0
  {
    var found := MatchesFrom(bus.entities, from, filter);
    FoundFacts(bus, from, filter, found);
    MatchesFromIn(bus.entities, from, filter, e);
    var i :| 0 <= i < |found| && found[i] == e;
    if |found| >= MAX_ENTITIES {
      assert i < MAX_ENTITIES;
      assert found[..MAX_ENTITIES][i] == e;
    }
  }

  /** A page is full, or there is nothing more to wait for. */
  lemma PageIsFull(bus: Bus, from: nat, filter: Filter)
    ensures |Page(bus, from, filter).0| <= MAX_ENTITIES
    ensures |Page(bus, from, filter).0| < MAX_ENTITIES ==> Page(bus, from, filter).1 == bus.current
  {
  }

  lemma PageAscends(bus: Bus, from: nat, filter: Filter)
    requires BusOk(bus) && from < bus.current
    ensures var (page, outSeq) := Page(bus, from, filter);
            && from < outSeq <= bus.current && Ascending(page)
            && forall i :: 0 <= i < |page| ==> from <= page[i].sequence < outSeq && Matches(page[i].properties, filter)
  {
    FoundFacts(bus, from, filter, MatchesFrom(bus.entities, from, filter));
  }

  lemma EnumerateKeeps(bus: Bus, client: Client)
    requires BusOk(bus) && UpToDate(bus, client) && client.cursor < bus.current
    ensures UpToDate(bus, Next(bus, client, Enumerate).1)
    ensures client.cursor < Next(bus, client, Enumerate).1.cursor
  {
    var client' := Next(bus, client, Enumerate).1;
    PageAscends(bus, client.cursor, client.filter);
    forall e | e in bus.entities && Matches(e.properties, client.filter) && e.sequence < client'.cursor
      ensures e in client'.seen
    {
      if e.sequence >= client.cursor { PageIsComplete(bus, client.cursor, client.filter, e); }
    }
  }

  lemma StepKeeps(bus: Bus, client: Client, step: Step)
    requires BusOk(bus) && UpToDate(bus, client) && Enabled(bus, client, step)
    ensures BusOk(Next(bus, client, step).0) && UpToDate(Next(bus, client, step).0, Next(bus, client, step).1)
  {
    match step
    case CreateObject(name, properties) => CreateKeeps(bus, name, properties);
    case UpdateProperties(k, updates) => UpdateKeeps(bus, k, updates);
    case Enumerate => EnumerateKeeps(bus, client);
  }

  /** Whatever the other clients create and update in between, the client misses no version below its cursor. */
  lemma {:induction false} RunKeeps(bus: Bus, client: Client, steps: seq<Step>)
    requires BusOk(bus) && UpToDate(bus, client) && IsRun(bus, client, steps)
    ensures BusOk(After(bus, client, steps).0)
    ensures UpToDate(After(bus, client, steps).0, After(bus, client, steps).1)
    decreases |steps|
  {
    if steps != [] {
      StepKeeps(bus, client, steps[0]);
      var (bus', client') := Next(bus, client, steps[0]);
      RunKeeps(bus', client', steps[1..]);
    }
  }

  /** A new client that has caught up has seen the current version of every match, each version once. */
  lemma CaughtUpClientSawAll(bus: Bus, filter: Filter, steps: seq<Step>, e: Entity)
    requires BusOk(bus) && IsRun(bus, Client(filter, 0, []), steps)
    requires After(bus, Client(filter, 0, []), steps).1.cursor == After(bus, Client(filter, 0, []), steps).0.current
    requires e in After(bus, Client(filter, 0, []), steps).0.entities && Matches(e.properties, filter)
    ensures e in After(bus, Client(filter, 0, []), steps).1.seen
    ensures Ascending(After(bus, Client(filter, 0, []), steps).1.seen)
  {
    RunKeeps(bus, Client(filter, 0, []), steps);
    RunKeepsFilter(bus, Client(filter, 0, []), steps);
    assert BusOk(After(bus, Client(filter, 0, []), steps).0);
  }

  lemma {:induction false} RunKeepsFilter(bus: Bus, client: Client, steps: seq<Step>)
    requires IsRun(bus, client, steps)
    ensures After(bus, client, steps).1.filter == client.filter
    decreases |steps|
  {
    if steps != [] {
      var (bus', client') := Next(bus, client, steps[0]);
      RunKeepsFilter(bus', client', steps[1..]);
    }
  }

  // ---- A client that catches up ----

  /** The client asks for pages until there is nothing to wait for. */
  ghost function CatchUp(bus: Bus, client: Client): (client': Client)
    requires BusOk(bus) && UpToDate(bus, client)
    ensures UpToDate(bus, client') && client'.cursor == bus.current && client'.filter == client.filter
    ensures client.seen <= client'.seen
    decreases bus.current - client.cursor
  {
    if client.cursor == bus.current then client
    else
      EnumerateKeeps(bus, client);
      CatchUp(bus, Next(bus, client, Enumerate).1)
  }

  /** An object that is created is seen by every client whose filter it matches, with what it was created with. */
  lemma CreatedIsSeen(bus: Bus, client: Client, name: string, properties: map<string, Item>)
    requires BusOk(bus) && UpToDate(bus, client) && Matches(properties, client.filter)
    ensures var bus' := Create(bus, name, properties);
            && BusOk(bus') && UpToDate(bus', client)
            && exists e :: e in CatchUp(bus', client).seen && e !in client.seen
                           && e.id == bus.nextId && e.name == name && e.properties == properties
  {
    var bus' := Create(bus, name, properties);
    CreateKeeps(bus, name, properties);
    var e := bus'.entities[|bus.entities|];
    assert e in bus'.entities && Matches(e.properties, client.filter);
    assert e in CatchUp(bus', client).seen;
  }

  /** The same entity with all its old properties and the new ones. */
  ghost predicate IsUpdate(e: Entity, updates: map<string, Item>, e': Entity) {
    && e'.id == e.id && e'.name == e.name && e'.properties.Keys == e.properties.Keys + updates.Keys
    && (forall key :: key in e.properties ==> e'.properties[key] == e.properties[key])
    && (forall key :: key in updates && key !in e.properties ==> e'.properties[key] == updates[key])
  }

  /** An update changes one entity, which moves to the newest sequence. */
  lemma UpdateChangesOne(bus: Bus, k: nat, updates: map<string, Item>)
    requires k < |bus.entities|
    ensures var bus' := Update(bus, k, updates);
            && |bus'.entities| == |bus.entities| && bus'.current == bus.current + 1
            && (forall i :: 0 <= i < |bus.entities| - 1 ==>
                  bus'.entities[i] == bus.entities[if i < k then i else i + 1])
            && bus'.entities[|bus.entities| - 1].sequence == bus.current
            && IsUpdate(bus.entities[k], updates, bus'.entities[|bus.entities| - 1])
  {
  }

  /** An update is seen by every client whose filter the entity matched. */
  lemma UpdateIsSeen(bus: Bus, client: Client, k: nat, updates: map<string, Item>)
    requires BusOk(bus) && UpToDate(bus, client) && k < |bus.entities|
    requires Matches(bus.entities[k].properties, client.filter)
    ensures var bus' := Update(bus, k, updates);
            && BusOk(bus') && UpToDate(bus', client)
            && exists e :: e in CatchUp(bus', client).seen && e !in client.seen
                           && IsUpdate(bus.entities[k], updates, e)
  {
    var bus' := Update(bus, k, updates);
    StepKeeps(bus, client, UpdateProperties(k, updates));
    UpdatesKeepMatches(bus.entities[k].properties, updates, client.filter);
    UpdateChangesOne(bus, k, updates);
    var e := bus'.entities[|bus.entities| - 1];
    assert e in bus'.entities && Matches(e.properties, client.filter);
    assert e in CatchUp(bus', client).seen && e !in client.seen;
  }
}
