/** The audit trail of `AuditingInterceptor`: before a save it turns the tracked companies and
    employees into log entries kept in a buffer; after the save it fills in the generated ids and
    writes one system log per buffered entry to the audit store; a failed save empties the
    buffer. The change tracker is given as a sequence of entries, already with changes detected. */
module Auditing {
  import opened Optional
  import opened Linq
  import Entities

  datatype ResourceType = Employee | Company | Skip
  datatype EventType = Create | Update | Skip

  /** The states of a tracked entity. */
  datatype EntityState = Detached | Unchanged | Deleted | Modified | Added

  /** A tracked entity, by its runtime type, with the business key that identifies it. */
  datatype TrackedEntity = EmployeeEntity(email: string) | CompanyEntity(name: string) | OtherEntity

  /** One property of a tracked entity: its name and the text of its current and original
      values, `None` for `null`. */
  datatype PropertyEntry = PropertyEntry(name: string, current: Option<string>, original: Option<string>)

  /** One entry of the change tracker. `createdAt` is the current `CreatedAt` value. */
  datatype TrackedEntry = TrackedEntry(
    state: EntityState, entity: TrackedEntity, createdAt: Entities.Timestamp, properties: seq<PropertyEntry>)

  /** `SystemLogEntryChagesetItem`. */
  datatype ChangesetItem = ChangesetItem(key: string, newValue: string, oldValue: string)

  /** `SystemLogEntry`: a buffered audit record. */
  datatype SystemLogEntry = SystemLogEntry(
    uniqueIdentifierValue: string, resourceType: ResourceType, event: EventType,
    createdAt: Entities.Timestamp, comment: string, changeset: seq<ChangesetItem>)

  /** `SystemLog`: a record of the audit store, with its changeset serialized. */
  datatype SystemLog = SystemLog(
    resourceType: ResourceType, createdAt: Entities.Timestamp, event: EventType, changeset: string, comment: string)

  /** `GetEventType`. */
  function GetEventType(entry: TrackedEntry): (r: EventType)
    ensures r == Create <==> entry.state == Added
    ensures r == Update <==> entry.state == Modified
    ensures r == EventType.Skip <==> entry.state != Added && entry.state != Modified
  {
    match entry.state
    case Added => Create
    case Modified => Update
    case _ => EventType.Skip
  }

  /** `GetResourceType`. */
  function GetResourceType(entry: TrackedEntry): (r: ResourceType)
    ensures r == Employee <==> entry.entity.EmployeeEntity?
    ensures r == Company <==> entry.entity.CompanyEntity?
    ensures r == ResourceType.Skip <==> entry.entity.OtherEntity?
  {
    match entry.entity
    case EmployeeEntity(_) => Employee
    case CompanyEntity(_) => Company
    case OtherEntity => ResourceType.Skip
  }

  /** `GetUniqueIdentifierValue`: the email of an employee, the name of a company, and the empty
      string for anything else. */
  function GetUniqueIdentifierValue(entry: TrackedEntry, resourceType: ResourceType): string {
    if resourceType == Employee && entry.entity.EmployeeEntity? then entry.entity.email
    else if resourceType == Company && entry.entity.CompanyEntity? then entry.entity.name
    else ""
  }

  /** The business key of a tracked entity, as the interceptor reads it. */
  function Identifier(entry: TrackedEntry): string {
    GetUniqueIdentifierValue(entry, GetResourceType(entry))
  }

  /** The identifier is the name of a company and the email of an employee. */
  lemma IdentifierIsBusinessKey(entry: TrackedEntry)
    ensures entry.entity.CompanyEntity? ==> Identifier(entry) == entry.entity.name
    ensures entry.entity.EmployeeEntity? ==> Identifier(entry) == entry.entity.email
    ensures entry.entity.OtherEntity? ==> Identifier(entry) == ""
  {
  }

  /** `ResourceType.ToString().ToLowerInvariant()`. */
  function ResourceTypeName(resourceType: ResourceType): string {
    match resourceType
    case Employee => "employee"
    case Company => "company"
    case Skip => "skip"
  }

  /** `GetComment`. */
  function GetComment(eventType: EventType, resourceType: ResourceType, uniqueIdentifier: string): string {
    match eventType
    case Create => "New " + ResourceTypeName(resourceType) + " " + uniqueIdentifier + " was created."
    case Update => "The " + ResourceTypeName(resourceType) + " " + uniqueIdentifier + " was updated."
    case Skip => ""
  }

  /** A comment tells the event: creations and updates never share a comment, and only a skipped
      event has the empty one. */
  lemma CommentTellsEvent(rt: ResourceType, rt': ResourceType, a: string, b: string)
    ensures GetComment(Create, rt, a) != GetComment(Update, rt', b)
    ensures GetComment(Create, rt, a) != "" && GetComment(Update, rt, a) != ""
    ensures GetComment(EventType.Skip, rt, a) == ""
  {
    assert GetComment(Create, rt, a)[0] == 'N';
    assert GetComment(Update, rt', b)[0] == 'T';
  }

  /** A comment tells the identifier: for one event and resource type, different identifiers give
      different comments. */
  lemma CommentTellsIdentifier(ev: EventType, rt: ResourceType, a: string, b: string)
    requires ev != EventType.Skip
    requires GetComment(ev, rt, a) == GetComment(ev, rt, b)
    ensures a == b
  {
    var prefix := (if ev == Create then "New " else "The ") + ResourceTypeName(rt) + " ";
    var suffix := if ev == Create then " was created." else " was updated.";
    assert GetComment(ev, rt, a) == prefix + a + suffix;
    assert GetComment(ev, rt, b) == prefix + b + suffix;
    assert |a| == |b|;
    assert a == (prefix + a + suffix)[|prefix|..|prefix| + |a|];
    assert b == (prefix + b + suffix)[|prefix|..|prefix| + |b|];
  }

  /** `property.CurrentValue?.ToString() ?? string.Empty`, and the same for the original value. */
  function ValueString(value: Option<string>): string {
    value.GetOr("")
  }

  /** The changeset item of one property. */
  function ItemOf(p: PropertyEntry): ChangesetItem {
    ChangesetItem(p.name, ValueString(p.current), ValueString(p.original))
  }

  /** The changeset of a tracked entity: one item per property, in property order, keyed by the
      property's name, with the current value as the new value and the original as the old one;
      a `null` value is the empty string. */
  function ChangesetOf(properties: seq<PropertyEntry>): (r: seq<ChangesetItem>)
    ensures |r| == |properties|
    ensures forall i :: 0 <= i < |r| ==>
      && r[i].key == properties[i].name
      && (properties[i].current.Some? ==> r[i].newValue == properties[i].current.value)
      && (properties[i].current.None? ==> r[i].newValue == "")
      && (properties[i].original.Some? ==> r[i].oldValue == properties[i].original.value)
      && (properties[i].original.None? ==> r[i].oldValue == "")
  {
    assert forall i :: 0 <= i < |properties| ==> Select(properties, ItemOf)[i] == ItemOf(properties[i]);
    Select(properties, ItemOf)
  }

  /** `GetChangeset`. */
  method GetChangeset(properties: seq<PropertyEntry>) returns (items: seq<ChangesetItem>)
    ensures items == ChangesetOf(properties)
  {
    items := [];
    for i := 0 to |properties|
      invariant items == ChangesetOf(properties[..i])
    {
      var property := properties[i];
      var key := property.name;
      var newValue := ValueString(property.current);
      var oldValue := ValueString(property.original);
      assert properties[..i + 1] == properties[..i] + [property];
      SelectConcat(properties[..i], [property], ItemOf);
      items := items + [ChangesetItem(key, newValue, oldValue)];
    }
    assert properties[..|properties|] == properties;
  }

  /** A tracked entry the interceptor records: an added or modified company or employee. */
  predicate Audited(entry: TrackedEntry) {
    GetEventType(entry) != EventType.Skip && GetResourceType(entry) != ResourceType.Skip
  }

  /** The log entry of a recorded tracked entry. */
  function LogEntryOf(entry: TrackedEntry): SystemLogEntry {
    var eventType := GetEventType(entry);
    var resourceType := GetResourceType(entry);
    var uniqueIdentifier := GetUniqueIdentifierValue(entry, resourceType);
    SystemLogEntry(uniqueIdentifier, resourceType, eventType, entry.createdAt,
      GetComment(eventType, resourceType, uniqueIdentifier), ChangesetOf(entry.properties))
  }

  /** The log entries of a change tracker: one per recorded entry, in tracker order. */
  function AuditEntriesOf(tracked: seq<TrackedEntry>): seq<SystemLogEntry> {
    Select(Where(tracked, Audited), LogEntryOf)
  }

  /** What is recorded, and what a record says: an added or modified company or employee is
      recorded under its business key, with its time, its event, the comment naming both, and
      its changeset. */
  lemma AuditEntriesContent(tracked: seq<TrackedEntry>)
    ensures forall t :: t in Where(tracked, Audited) <==>
      t in tracked && (t.state == Added || t.state == Modified) && !t.entity.OtherEntity?
    ensures var es := AuditEntriesOf(tracked);
      && |es| == |Where(tracked, Audited)|
      && forall i :: 0 <= i < |es| ==>
        var t := Where(tracked, Audited)[i];
        && es[i].uniqueIdentifierValue == Identifier(t)
        && es[i].event == (if t.state == Added then Create else Update)
        && es[i].resourceType == (if t.entity.CompanyEntity? then Company else Employee)
        && es[i].createdAt == t.createdAt
        && es[i].comment == GetComment(es[i].event, es[i].resourceType, Identifier(t))
        && es[i].changeset == ChangesetOf(t.properties)
  {
    WhereMembers(tracked, Audited);
    var w := Where(tracked, Audited);
    var es := AuditEntriesOf(tracked);
    forall i | 0 <= i < |es|
      ensures es[i] == LogEntryOf(w[i]) && Audited(w[i])
    {
    }
  }

  /** Recording one more tracked entry. */
  lemma AuditEntriesStep(tracked: seq<TrackedEntry>, entry: TrackedEntry)
    ensures AuditEntriesOf(tracked + [entry]) ==
      AuditEntriesOf(tracked) + (if Audited(entry) then [LogEntryOf(entry)] else [])
  {
    WhereConcat(tracked, [entry], Audited);
    var one := Where([entry], Audited);
    assert one == (if Audited(entry) then [entry] else []) by {
      assert [entry][1..] == [];
    }
    SelectConcat(Where(tracked, Audited), one, LogEntryOf);
    assert Select(one, LogEntryOf) == (if Audited(entry) then [LogEntryOf(entry)] else []);
  }

  /** `CreateAuditEntry`. */
  method CreateAuditEntry(tracked: seq<TrackedEntry>) returns (entries: seq<SystemLogEntry>)
    ensures entries == AuditEntriesOf(tracked)
  {
    entries := [];
    for i := 0 to |tracked|
      invariant entries == AuditEntriesOf(tracked[..i])
    {
      var entry := tracked[i];
      assert tracked[..i + 1] == tracked[..i] + [entry];
      AuditEntriesStep(tracked[..i], entry);
      var eventType := GetEventType(entry);
      if eventType == EventType.Skip {
        continue;
      }
      var resourceType := GetResourceType(entry);
      if resourceType == ResourceType.Skip {
        continue;
      }
      var createdAt := entry.createdAt;
      var uniqueIdentifier := GetUniqueIdentifierValue(entry, resourceType);
      var comment := GetComment(eventType, resourceType, uniqueIdentifier);
      var changeset := GetChangeset(entry.properties);
      assert SystemLogEntry(uniqueIdentifier, resourceType, eventType, createdAt, comment, changeset) == LogEntryOf(entry);
      entries := entries + [SystemLogEntry(uniqueIdentifier, resourceType, eventType, createdAt, comment, changeset)];
    }
    assert tracked[..|tracked|] == tracked;
  }

  /** `ToSystemLog`: one system log per buffered entry, in order; `serialize` stands for
      `JsonSerializer.Serialize` of the changeset. */
  function ToSystemLog(entries: seq<SystemLogEntry>, serialize: seq<ChangesetItem> -> string): (r: seq<SystemLog>)
    ensures |r| == |entries|
    ensures forall i :: 0 <= i < |r| ==>
      && r[i].resourceType == entries[i].resourceType && r[i].createdAt == entries[i].createdAt
      && r[i].event == entries[i].event && r[i].comment == entries[i].comment
      && r[i].changeset == serialize(entries[i].changeset)
  {
    Select(entries, (e: SystemLogEntry) => SystemLog(e.resourceType, e.createdAt, e.event, serialize(e.changeset), e.comment))
  }

  /** Writing two batches is writing their concatenation. */
  lemma ToSystemLogConcat(a: seq<SystemLogEntry>, b: seq<SystemLogEntry>, serialize: seq<ChangesetItem> -> string)
    ensures ToSystemLog(a + b, serialize) == ToSystemLog(a, serialize) + ToSystemLog(b, serialize)
  {
    SelectConcat(a, b, (e: SystemLogEntry) => SystemLog(e.resourceType, e.createdAt, e.event, serialize(e.changeset), e.comment));
  }

  predicate IsIdProperty(p: PropertyEntry) { p.name == "Id" }

  /** `entry.Properties.SingleOrDefault(p => p.Metadata.Name == "Id")?.CurrentValue?.ToString()
      ?? string.Empty`: the text of the current id, or the empty string. */
  function IdValue(entry: TrackedEntry): string {
    var ids := Where(entry.properties, IsIdProperty);
    if ids == [] then "" else ValueString(ids[0].current)
  }

  /** `Changeset.FirstOrDefault(i => i.Key == "Id")`: the position of the first `"Id"` item. */
  function FirstIdIndex(changeset: seq<ChangesetItem>): (r: Option<nat>)
    ensures r.Some? ==> r.value < |changeset| && changeset[r.value].key == "Id"
    ensures r.Some? ==> forall j :: 0 <= j < r.value ==> changeset[j].key != "Id"
    ensures r.None? <==> forall j :: 0 <= j < |changeset| ==> changeset[j].key != "Id"
  {
    if changeset == [] then None
    else if changeset[0].key == "Id" then Some(0)
    else
      assert forall j :: 1 <= j < |changeset| ==> changeset[j] == changeset[1..][j - 1];
      match FirstIdIndex(changeset[1..])
      case None => None
      case Some(k) => Some(k + 1)
  }

  /** The first `"Id"` item is where the keys say it is. */
  lemma {:induction false} FirstIdIndexByKeys(x: seq<ChangesetItem>, y: seq<ChangesetItem>)
    requires |x| == |y| && forall k :: 0 <= k < |x| ==> x[k].key == y[k].key
    ensures FirstIdIndex(x) == FirstIdIndex(y)
  {
    if x != [] && x[0].key != "Id" {
      assert forall k :: 0 <= k < |x| - 1 ==> x[1..][k] == x[k + 1] && y[1..][k] == y[k + 1];
      FirstIdIndexByKeys(x[1..], y[1..]);
    }
  }

  /** The buffered entry has an `"Id"` item. */
  predicate HasIdItem(entry: SystemLogEntry) {
    FirstIdIndex(entry.changeset).Some?
  }

  /** The new value of the first `"Id"` item set to `id`; `None` when there is no such item. */
  function SetId(entry: SystemLogEntry, id: string): (r: Option<SystemLogEntry>)
    ensures r.Some? <==> HasIdItem(entry)
    ensures r.Some? ==> SameExceptId(entry, r.value)
    ensures r.Some? ==> r.value.changeset[FirstIdIndex(entry.changeset).value].newValue == id
  {
    match FirstIdIndex(entry.changeset)
    case None => None
    case Some(k) =>
      var cs := entry.changeset[k := entry.changeset[k].(newValue := id)];
      FirstIdIndexByKeys(entry.changeset, cs);
      Some(entry.(changeset := cs))
  }

  /** `b` is `a` except, perhaps, for the new value of its first `"Id"` item. */
  predicate SameExceptId(a: SystemLogEntry, b: SystemLogEntry) {
    && a.uniqueIdentifierValue == b.uniqueIdentifierValue && a.resourceType == b.resourceType
    && a.event == b.event && a.createdAt == b.createdAt && a.comment == b.comment
    && |a.changeset| == |b.changeset|
    && FirstIdIndex(a.changeset) == FirstIdIndex(b.changeset)
    && forall k :: 0 <= k < |a.changeset| ==>
         && a.changeset[k].key == b.changeset[k].key
         && a.changeset[k].oldValue == b.changeset[k].oldValue
         && (FirstIdIndex(a.changeset) == Some(k as nat) || a.changeset[k].newValue == b.changeset[k].newValue)
  }

  /** The outcome of patching ids: the buffer as it is left, and whether patching finished. */
  datatype Patch = Patch(entries: seq<SystemLogEntry>, ok: bool)

  /** The inner loop of `UpdateIds`: every buffered entry recorded under `identifier` gets `id` as
      the new value of its first `"Id"` item, in buffer order; at the first such entry without an
      `"Id"` item patching stops ("No ID record."), keeping what it has patched so far. */
  function PatchMatching(buffer: seq<SystemLogEntry>, identifier: string, id: string): Patch {
    if buffer == [] then Patch([], true)
    else
      var rest := PatchMatching(buffer[1..], identifier, id);
      if buffer[0].uniqueIdentifierValue != identifier then Patch([buffer[0]] + rest.entries, rest.ok)
      else match SetId(buffer[0], id)
        case None => Patch(buffer, false)
        case Some(e) => Patch([e] + rest.entries, rest.ok)
  }

  /** The inner loop keeps the buffer's length, changes nothing but the new value of first
      `"Id"` items, and leaves entries recorded under other identifiers alone. */
  lemma PatchMatchingShape(buffer: seq<SystemLogEntry>, identifier: string, id: string)
    ensures var r := PatchMatching(buffer, identifier, id);
      && |r.entries| == |buffer|
      && (forall i :: 0 <= i < |buffer| ==> SameExceptId(buffer[i], r.entries[i]))
      && (forall i :: 0 <= i < |buffer| && buffer[i].uniqueIdentifierValue != identifier ==> r.entries[i] == buffer[i])
  {
    PatchMatchingChangesIds(buffer, identifier, id);
    PatchMatchingKeepsOthers(buffer, identifier, id);
  }

  /** The inner loop keeps the buffer's length and changes nothing but the new value of first
      `"Id"` items. */
  lemma {:induction false} PatchMatchingChangesIds(buffer: seq<SystemLogEntry>, identifier: string, id: string)
    ensures var r := PatchMatching(buffer, identifier, id);
      |r.entries| == |buffer| && forall i :: 0 <= i < |buffer| ==> SameExceptId(buffer[i], r.entries[i])
  {
    if buffer != [] {
      var r, rest := PatchMatching(buffer, identifier, id), PatchMatching(buffer[1..], identifier, id);
      if buffer[0].uniqueIdentifierValue == identifier && SetId(buffer[0], id).None? {
        assert r.entries == buffer;
        forall i | 0 <= i < |buffer| ensures SameExceptId(buffer[i], r.entries[i]) {
          SameExceptIdReflexive(buffer[i]);
        }
      } else {
        PatchMatchingChangesIds(buffer[1..], identifier, id);
        if buffer[0].uniqueIdentifierValue != identifier {
          assert r.entries == [buffer[0]] + rest.entries;
          SameExceptIdReflexive(buffer[0]);
        } else {
          assert r.entries == [SetId(buffer[0], id).value] + rest.entries;
        }
        forall i | 1 <= i < |buffer| ensures SameExceptId(buffer[i], r.entries[i]) {
          assert buffer[i] == buffer[1..][i - 1] && r.entries[i] == rest.entries[i - 1];
        }
      }
    }
  }

  /** An entry is the same as itself. */
  lemma SameExceptIdReflexive(a: SystemLogEntry)
    ensures SameExceptId(a, a)
  {
  }

  /** The inner loop leaves entries recorded under other identifiers alone. */
  lemma {:induction false} PatchMatchingKeepsOthers(buffer: seq<SystemLogEntry>, identifier: string, id: string)
    ensures var r := PatchMatching(buffer, identifier, id);
      |r.entries| == |buffer| &&
      forall i :: 0 <= i < |buffer| && buffer[i].uniqueIdentifierValue != identifier ==> r.entries[i] == buffer[i]
  {
    if buffer != [] {
      var r, rest := PatchMatching(buffer, identifier, id), PatchMatching(buffer[1..], identifier, id);
      if buffer[0].uniqueIdentifierValue != identifier || SetId(buffer[0], id).Some? {
        PatchMatchingKeepsOthers(buffer[1..], identifier, id);
        assert r.entries == [r.entries[0]] + rest.entries;
        forall i | 1 <= i < |buffer| && buffer[i].uniqueIdentifierValue != identifier ensures r.entries[i] == buffer[i] {
          assert buffer[i] == buffer[1..][i - 1] && r.entries[i] == rest.entries[i - 1];
        }
      }
    }
  }

  /** The inner loop finishes exactly when every entry recorded under the identifier has an
      `"Id"` item, and then each of them holds the id. */
  lemma PatchMatchingOk(buffer: seq<SystemLogEntry>, identifier: string, id: string)
    ensures var r := PatchMatching(buffer, identifier, id);
      && |r.entries| == |buffer|
      && (r.ok <==> forall i :: 0 <= i < |buffer| && buffer[i].uniqueIdentifierValue == identifier ==> HasIdItem(buffer[i]))
      && (r.ok ==> forall i :: 0 <= i < |buffer| && buffer[i].uniqueIdentifierValue == identifier ==>
                     HasIdItem(buffer[i]) && r.entries[i] == SetId(buffer[i], id).value)
  {
    PatchMatchingShape(buffer, identifier, id);
    PatchMatchingFinishes(buffer, identifier, id);
    PatchMatchingSetsIds(buffer, identifier, id);
  }

  /** The inner loop finishes exactly when every entry recorded under the identifier has an
      `"Id"` item. */
  lemma {:induction false} PatchMatchingFinishes(buffer: seq<SystemLogEntry>, identifier: string, id: string)
    ensures PatchMatching(buffer, identifier, id).ok <==>
              forall i :: 0 <= i < |buffer| && buffer[i].uniqueIdentifierValue == identifier ==> HasIdItem(buffer[i])
  {
    if buffer != [] {
      assert forall i :: 1 <= i < |buffer| ==> buffer[i] == buffer[1..][i - 1];
      PatchMatchingFinishes(buffer[1..], identifier, id);
    }
  }

  /** When it finishes, every entry recorded under the identifier holds the id. */
  lemma {:induction false} PatchMatchingSetsIds(buffer: seq<SystemLogEntry>, identifier: string, id: string)
    ensures var r := PatchMatching(buffer, identifier, id);
      r.ok ==> |r.entries| == |buffer| && forall i :: 0 <= i < |buffer| && buffer[i].uniqueIdentifierValue == identifier ==>
                 HasIdItem(buffer[i]) && r.entries[i] == SetId(buffer[i], id).value
  {
    var r := PatchMatching(buffer, identifier, id);
    if buffer != [] && r.ok {
      var rest := PatchMatching(buffer[1..], identifier, id);
      PatchMatchingSetsIds(buffer[1..], identifier, id);
      assert rest.ok && r.entries == [r.entries[0]] + rest.entries;
      forall i | 0 <= i < |buffer| && buffer[i].uniqueIdentifierValue == identifier
        ensures HasIdItem(buffer[i]) && r.entries[i] == SetId(buffer[i], id).value
      {
        if i > 0 {
          assert buffer[i] == buffer[1..][i - 1] && r.entries[i] == rest.entries[i - 1];
        }
      }
    }
  }

  /** The tracked entry names `identifier` as `UpdateIds` sees it. */
  predicate Matches(entry: TrackedEntry, identifier: string) {
    GetResourceType(entry) != ResourceType.Skip && Identifier(entry) == identifier
  }

  /** `UpdateIds`: for each tracked company or employee, in tracker order, the buffered entries
      recorded under its business key get its current id; this stops at the first failure. */
  function PatchWith(tracked: seq<TrackedEntry>, buffer: seq<SystemLogEntry>): Patch
    decreases |tracked|
  {
    if tracked == [] then Patch(buffer, true)
    else
      var entry := tracked[0];
      if GetResourceType(entry) == ResourceType.Skip then PatchWith(tracked[1..], buffer)
      else
        var p := PatchMatching(buffer, Identifier(entry), IdValue(entry));
        PatchMatchingShape(buffer, Identifier(entry), IdValue(entry));
        if !p.ok then p else PatchWith(tracked[1..], p.entries)
  }

  lemma SameExceptIdTransitive(a: SystemLogEntry, b: SystemLogEntry, c: SystemLogEntry)
    requires SameExceptId(a, b) && SameExceptId(b, c)
    ensures SameExceptId(a, c)
  {
  }

  /** No tracked company or employee has this business key. */
  predicate Unmatched(tracked: seq<TrackedEntry>, identifier: string) {
    forall k :: 0 <= k < |tracked| ==> !Matches(tracked[k], identifier)
  }

  /** `UpdateIds` keeps the buffer's length and changes nothing but the new value of first `"Id"`
      items, and only in entries recorded under the business key of a tracked company or
      employee. */
  lemma {:induction false} PatchWithShape(tracked: seq<TrackedEntry>, buffer: seq<SystemLogEntry>)
    ensures var r := PatchWith(tracked, buffer);
      && |r.entries| == |buffer|
      && (forall i :: 0 <= i < |buffer| ==> SameExceptId(buffer[i], r.entries[i]))
      && (forall i :: 0 <= i < |buffer| && Unmatched(tracked, buffer[i].uniqueIdentifierValue) ==> r.entries[i] == buffer[i])
    decreases |tracked|
  {
    if tracked != [] {
      var entry := tracked[0];
      assert forall k :: 1 <= k < |tracked| ==> tracked[k] == tracked[1..][k - 1];
      if GetResourceType(entry) == ResourceType.Skip {
        PatchWithShape(tracked[1..], buffer);
      } else {
        var p := PatchMatching(buffer, Identifier(entry), IdValue(entry));
        PatchMatchingShape(buffer, Identifier(entry), IdValue(entry));
        if p.ok {
          PatchWithShape(tracked[1..], p.entries);
          var r := PatchWith(tracked, buffer);
          forall i | 0 <= i < |buffer| ensures SameExceptId(buffer[i], r.entries[i]) {
            SameExceptIdTransitive(buffer[i], p.entries[i], r.entries[i]);
          }
        }
      }
    }
  }

  /** `UpdateIds` finishes exactly when every buffered entry recorded under the business key of
      a tracked company or employee has an `"Id"` item; otherwise it fails with "No ID record.". */
  lemma {:induction false} PatchWithOk(tracked: seq<TrackedEntry>, buffer: seq<SystemLogEntry>)
    ensures PatchWith(tracked, buffer).ok <==>
      forall i, k :: 0 <= i < |buffer| && 0 <= k < |tracked| && Matches(tracked[k], buffer[i].uniqueIdentifierValue) ==>
        HasIdItem(buffer[i])
    decreases |tracked|
  {
    if tracked != [] {
      var entry := tracked[0];
      assert forall k :: 1 <= k < |tracked| ==> tracked[k] == tracked[1..][k - 1];
      if GetResourceType(entry) == ResourceType.Skip {
        PatchWithOk(tracked[1..], buffer);
      } else {
        var p := PatchMatching(buffer, Identifier(entry), IdValue(entry));
        PatchMatchingShape(buffer, Identifier(entry), IdValue(entry));
        PatchMatchingOk(buffer, Identifier(entry), IdValue(entry));
        if p.ok {
          assert PatchWith(tracked, buffer) == PatchWith(tracked[1..], p.entries);
          PatchWithOk(tracked[1..], p.entries);
          SameKeysAndIdItems(buffer, p.entries);
        } else {
          var i :| 0 <= i < |buffer| && buffer[i].uniqueIdentifierValue == Identifier(entry) && !HasIdItem(buffer[i]);
          assert Matches(tracked[0], buffer[i].uniqueIdentifierValue);
        }
      }
    }
  }

  /** Entries that are the same except for ids have the same keys and the same `"Id"` items. */
  lemma SameKeysAndIdItems(a: seq<SystemLogEntry>, b: seq<SystemLogEntry>)
    requires |a| == |b| && forall i :: 0 <= i < |a| ==> SameExceptId(a[i], b[i])
    ensures forall i :: 0 <= i < |a| ==>
      b[i].uniqueIdentifierValue == a[i].uniqueIdentifierValue && (HasIdItem(b[i]) <==> HasIdItem(a[i]))
  {
  }

  /** When `UpdateIds` finishes, a buffered entry recorded under a tracked entity's business key
      holds, in its first `"Id"` item, the id of the last tracked company or employee with that
      key. */
  lemma {:induction false} PatchWithLastMatch(tracked: seq<TrackedEntry>, buffer: seq<SystemLogEntry>, k: int, i: int)
    requires PatchWith(tracked, buffer).ok
    requires 0 <= i < |buffer| && 0 <= k < |tracked| && Matches(tracked[k], buffer[i].uniqueIdentifierValue)
    requires Unmatched(tracked[k + 1..], buffer[i].uniqueIdentifierValue)
    ensures var r := PatchWith(tracked, buffer);
      && HasIdItem(buffer[i]) && i < |r.entries| && SameExceptId(buffer[i], r.entries[i])
      && r.entries[i].changeset[FirstIdIndex(buffer[i].changeset).value].newValue == IdValue(tracked[k])
    decreases |tracked|
  {
    var entry := tracked[0];
    assert tracked[1..][k - 1 + 1..] == tracked[k + 1..];
    if k == 0 {
      PatchWithFirstMatch(tracked, buffer, i);
    } else if GetResourceType(entry) == ResourceType.Skip {
      assert tracked[1..][k - 1] == tracked[k];
      PatchWithLastMatch(tracked[1..], buffer, k - 1, i);
    } else {
      var p := PatchMatching(buffer, Identifier(entry), IdValue(entry));
      PatchMatchingShape(buffer, Identifier(entry), IdValue(entry));
      assert tracked[1..][k - 1] == tracked[k];
      assert SameExceptId(buffer[i], p.entries[i]);
      PatchWithLastMatch(tracked[1..], p.entries, k - 1, i);
      IdThroughTwoPatches(buffer[i], p.entries[i], PatchWith(tracked, buffer).entries[i], IdValue(tracked[k]));
    }
  }

  /** An id patched in at the second of two patches is where the first `"Id"` item of the
      original entry was. */
  lemma IdThroughTwoPatches(a: SystemLogEntry, b: SystemLogEntry, c: SystemLogEntry, id: string)
    requires SameExceptId(a, b) && SameExceptId(b, c) && HasIdItem(b)
    requires c.changeset[FirstIdIndex(b.changeset).value].newValue == id
    ensures HasIdItem(a) && SameExceptId(a, c) && c.changeset[FirstIdIndex(a.changeset).value].newValue == id
  {
    SameExceptIdTransitive(a, b, c);
  }

  /** The case where the first tracked entity is the last one with the entry's identifier. */
  lemma PatchWithFirstMatch(tracked: seq<TrackedEntry>, buffer: seq<SystemLogEntry>, i: int)
    requires PatchWith(tracked, buffer).ok
    requires 0 <= i < |buffer| && 0 < |tracked| && Matches(tracked[0], buffer[i].uniqueIdentifierValue)
    requires Unmatched(tracked[1..], buffer[i].uniqueIdentifierValue)
    ensures var r := PatchWith(tracked, buffer);
      && HasIdItem(buffer[i]) && i < |r.entries| && SameExceptId(buffer[i], r.entries[i])
      && r.entries[i].changeset[FirstIdIndex(buffer[i].changeset).value].newValue == IdValue(tracked[0])
  {
    var entry := tracked[0];
    var p := PatchMatching(buffer, Identifier(entry), IdValue(entry));
    PatchMatchingOk(buffer, Identifier(entry), IdValue(entry));
    assert p.entries[i] == SetId(buffer[i], IdValue(entry)).value;
    PatchWithShape(tracked[1..], p.entries);
    assert PatchWith(tracked, buffer).entries[i] == p.entries[i];
  }

  /** A patch outcome behind an already patched prefix. */
  function Prefixed(prefix: seq<SystemLogEntry>, p: Patch): Patch {
    Patch(prefix + p.entries, p.ok)
  }

  /** Each tracked entity has at most one property named `"Id"`, as `SingleOrDefault` demands. */
  predicate SingleIdProperty(tracked: seq<TrackedEntry>) {
    forall k :: 0 <= k < |tracked| ==> Count(tracked[k].properties, IsIdProperty) <= 1
  }

  /** The inner loop's patch of a suffix of the buffer, in terms of its first entry. */
  lemma PatchMatchingAt(buffer: seq<SystemLogEntry>, identifier: string, id: string, j: int)
    requires 0 <= j < |buffer|
    ensures var rest := PatchMatching(buffer[j + 1..], identifier, id);
      PatchMatching(buffer[j..], identifier, id) ==
        if buffer[j].uniqueIdentifierValue != identifier then Prefixed([buffer[j]], rest)
        else if SetId(buffer[j], id).None? then Patch(buffer[j..], false)
        else Prefixed([SetId(buffer[j], id).value], rest)
  {
    assert buffer[j..][0] == buffer[j] && buffer[j..][1..] == buffer[j + 1..];
  }

  /** The loop invariant of the inner loop: the first `j` entries are patched, the rest are as
      they were. */
  predicate PatchedUpTo(buffer: seq<SystemLogEntry>, identifier: string, id: string, patched: seq<SystemLogEntry>, j: int) {
    && 0 <= j <= |buffer| && |patched| == |buffer| && patched[j..] == buffer[j..]
    && PatchMatching(buffer, identifier, id) == Prefixed(patched[..j], PatchMatching(buffer[j..], identifier, id))
  }

  /** An entry of another identifier is left as it is. */
  lemma PatchSkipStep(buffer: seq<SystemLogEntry>, identifier: string, id: string, patched: seq<SystemLogEntry>, j: int)
    requires PatchedUpTo(buffer, identifier, id, patched, j) && j < |buffer|
    requires buffer[j].uniqueIdentifierValue != identifier
    ensures PatchedUpTo(buffer, identifier, id, patched, j + 1)
  {
    PatchMatchingAt(buffer, identifier, id, j);
    assert patched[j] == buffer[j..][0];
    assert patched[..j + 1] == patched[..j] + [buffer[j]];
    PrefixedTwice(patched[..j], [buffer[j]], PatchMatching(buffer[j + 1..], identifier, id));
    assert patched[j + 1..] == buffer[j..][1..];
  }

  /** Prefixing twice is prefixing once with both. */
  lemma PrefixedTwice(a: seq<SystemLogEntry>, b: seq<SystemLogEntry>, p: Patch)
    ensures Prefixed(a, Prefixed(b, p)) == Prefixed(a + b, p)
  {
    assert a + (b + p.entries) == (a + b) + p.entries;
  }

  /** An entry of the identifier without an `"Id"` item stops the loop with the buffer as it is. */
  lemma PatchStopStep(buffer: seq<SystemLogEntry>, identifier: string, id: string, patched: seq<SystemLogEntry>, j: int)
    requires PatchedUpTo(buffer, identifier, id, patched, j) && j < |buffer|
    requires buffer[j].uniqueIdentifierValue == identifier && SetId(buffer[j], id).None?
    ensures PatchMatching(buffer, identifier, id) == Patch(patched, false)
  {
    PatchMatchingAt(buffer, identifier, id, j);
    assert patched == patched[..j] + patched[j..];
  }

  /** An entry of the identifier with an `"Id"` item is patched. */
  lemma PatchSetStep(buffer: seq<SystemLogEntry>, identifier: string, id: string, patched: seq<SystemLogEntry>, j: int)
    requires PatchedUpTo(buffer, identifier, id, patched, j) && j < |buffer|
    requires buffer[j].uniqueIdentifierValue == identifier && SetId(buffer[j], id).Some?
    ensures PatchedUpTo(buffer, identifier, id, patched[j := SetId(buffer[j], id).value], j + 1)
  {
    PatchMatchingAt(buffer, identifier, id, j);
    var p := patched[j := SetId(buffer[j], id).value];
    assert p[..j + 1] == patched[..j] + [SetId(buffer[j], id).value];
    PrefixedTwice(patched[..j], [SetId(buffer[j], id).value], PatchMatching(buffer[j + 1..], identifier, id));
    assert p[j + 1..] == patched[j + 1..];
    assert patched[j + 1..] == buffer[j..][1..];
  }

  /** The inner loop of `UpdateIds`, over the buffer in place: `ok` is false where the source
      throws "No ID record.", and `patched` is then the buffer as far as it was patched. */
  method PatchEntries(buffer: seq<SystemLogEntry>, uniqueIdentifier: string, id: string)
    returns (patched: seq<SystemLogEntry>, ok: bool)
    ensures Patch(patched, ok) == PatchMatching(buffer, uniqueIdentifier, id)
  {
    patched := buffer;
    for j := 0 to |buffer|
      invariant PatchedUpTo(buffer, uniqueIdentifier, id, patched, j)
    {
      var auditEntry := patched[j];
      assert auditEntry == buffer[j..][0];
      if auditEntry.uniqueIdentifierValue != uniqueIdentifier {
        PatchSkipStep(buffer, uniqueIdentifier, id, patched, j);
        continue;
      }
      var idEntry := FirstIdIndex(auditEntry.changeset);
      if idEntry.None? {
        PatchStopStep(buffer, uniqueIdentifier, id, patched, j);
        return patched, false;
      }
      var item := auditEntry.changeset[idEntry.value];
      PatchSetStep(buffer, uniqueIdentifier, id, patched, j);
      patched := patched[j := auditEntry.(changeset := auditEntry.changeset[idEntry.value := item.(newValue := id)])];
    }
    assert patched[..|buffer|] == patched && buffer[|buffer|..] == [];
    ok := true;
  }

  /** `UpdateIds`: for every tracked company or employee, in tracker order, the buffered entries
      recorded under its business key are patched with its current id. */
  method UpdateIds(tracked: seq<TrackedEntry>, buffer: seq<SystemLogEntry>)
    returns (patched: seq<SystemLogEntry>, ok: bool)
    requires SingleIdProperty(tracked)
    ensures Patch(patched, ok) == PatchWith(tracked, buffer)
  {
    patched := buffer;
    for i := 0 to |tracked|
      invariant PatchWith(tracked[i..], patched) == PatchWith(tracked, buffer)
    {
      var entry := tracked[i];
      assert tracked[i..][0] == entry && tracked[i..][1..] == tracked[i + 1..];
      var resourceType := GetResourceType(entry);
      if resourceType == ResourceType.Skip {
        continue;
      }
      var uniqueIdentifier := GetUniqueIdentifierValue(entry, resourceType);
      patched, ok := PatchEntries(patched, uniqueIdentifier, IdValue(entry));
      if !ok {
        return;
      }
    }
    ok := true;
  }

  /** What `SavedChanges` leaves behind: the records written to the audit store, the buffer, and
      whether it finished. */
  datatype SaveResult = SaveResult(written: seq<SystemLog>, buffer: seq<SystemLogEntry>, ok: bool)

  /** `SavedChanges` as written: patch the ids, then write every buffered entry; the buffer is
      kept, patched. */
  function SavedChangesAsWritten(buffer: seq<SystemLogEntry>, tracked: seq<TrackedEntry>,
                                 serialize: seq<ChangesetItem> -> string): (r: SaveResult)
    ensures r.ok == PatchWith(tracked, buffer).ok && |r.buffer| == |buffer|
    ensures r.ok ==> r.written == ToSystemLog(r.buffer, serialize) && |r.written| == |buffer|
    ensures !r.ok ==> r.written == []
  {
    PatchWithShape(tracked, buffer);
    var p := PatchWith(tracked, buffer);
    SaveResult(if p.ok then ToSystemLog(p.entries, serialize) else [], p.entries, p.ok)
  }

  /** `SavedChanges` as evidently intended: the same, and afterwards the buffer is
      empty. */
  function SavedChangesClearing(buffer: seq<SystemLogEntry>, tracked: seq<TrackedEntry>,
                                serialize: seq<ChangesetItem> -> string): (r: SaveResult)
    ensures r.ok == PatchWith(tracked, buffer).ok
    ensures r.ok ==> r.written == ToSystemLog(PatchWith(tracked, buffer).entries, serialize) && r.buffer == []
    ensures r.ok ==> |r.written| == |buffer|
    ensures !r.ok ==> r.written == [] && r.buffer == PatchWith(tracked, buffer).entries
  {
    PatchWithShape(tracked, buffer);
    var p := PatchWith(tracked, buffer);
    if p.ok then SaveResult(ToSystemLog(p.entries, serialize), [], true) else SaveResult([], p.entries, false)
  }

  /** As written, a second save cycle on the same interceptor writes the records of the first
      cycle again, ahead of its own. */
  lemma SecondSaveRewritesFirst(saving1: seq<TrackedEntry>, saved1: seq<TrackedEntry>,
                                saving2: seq<TrackedEntry>, saved2: seq<TrackedEntry>,
                                serialize: seq<ChangesetItem> -> string)
    requires SavedChangesAsWritten(AuditEntriesOf(saving1), saved1, serialize).ok
    ensures var first := SavedChangesAsWritten(AuditEntriesOf(saving1), saved1, serialize);
      var second := SavedChangesAsWritten(first.buffer + AuditEntriesOf(saving2), saved2, serialize);
      second.ok ==>
        && |second.written| == |first.written| + |AuditEntriesOf(saving2)|
        && forall i :: 0 <= i < |first.written| ==>
             && second.written[i].resourceType == first.written[i].resourceType
             && second.written[i].event == first.written[i].event
             && second.written[i].createdAt == first.written[i].createdAt
             && second.written[i].comment == first.written[i].comment
  {
    var first := SavedChangesAsWritten(AuditEntriesOf(saving1), saved1, serialize);
    var b := first.buffer + AuditEntriesOf(saving2);
    PatchWithShape(saved2, b);
    var second := SavedChangesAsWritten(b, saved2, serialize);
    if second.ok {
      forall i | 0 <= i < |first.written|
        ensures second.written[i].resourceType == first.written[i].resourceType
        ensures second.written[i].event == first.written[i].event
        ensures second.written[i].createdAt == first.written[i].createdAt
        ensures second.written[i].comment == first.written[i].comment
      {
        assert b[i] == first.buffer[i];
        assert SameExceptId(b[i], second.buffer[i]);
      }
    }
  }

  /** One company created in each of two saves. */
  function CreatedCompany(name: string, id: string): seq<TrackedEntry> {
    [TrackedEntry(Added, CompanyEntity(name), 0, [PropertyEntry("Id", Some(id), Some("0"))])]
  }

  /** As written: two saves creating one company each leave three records in the audit store,
      the first company's twice. */
  lemma TwoSavesWriteThreeRecords(serialize: seq<ChangesetItem> -> string)
    ensures var first := SavedChangesAsWritten(AuditEntriesOf(CreatedCompany("A", "0")), CreatedCompany("A", "1"), serialize);
      var second := SavedChangesAsWritten(first.buffer + AuditEntriesOf(CreatedCompany("B", "0")), CreatedCompany("B", "2"), serialize);
      && first.ok && second.ok && |first.written| + |second.written| == 3
      && second.written[0].comment == first.written[0].comment
  {
    SecondCompanySaved("A", "B", "0", "1", "2", serialize);
    CreatedCompanyEntry("B", "0");
    SecondSaveRewritesFirst(CreatedCompany("A", "0"), CreatedCompany("A", "1"), CreatedCompany("B", "0"), CreatedCompany("B", "2"), serialize);
  }

  /** Two saves of one created company each, with the buffer kept in between, both finish, the
      first writing one record. */
  lemma SecondCompanySaved(a: string, b: string, before: string, firstId: string, secondId: string,
                           serialize: seq<ChangesetItem> -> string)
    ensures var first := SavedChangesAsWritten(AuditEntriesOf(CreatedCompany(a, before)), CreatedCompany(a, firstId), serialize);
      && first.ok && |first.written| == 1
      && SavedChangesAsWritten(first.buffer + AuditEntriesOf(CreatedCompany(b, before)), CreatedCompany(b, secondId), serialize).ok
  {
    var first := SavedChangesAsWritten(AuditEntriesOf(CreatedCompany(a, before)), CreatedCompany(a, firstId), serialize);
    OneCompanySaved(a, before, firstId, serialize);
    CreatedCompanyEntry(b, before);
    var b2 := first.buffer + AuditEntriesOf(CreatedCompany(b, before));
    assert forall i :: 0 <= i < |b2| ==> HasIdItem(b2[i]) by {
      assert |b2| == 2 && b2[0] == first.buffer[0];
    }
    AllHaveIdsPatchOk(CreatedCompany(b, secondId), b2);
  }

  /** When every buffered entry has an `"Id"` item, `UpdateIds` finishes. */
  lemma AllHaveIdsPatchOk(tracked: seq<TrackedEntry>, buffer: seq<SystemLogEntry>)
    requires forall i :: 0 <= i < |buffer| ==> HasIdItem(buffer[i])
    ensures PatchWith(tracked, buffer).ok
  {
    PatchWithOk(tracked, buffer);
  }

  /** Saving one created company writes one record and keeps it buffered. */
  lemma OneCompanySaved(name: string, before: string, after: string, serialize: seq<ChangesetItem> -> string)
    ensures var first := SavedChangesAsWritten(AuditEntriesOf(CreatedCompany(name, before)), CreatedCompany(name, after), serialize);
      first.ok && |first.written| == 1 && |first.buffer| == 1 && HasIdItem(first.buffer[0])
  {
    var b1 := AuditEntriesOf(CreatedCompany(name, before));
    CreatedCompanyEntry(name, before);
    PatchWithOk(CreatedCompany(name, after), b1);
    PatchWithShape(CreatedCompany(name, after), b1);
  }

  /** The single record of a created company has an `"Id"` item. */
  lemma CreatedCompanyEntry(name: string, id: string)
    ensures |AuditEntriesOf(CreatedCompany(name, id))| == 1 && HasIdItem(AuditEntriesOf(CreatedCompany(name, id))[0])
  {
    var one := CreatedCompany(name, id);
    assert one[1..] == [];
    assert Audited(one[0]);
    assert Where(one, Audited) == one;
    var e := AuditEntriesOf(one)[0];
    assert e == LogEntryOf(one[0]);
    assert |e.changeset| == 1 && e.changeset[0].key == "Id";
  }

  /** Corrected: with the buffer emptied after each save, the second cycle writes only its own
      records. */
  lemma ClearingSaveWritesEachRecordOnce(saving1: seq<TrackedEntry>, saved1: seq<TrackedEntry>,
                                         saving2: seq<TrackedEntry>, saved2: seq<TrackedEntry>,
                                         serialize: seq<ChangesetItem> -> string)
    requires SavedChangesClearing(AuditEntriesOf(saving1), saved1, serialize).ok
    ensures var first := SavedChangesClearing(AuditEntriesOf(saving1), saved1, serialize);
      var second := SavedChangesClearing(first.buffer + AuditEntriesOf(saving2), saved2, serialize);
      && |first.written| == |AuditEntriesOf(saving1)|
      && (second.ok ==>
            && second.written == ToSystemLog(PatchWith(saved2, AuditEntriesOf(saving2)).entries, serialize)
            && |second.written| == |AuditEntriesOf(saving2)| && second.buffer == [])
  {
    var first := SavedChangesClearing(AuditEntriesOf(saving1), saved1, serialize);
    assert first.buffer == [];
    assert first.buffer + AuditEntriesOf(saving2) == AuditEntriesOf(saving2);
    var second := SavedChangesClearing(AuditEntriesOf(saving2), saved2, serialize);
    assert second.ok ==> |second.written| == |AuditEntriesOf(saving2)|;
  }

  /** The audit store (`AuditDbContext.SystemLogs`). */
  class AuditStore {
    var systemLogs: seq<SystemLog>

    constructor()
      ensures systemLogs == []
    {
      systemLogs := [];
    }

    /** `SystemLogs.AddRange` followed by `SaveChanges`. */
    method AddRange(logs: seq<SystemLog>)
      modifies this
      ensures systemLogs == old(systemLogs) + logs
    {
      systemLogs := systemLogs + logs;
    }
  }

  /** `AuditingInterceptor`: the buffer of pending log entries and the audit store it writes to. */
  class AuditingInterceptor {
    var auditEntries: seq<SystemLogEntry>
    const context: AuditStore

    constructor(context: AuditStore)
      ensures this.context == context && auditEntries == []
    {
      this.context := context;
      auditEntries := [];
    }

    /** `SaveChangesFailed`: the pending entries are dropped and nothing is written. */
    method SaveChangesFailed()
      modifies this
      ensures auditEntries == []
    {
      auditEntries := [];
    }

    /** `SaveChangesFailedAsync`. */
    method SaveChangesFailedAsync()
      modifies this
      ensures auditEntries == []
    {
      auditEntries := [];
    }

    /** `SavingChanges`: the entries of this save go after those already buffered. */
    method SavingChanges(tracked: seq<TrackedEntry>, result: int) returns (r: int)
      modifies this
      ensures auditEntries == old(auditEntries) + AuditEntriesOf(tracked) && r == result
    {
      var entries := CreateAuditEntry(tracked);
      auditEntries := auditEntries + entries;
      return result;
    }

    /** `SavingChangesAsync`. */
    method SavingChangesAsync(tracked: seq<TrackedEntry>, result: int) returns (r: int)
      modifies this
      ensures auditEntries == old(auditEntries) + AuditEntriesOf(tracked) && r == result
    {
      var entries := CreateAuditEntry(tracked);
      auditEntries := auditEntries + entries;
      return result;
    }

    /** `SavedChanges` as written: the ids are patched in, every buffered entry is written, and
        the buffer is kept. `ok` is false where `UpdateIds` throws; nothing is written then. */
    method SavedChanges(tracked: seq<TrackedEntry>, serialize: seq<ChangesetItem> -> string, result: int)
      returns (r: int, ok: bool)
      requires SingleIdProperty(tracked)
      modifies this, context
      ensures var o := SavedChangesAsWritten(old(auditEntries), tracked, serialize);
        && auditEntries == o.buffer && ok == o.ok && r == result
        && context.systemLogs == old(context.systemLogs) + o.written
    {
      var patched;
      patched, ok := UpdateIds(tracked, auditEntries);
      auditEntries := patched;
      if !ok {
        return result, false;
      }
      context.AddRange(ToSystemLog(auditEntries, serialize));
      return result, true;
    }

    /** `SavedChangesAsync`. */
    method SavedChangesAsync(tracked: seq<TrackedEntry>, serialize: seq<ChangesetItem> -> string, result: int)
      returns (r: int, ok: bool)
      requires SingleIdProperty(tracked)
      modifies this, context
      ensures var o := SavedChangesAsWritten(old(auditEntries), tracked, serialize);
        && auditEntries == o.buffer && ok == o.ok && r == result
        && context.systemLogs == old(context.systemLogs) + o.written
    {
      var patched;
      patched, ok := UpdateIds(tracked, auditEntries);
      auditEntries := patched;
      if !ok {
        return result, false;
      }
      context.AddRange(ToSystemLog(auditEntries, serialize));
      return result, true;
    }

    /** `SavedChanges` corrected: the same, and the buffer is emptied once it is written. */
    method SavedChangesAndClear(tracked: seq<TrackedEntry>, serialize: seq<ChangesetItem> -> string, result: int)
      returns (r: int, ok: bool)
      requires SingleIdProperty(tracked)
      modifies this, context
      ensures var o := SavedChangesClearing(old(auditEntries), tracked, serialize);
        && auditEntries == o.buffer && ok == o.ok && r == result
        && context.systemLogs == old(context.systemLogs) + o.written
    {
      var patched;
      patched, ok := UpdateIds(tracked, auditEntries);
      auditEntries := patched;
      if !ok {
        return result, false;
      }
      context.AddRange(ToSystemLog(auditEntries, serialize));
      auditEntries := [];
      return result, true;
    }
  }
}
