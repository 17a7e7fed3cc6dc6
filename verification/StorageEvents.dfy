/** Event-sourced storage accounting: the notification webhook and the reconciliation worker
    (internal/billing/storage_event_worker.go) over the event store
    (internal/billing/storage_events.go).
  */
module StorageEvents {
  import opened Wrappers
  import opened Text
  import StorageLedger

  datatype Kind = Created | Deleted

  datatype StorageEvent = StorageEvent(kind: Kind, key: string, size: int)

  /** One record of a notification; deletions usually carry no size. */
  datatype Record = Record(eventName: string, bucket: string, key: string, size: Option<int>)

  const BUCKET_PREFIX := "kmail-"

  // ---- Routing ------------------------------------------------------------------------------

  function ClassifyEventName(name: string): Option<Kind> {
    if HasPrefix(name, "s3:ObjectCreated:") then Some(Created)
    else if HasPrefix(name, "s3:ObjectRemoved:") then Some(Deleted)
    else None
  }

  /** The tenant that owns a bucket, or "" when it is not a tenant's. */
  function TenantIDFromBucket(bucket: string): string {
    var b := TrimSpace(bucket);
    if |b| > |BUCKET_PREFIX| && EqualFold(b[..|BUCKET_PREFIX|], BUCKET_PREFIX) then b[|BUCKET_PREFIX|..] else ""
  }

  function BucketNameFor(tenant: string): string {
    "kmail-" + ToLower(TrimSpace(tenant))
  }

  /** Lower-casing neither makes nor removes surrounding whitespace. */
  lemma LowerStaysTrimmed(t: string)
    requires t == [] || (!IsSpace(t[0]) && !IsSpace(t[|t| - 1]))
    ensures TrimSpace("kmail-" + ToLower(t)) == "kmail-" + ToLower(t)
  {
    hide TrimSpace;
    var b := "kmail-" + ToLower(t);
    assert b[0] == 'k' && b[|b| - 1] == if t == "" then '-' else LowerChar(t[|t| - 1]);
  }

  /** Notifications for a provisioned bucket come back to its tenant. */
  lemma BucketRoundTrip(tenant: string)
    ensures TenantIDFromBucket(BucketNameFor(tenant)) == ToLower(TrimSpace(tenant))
  {
    hide TrimSpace, ToLower;
    var t := TrimSpace(tenant);
    LowerStaysTrimmed(t);
    var b := "kmail-" + ToLower(t);
    assert b[..6] == "kmail-" && b[6..] == ToLower(t);
  }

  /** The event a record stands for, with its tenant. */
  datatype Routed = Routed(tenant: string, event: StorageEvent)

  /** `decode` is the best-effort URL decoding of object keys. */
  function Route(decode: string -> string, rec: Record): Option<Routed> {
    var kind, tenant := ClassifyEventName(rec.eventName), TenantIDFromBucket(rec.bucket);
    if kind.None? || tenant == "" then None
    else Some(Routed(tenant, StorageEvent(kind.value, decode(rec.key), if rec.size.Some? then rec.size.value else 0)))
  }

  /** A tenant's routable records, in arrival order. */
  function EventsFor(decode: string -> string, records: seq<Record>, tenant: string): seq<StorageEvent> {
    if records == [] then []
    else
      var rest, last := EventsFor(decode, records[..|records| - 1], tenant), Route(decode, records[|records| - 1]);
      if last.Some? && last.value.tenant == tenant then rest + [last.value.event] else rest
  }

  function Signed(e: StorageEvent): int {
    if e.kind.Created? then e.size else -e.size
  }

  function NetBytes(events: seq<StorageEvent>): int {
    if events == [] then 0 else NetBytes(events[..|events| - 1]) + Signed(events[|events| - 1])
  }

  function CountOf(events: seq<StorageEvent>, kind: Kind): nat {
    if events == [] then 0
    else CountOf(events[..|events| - 1], kind) + (if events[|events| - 1].kind == kind then 1 else 0)
  }

  lemma TalliesSnoc(events: seq<StorageEvent>, e: StorageEvent)
    ensures NetBytes(events + [e]) == NetBytes(events) + Signed(e)
    ensures CountOf(events + [e], Created) == CountOf(events, Created) + (if e.kind.Created? then 1 else 0)
    ensures CountOf(events + [e], Deleted) == CountOf(events, Deleted) + (if e.kind.Created? then 0 else 1)
  {
    assert (events + [e])[..|events|] == events;
  }

  lemma {:induction false} NetBytesConcat(xs: seq<StorageEvent>, ys: seq<StorageEvent>)
    ensures NetBytes(xs + ys) == NetBytes(xs) + NetBytes(ys)
  {
    if ys == [] {
      assert xs + ys == xs;
    } else {
      assert (xs + ys)[..|xs + ys| - 1] == xs + ys[..|ys| - 1];
      NetBytesConcat(xs, ys[..|ys| - 1]);
    }
  }

  // ---- Grouping -----------------------------------------------------------------------------

  datatype Pending = Pending(events: seq<StorageEvent>, created: nat, deleted: nat, netBytes: int)

  /** A group is its tenant's records, tallied. */
  ghost predicate IsGroup(p: Pending, events: seq<StorageEvent>) {
    p == Pending(events, CountOf(events, Created), CountOf(events, Deleted), NetBytes(events))
  }

  ghost predicate IsGroupFor(events: seq<StorageEvent>, byTenant: map<string, Pending>, order: seq<string>,
      tenant: string) {
    (tenant in byTenant <==> events != []) && (tenant in order <==> events != []) &&
    (tenant in byTenant ==> IsGroup(byTenant[tenant], events))
  }

  ghost predicate Grouped(decode: string -> string, records: seq<Record>, byTenant: map<string, Pending>,
      order: seq<string>, tenant: string) {
    IsGroupFor(EventsFor(decode, records, tenant), byTenant, order, tenant)
  }

  /** The groups cover exactly the tenants with records; `order` lists each once. */
  ghost predicate IsGrouping(decode: string -> string, records: seq<Record>, byTenant: map<string, Pending>,
      order: seq<string>) {
    (forall t: string :: Grouped(decode, records, byTenant, order, t)) && Distinct(order)
  }

  predicate Distinct(order: seq<string>) {
    forall i, j :: 0 <= i < j < |order| ==> order[i] != order[j]
  }

  function Grown(p: Pending, e: StorageEvent): Pending {
    Pending(p.events + [e], p.created + (if e.kind.Created? then 1 else 0),
            p.deleted + (if e.kind.Created? then 0 else 1), p.netBytes + Signed(e))
  }

  const NOTHING_PENDING := Pending([], 0, 0, 0)

  lemma GroupGrows(p: Pending, events: seq<StorageEvent>, e: StorageEvent)
    requires IsGroup(p, events)
    ensures IsGroup(Grown(p, e), events + [e])
  {
    hide NetBytes, CountOf;
    TalliesSnoc(events, e);
  }

  lemma NothingIsGroup()
    ensures IsGroup(NOTHING_PENDING, [])
  {
  }

  lemma EventsForNext(decode: string -> string, records: seq<Record>, i: nat, tenant: string)
    requires i < |records|
    ensures var next := Route(decode, records[i]);
      EventsFor(decode, records[..i + 1], tenant) == EventsFor(decode, records[..i], tenant) +
        if next.Some? && next.value.tenant == tenant then [next.value.event] else []
  {
    assert records[..i + 1][..i] == records[..i];
  }

  lemma GroupingSkips(decode: string -> string, records: seq<Record>, i: nat, byTenant: map<string, Pending>,
      order: seq<string>)
    requires i < |records| && Route(decode, records[i]).None?
    requires IsGrouping(decode, records[..i], byTenant, order)
    ensures IsGrouping(decode, records[..i + 1], byTenant, order)
  {
    hide Route;
    var more := records[..i + 1];
    forall t: string ensures Grouped(decode, more, byTenant, order, t) {
      hide IsGroupFor, EventsFor;
      EventsForNext(decode, records, i, t);
      assert EventsFor(decode, records[..i], t) + [] == EventsFor(decode, records[..i], t);
      assert Grouped(decode, records[..i], byTenant, order, t);
    }
  }

  /** The tenant's group, empty before its first record. */
  function Get(byTenant: map<string, Pending>, tenant: string): Pending {
    if tenant in byTenant then byTenant[tenant] else NOTHING_PENDING
  }

  function Listed(byTenant: map<string, Pending>, order: seq<string>, tenant: string): seq<string> {
    if tenant in byTenant then order else order + [tenant]
  }

  lemma GroupForGrows(events: seq<StorageEvent>, byTenant: map<string, Pending>, order: seq<string>, tenant: string,
      e: StorageEvent, t: string)
    requires IsGroupFor(events, byTenant, order, t)
    ensures IsGroupFor(if t == tenant then events + [e] else events,
                       byTenant[tenant := Grown(Get(byTenant, tenant), e)], Listed(byTenant, order, tenant), t)
  {
    hide IsGroup, Grown;
    if t == tenant {
      NothingIsGroup();
      GroupGrows(Get(byTenant, tenant), events, e);
    }
  }

  lemma GroupingGrows(decode: string -> string, records: seq<Record>, i: nat, byTenant: map<string, Pending>,
      order: seq<string>,
                      tenant: string, e: StorageEvent)
    requires i < |records| && Route(decode, records[i]) == Some(Routed(tenant, e))
    requires IsGrouping(decode, records[..i], byTenant, order)
    ensures IsGrouping(decode, records[..i + 1], byTenant[tenant := Grown(Get(byTenant, tenant), e)],
      Listed(byTenant, order, tenant))
  {
    hide Route, Grown, Get, EventsFor, IsGroup;
    var grown := byTenant[tenant := Grown(Get(byTenant, tenant), e)];
    assert Grouped(decode, records[..i], byTenant, order, tenant);
    var more, listed := records[..i + 1], Listed(byTenant, order, tenant);
    forall t: string ensures Grouped(decode, more, grown, listed, t) {
      hide IsGroupFor, Listed;
      EventsForNext(decode, records, i, t);
      assert Grouped(decode, records[..i], byTenant, order, t);
      GroupForGrows(EventsFor(decode, records[..i], t), byTenant, order, tenant, e, t);
      assert EventsFor(decode, records[..i], t) + [] == EventsFor(decode, records[..i], t);
    }
  }

  lemma NothingGrouped(decode: string -> string)
    ensures IsGrouping(decode, [], map[], [])
  {
  }

  method Group(decode: string -> string, records: seq<Record>)
    returns (byTenant: map<string, Pending>, order: seq<string>)
    ensures IsGrouping(decode, records, byTenant, order)
    ensures "" !in order
  {
    hide IsGrouping, EventsFor, TenantIDFromBucket, ClassifyEventName;
    byTenant, order := map[], [];
    NothingGrouped(decode);
    for i := 0 to |records|
      invariant IsGrouping(decode, records[..i], byTenant, order)
      invariant "" !in order
    {
      var rec := records[i];
      var kind := ClassifyEventName(rec.eventName);
      if kind.None? {
        GroupingSkips(decode, records, i, byTenant, order);
        continue;
      }
      var tenant := TenantIDFromBucket(rec.bucket);
      if tenant == "" {
        GroupingSkips(decode, records, i, byTenant, order);
        continue;
      }
      var size := if rec.size.Some? then rec.size.value else 0;
      var e := StorageEvent(kind.value, decode(rec.key), size);
      GroupingGrows(decode, records, i, byTenant, order, tenant, e);
      var p := NOTHING_PENDING;
      if tenant in byTenant {
        p := byTenant[tenant];
      } else {
        order := order + [tenant];
      }
      p := p.(events := p.events + [e]);
      if kind.value == Created {
        p := p.(created := p.created + 1, netBytes := p.netBytes + size);
      } else {
        p := p.(deleted := p.deleted + 1, netBytes := p.netBytes - size);
      }
      byTenant := byTenant[tenant := p];
    }
    assert records[..|records|] == records;
  }

  // ---- The store ----------------------------------------------------------------------------

  datatype Row = Row(tenant: string, event: StorageEvent)

  datatype Error = InvalidInput | RolledBack

  type Outcome<T> = Result<T, Error>

  /** A tenant's rows, in insertion order. */
  function RowsOf(rows: seq<Row>, tenant: string): seq<StorageEvent> {
    if rows == [] then []
    else
      var rest, last := RowsOf(rows[..|rows| - 1], tenant), rows[|rows| - 1];
      if last.tenant == tenant then rest + [last.event] else rest
  }

  predicate ValidBatch(events: seq<StorageEvent>) {
    forall i :: 0 <= i < |events| ==> events[i].size >= 0
  }

  lemma ValidBatchIff(events: seq<StorageEvent>)
    ensures ValidBatch(events) <==> forall e :: e in events ==> e.size >= 0
  {
    assert forall i :: 0 <= i < |events| ==> events[i] in events;
  }

  function RowsFor(tenant: string, events: seq<StorageEvent>): seq<Row> {
    seq(|events|, i requires 0 <= i < |events| => Row(tenant, events[i]))
  }

  lemma {:induction false} RowsOfConcat(xs: seq<Row>, ys: seq<Row>, tenant: string)
    ensures RowsOf(xs + ys, tenant) == RowsOf(xs, tenant) + RowsOf(ys, tenant)
  {
    if ys == [] {
      assert xs + ys == xs;
    } else {
      assert (xs + ys)[..|xs + ys| - 1] == xs + ys[..|ys| - 1];
      RowsOfConcat(xs, ys[..|ys| - 1], tenant);
    }
  }

  lemma {:induction false} RowsOfBatch(owner: string, events: seq<StorageEvent>, tenant: string)
    ensures RowsOf(RowsFor(owner, events), tenant) == if owner == tenant then events else []
  {
    if events != [] {
      var n := |events| - 1;
      assert RowsFor(owner, events)[..n] == RowsFor(owner, events[..n]);
      RowsOfBatch(owner, events[..n], tenant);
      assert events == events[..n] + [events[n]];
    }
  }

  class EventStore {
    var rows: seq<Row>

    constructor ()
      ensures rows == []
    {
      rows := [];
    }

    /** Appends the batch in one transaction; `failAt` is the insert the database rejects, if any.
        All of the batch is stored or none of it. */
    method RecordEvents(tenant: string, events: seq<StorageEvent>, failAt: Option<nat>) returns (r: Outcome<()>)
      modifies this
      ensures r.Ok? <==>
        && tenant != "" && (forall e :: e in events ==> e.size >= 0)
        && !(failAt.Some? && failAt.value < |events|)
      ensures r == Err(InvalidInput) <==> tenant == "" || exists e :: e in events && e.size < 0
      ensures rows == if r.Ok? then old(rows) + RowsFor(tenant, events) else old(rows)
    {
      if tenant == "" {
        return Err(InvalidInput);
      }
      for i := 0 to |events|
        invariant ValidBatch(events[..i])
      {
        if events[i].size < 0 {
          assert events[i] in events;
          return Err(InvalidInput);
        }
      }
      assert events[..|events|] == events;
      var working := rows;
      for i := 0 to |events|
        invariant working == rows + RowsFor(tenant, events[..i]) && rows == old(rows)
        invariant failAt.Some? ==> i <= failAt.value
      {
        if failAt == Some(i) {
          return Err(RolledBack);
        }
        working := working + [Row(tenant, events[i])];
        assert RowsFor(tenant, events[..i + 1]) == RowsFor(tenant, events[..i]) + [Row(tenant, events[i])];
      }
      rows := working;
      r := Ok(());
    }

    /** Created minus deleted bytes over the tenant's rows. */
    method ReconcileTenant(tenant: string) returns (r: Outcome<int>)
      ensures r.Err? <==> tenant == ""
      ensures r.Ok? ==> r.value == NetBytes(RowsOf(rows, tenant))
    {
      if tenant == "" {
        return Err(InvalidInput);
      }
      var total := 0;
      for i := 0 to |rows|
        invariant total == NetBytes(RowsOf(rows[..i], tenant))
      {
        assert rows[..i + 1][..i] == rows[..i];
        TalliesSnoc(RowsOf(rows[..i], tenant), rows[i].event);
        if rows[i].tenant == tenant {
          if rows[i].event.kind == Created {
            total := total + rows[i].event.size;
          } else {
            total := total - rows[i].event.size;
          }
        }
      }
      assert rows[..|rows|] == rows;
      r := Ok(total);
    }
  }

  // ---- Deliveries ---------------------------------------------------------------------------

  /** A notification as delivered, and where each tenant's transaction fails, if it does. */
  datatype Delivery = Delivery(records: seq<Record>, failAt: map<string, nat>)

  function FailureOf(d: Delivery, tenant: string): Option<nat> {
    if tenant in d.failAt then Some(d.failAt[tenant]) else None
  }

  /** The tenant's batch is one the store accepts and its transaction commits. */
  predicate Commits(events: seq<StorageEvent>, failAt: Option<nat>) {
    ValidBatch(events) && !(failAt.Some? && failAt.value < |events|)
  }

  function Committed(decode: string -> string, d: Delivery, tenant: string): seq<StorageEvent> {
    var events := EventsFor(decode, d.records, tenant);
    if Commits(events, FailureOf(d, tenant)) then events else []
  }

  /** Some tenant's batch was rolled back, so the sender is asked to retry. */
  ghost predicate Fails(decode: string -> string, d: Delivery) {
    exists t: string :: FailsFor(decode, d, t)
  }

  ghost predicate FailsFor(decode: string -> string, d: Delivery, tenant: string) {
    EventsFor(decode, d.records, tenant) != [] && !Commits(EventsFor(decode, d.records, tenant), FailureOf(d, tenant))
  }

  /** After the delivery every tenant has its committed batch appended, whole and in order. */
  ghost predicate Appends(decode: string -> string, before: seq<Row>, d: Delivery, after: seq<Row>) {
    forall t: string :: AppendsFor(decode, before, d, after, t)
  }

  ghost predicate AppendsFor(decode: string -> string, before: seq<Row>, d: Delivery, after: seq<Row>, tenant: string) {
    RowsOf(after, tenant) == RowsOf(before, tenant) + Committed(decode, d, tenant)
  }

  datatype Ingested = Ingested(tenant: string, created: nat, deleted: nat, netBytes: int)

  function Tally(tenant: string, events: seq<StorageEvent>): Ingested {
    Ingested(tenant, CountOf(events, Created), CountOf(events, Deleted), NetBytes(events))
  }

  /** One entry per tenant whose batch committed. */
  function AuditOf(decode: string -> string, d: Delivery, order: seq<string>): seq<Ingested> {
    if order == [] then []
    else
      AuditOf(decode, d, order[..|order| - 1]) + AuditFor(decode, d, order[|order| - 1])
  }

  function AuditFor(decode: string -> string, d: Delivery, tenant: string): seq<Ingested> {
    var events := EventsFor(decode, d.records, tenant);
    if Commits(events, FailureOf(d, tenant)) then [Tally(tenant, events)] else []
  }

  lemma AuditNext(decode: string -> string, d: Delivery, order: seq<string>, i: nat)
    requires i < |order|
    ensures AuditOf(decode, d, order[..i + 1]) == AuditOf(decode, d, order[..i]) + AuditFor(decode, d, order[i])
  {
    hide AuditFor;
    assert order[..i + 1][..i] == order[..i];
  }

  /** The tenants of `finished` have been recorded, the others not yet. */
  ghost predicate Settled(decode: string -> string, before: seq<Row>, d: Delivery, rows: seq<Row>,
      finished: seq<string>) {
    forall t: string :: SettledFor(decode, before, d, rows, finished, t)
  }

  ghost predicate SettledFor(decode: string -> string, before: seq<Row>, d: Delivery, rows: seq<Row>,
      finished: seq<string>, t: string) {
    RowsOf(rows, t) == RowsOf(before, t) + if t in finished then Committed(decode, d, t) else []
  }

  lemma SettleNext(decode: string -> string, before: seq<Row>, d: Delivery, rows: seq<Row>, settled: seq<Row>,
      order: seq<string>, i: nat)
    requires i < |order| && Distinct(order) && Settled(decode, before, d, rows, order[..i])
    requires settled == rows + RowsFor(order[i], Committed(decode, d, order[i]))
    ensures Settled(decode, before, d, settled, order[..i + 1])
  {
    hide RowsOf, Committed, RowsFor;
    var finished := order[..i + 1];
    forall t: string ensures SettledFor(decode, before, d, settled, finished, t) {
      assert SettledFor(decode, before, d, rows, order[..i], t);
      RowsOfConcat(rows, RowsFor(order[i], Committed(decode, d, order[i])), t);
      RowsOfBatch(order[i], Committed(decode, d, order[i]), t);
      assert t in finished <==> t in order[..i] || t == order[i];
    }
  }

  lemma SettleNone(decode: string -> string, before: seq<Row>, d: Delivery)
    ensures Settled(decode, before, d, before, [])
  {
    hide RowsOf;
  }

  lemma SettledAppends(decode: string -> string, before: seq<Row>, d: Delivery, rows: seq<Row>, order: seq<string>)
    requires Settled(decode, before, d, rows, order)
    requires forall t: string :: EventsFor(decode, d.records, t) != [] ==> t in order
    ensures Appends(decode, before, d, rows)
  {
    hide RowsOf, EventsFor;
    forall t: string ensures AppendsFor(decode, before, d, rows, t) {
      assert SettledFor(decode, before, d, rows, order, t);
    }
  }

  ghost predicate ListsTenants(decode: string -> string, records: seq<Record>, order: seq<string>) {
    Distinct(order) && "" !in order && forall t: string :: t in order <==> EventsFor(decode, records, t) != []
  }

  class Webhook {
    const store: EventStore
    var audit: seq<Ingested>

    constructor (store: EventStore)
      ensures this.store == store && audit == []
    {
      this.store := store;
      audit := [];
    }

    /** Records one tenant's batch and, if it commits, its tallies. */
    method Ingest(decode: string -> string, d: Delivery, tenant: string, p: Pending) returns (ok: bool)
      requires IsGroup(p, EventsFor(decode, d.records, tenant)) && EventsFor(decode, d.records, tenant) != [] &&
        tenant != ""
      modifies this, store
      ensures ok <==> !FailsFor(decode, d, tenant)
      ensures store.rows == old(store.rows) + RowsFor(tenant, Committed(decode, d, tenant))
      ensures audit == old(audit) + AuditFor(decode, d, tenant)
    {
      hide EventsFor, CountOf, NetBytes, ValidBatch;
      ValidBatchIff(p.events);
      var r := store.RecordEvents(tenant, p.events, FailureOf(d, tenant));
      if r.Err? {
        return false;
      }
      audit := audit + [Ingested(tenant, p.created, p.deleted, p.netBytes)];
      return true;
    }

    /** Groups the records, then records each tenant's batch in its own transaction. */
    method Serve(decode: string -> string, d: Delivery) returns (failed: bool, ghost order: seq<string>)
      modifies this, store
      ensures Appends(decode, old(store.rows), d, store.rows)
      ensures failed <==> Fails(decode, d)
      ensures ListsTenants(decode, d.records, order) && audit == old(audit) + AuditOf(decode, d, order)
    {
      hide EventsFor, Settled, Commits, RowsFor, Fails, Appends;
      hide IsGrouping, IsGroup, AuditOf, AuditFor, FailsFor, Committed;
      var byTenant, tenants := Group(decode, d.records);
      order, failed := tenants, false;
      ghost var before, entries := store.rows, audit;
      GroupingLists(decode, d.records, byTenant, order);
      SettleNone(decode, before, d);
      AuditNone(decode, d);
      for i := 0 to |tenants|
        invariant Settled(decode, before, d, store.rows, tenants[..i])
        invariant audit == entries + AuditOf(decode, d, tenants[..i])
        invariant failed <==> exists k :: 0 <= k < i && FailsFor(decode, d, tenants[k])
      {
        assert tenants[i] in order;
        ghost var rows := store.rows;
        var ok := Ingest(decode, d, tenants[i], byTenant[tenants[i]]);
        SettleNext(decode, before, d, rows, store.rows, tenants, i);
        AuditNext(decode, d, tenants, i);
        if !ok {
          failed := true;
        }
      }
      assert tenants[..|tenants|] == tenants;
      SettledAppends(decode, before, d, store.rows, order);
      FailsListed(decode, d, order);
    }

    static lemma AuditNone(decode: string -> string, d: Delivery)
      ensures AuditOf(decode, d, []) == []
    {
    }

    static lemma GroupingLists(decode: string -> string, records: seq<Record>, byTenant: map<string, Pending>,
        order: seq<string>)
      requires IsGrouping(decode, records, byTenant, order) && "" !in order
      ensures ListsTenants(decode, records, order)
      ensures forall t: string :: t in order ==> t in byTenant && IsGroup(byTenant[t], EventsFor(decode, records, t))
    {
      hide EventsFor, IsGroup;
      forall t: string ensures t in order <==> EventsFor(decode, records, t) != [] {
        assert Grouped(decode, records, byTenant, order, t);
      }
      forall t: string | t in order ensures t in byTenant && IsGroup(byTenant[t], EventsFor(decode, records, t)) {
        assert Grouped(decode, records, byTenant, order, t);
      }
    }

    static lemma FailsListed(decode: string -> string, d: Delivery, order: seq<string>)
      requires ListsTenants(decode, d.records, order)
      ensures Fails(decode, d) <==> exists k :: 0 <= k < |order| && FailsFor(decode, d, order[k])
    {
      hide EventsFor, Commits;
      if Fails(decode, d) {
        var t: string :| FailsFor(decode, d, t);
        assert t in order;
        var k :| 0 <= k < |order| && order[k] == t;
        assert FailsFor(decode, d, order[k]);
      }
    }
  }

  // ---- Histories of deliveries ----------------------------------------------------------------

  /** `states[i + 1]` is the table after delivery `i`, starting from an empty one. */
  ghost predicate IsTrace(decode: string -> string, states: seq<seq<Row>>, history: seq<Delivery>) {
    |states| == |history| + 1 && states[0] == [] &&
    forall i :: 0 <= i < |history| ==> Appends(decode, states[i], history[i], states[i + 1])
  }

  /** A tenant's committed batches, one after another. */
  function Stored(decode: string -> string, history: seq<Delivery>, tenant: string): seq<StorageEvent> {
    if history == [] then []
    else Stored(decode, history[..|history| - 1], tenant) + Committed(decode, history[|history| - 1], tenant)
  }

  /** The signed sum over those batches. */
  function StoredBytes(decode: string -> string, history: seq<Delivery>, tenant: string): int {
    if history == [] then 0
    else StoredBytes(decode, history[..|history| - 1], tenant) +
         NetBytes(Committed(decode, history[|history| - 1], tenant))
  }

  /** Whatever is rolled back, the tenant's rows are its committed batches and its total is their
      signed sum. */
  lemma {:induction false} TotalsAreCommitted(decode: string -> string, states: seq<seq<Row>>,
      history: seq<Delivery>, tenant: string)
    requires IsTrace(decode, states, history)
    ensures RowsOf(states[|history|], tenant) == Stored(decode, history, tenant)
    ensures NetBytes(RowsOf(states[|history|], tenant)) == StoredBytes(decode, history, tenant)
    decreases |history|
  {
    if history != [] {
      hide NetBytes, Committed, Appends;
      var n := |history| - 1;
      assert IsTrace(decode, states[..n + 1], history[..n]);
      TotalsAreCommitted(decode, states[..n + 1], history[..n], tenant);
      AppendsTo(decode, states[n], history[n], states[n + 1], tenant);
      NetBytesConcat(Stored(decode, history[..n], tenant), Committed(decode, history[n], tenant));
    }
  }

  lemma AppendsTo(decode: string -> string, before: seq<Row>, d: Delivery, after: seq<Row>, tenant: string)
    requires Appends(decode, before, d, after)
    ensures RowsOf(after, tenant) == RowsOf(before, tenant) + Committed(decode, d, tenant)
  {
    hide RowsOf, Committed;
    assert AppendsFor(decode, before, d, after, tenant);
  }

  // ---- By the names and sizes of the records ----------------------------------------------------

  predicate IsCreation(rec: Record) {
    HasPrefix(rec.eventName, "s3:ObjectCreated:")
  }

  predicate IsRemoval(rec: Record) {
    HasPrefix(rec.eventName, "s3:ObjectRemoved:")
  }

  /** The record's bucket is the tenant's: the prefix in any letter case, then the tenant. */
  predicate InBucketOf(rec: Record, tenant: string) {
    var b := TrimSpace(rec.bucket);
    tenant != "" && |b| == 6 + |tenant| && ToLower(b[..6]) == "kmail-" && b[6..] == tenant
  }

  /** A missing size counts as 0. */
  function SizeOf(rec: Record): int {
    match rec.size
    case Some(n) => n
    case None => 0
  }

  /** What the record does to its tenant's total. */
  function Change(rec: Record): int {
    if IsCreation(rec) then SizeOf(rec) else if IsRemoval(rec) then -SizeOf(rec) else 0
  }

  function Changes(records: seq<Record>, tenant: string): int {
    if records == [] then 0
    else
      var last := records[|records| - 1];
      Changes(records[..|records| - 1], tenant) + (if InBucketOf(last, tenant) then Change(last) else 0)
  }

  /** A record is a tenant's event exactly when its name is that of a creation or removal and its bucket
      is the tenant's; the event has its kind, its decoded key and its size. */
  lemma RouteByName(decode: string -> string, rec: Record, tenant: string)
    ensures var r := Route(decode, rec);
      && (r.Some? && r.value.tenant == tenant <==> (IsCreation(rec) || IsRemoval(rec)) && InBucketOf(rec, tenant))
      && (r.Some? ==> (r.value.event.kind == Created <==> IsCreation(rec)) && r.value.event.key == decode(rec.key))
      && (r.Some? ==> r.value.event.size == SizeOf(rec))
  {
    hide TrimSpace, ToLower;
    assert ToLower("kmail-") == "kmail-";
    OneKind(rec.eventName);
    var b := TrimSpace(rec.bucket);
    if |b| > 6 {
      assert b[6..] != "";
    }
  }

  lemma OneKind(name: string)
    ensures !(HasPrefix(name, "s3:ObjectCreated:") && HasPrefix(name, "s3:ObjectRemoved:"))
  {
    if HasPrefix(name, "s3:ObjectCreated:") {
      assert name[9] == name[..17][9] == 'C';
    }
    if HasPrefix(name, "s3:ObjectRemoved:") {
      assert name[9] == name[..17][9] == 'R';
    }
  }

  lemma {:induction false} NetBytesByName(decode: string -> string, records: seq<Record>, tenant: string)
    ensures NetBytes(EventsFor(decode, records, tenant)) == Changes(records, tenant)
  {
    hide Route, InBucketOf, IsCreation, IsRemoval;
    if records != [] {
      var n := |records| - 1;
      NetBytesByName(decode, records[..n], tenant);
      RouteByName(decode, records[n], tenant);
      var r := Route(decode, records[n]);
      if r.Some? && r.value.tenant == tenant {
        TalliesSnoc(EventsFor(decode, records[..n], tenant), r.value.event);
      }
    }
  }

  /** How many of the tenant's records are creations, and how many removals. */
  function Named(records: seq<Record>, tenant: string, removals: bool): nat {
    if records == [] then 0
    else
      var last := records[|records| - 1];
      Named(records[..|records| - 1], tenant, removals) +
      (if InBucketOf(last, tenant) && (if removals then IsRemoval(last) else IsCreation(last)) then 1 else 0)
  }

  /** The audit entry of a committed batch counts the creations, the removals and the bytes. */
  lemma TallyByName(decode: string -> string, records: seq<Record>, tenant: string)
    ensures Tally(tenant, EventsFor(decode, records, tenant)) ==
      Ingested(tenant, Named(records, tenant, false), Named(records, tenant, true), Changes(records, tenant))
  {
    hide EventsFor, CountOf, NetBytes, Named, Changes;
    NetBytesByName(decode, records, tenant);
    CountsByName(decode, records, tenant);
  }

  lemma {:induction false} CountsByName(decode: string -> string, records: seq<Record>, tenant: string)
    ensures CountOf(EventsFor(decode, records, tenant), Created) == Named(records, tenant, false)
    ensures CountOf(EventsFor(decode, records, tenant), Deleted) == Named(records, tenant, true)
  {
    hide Route, InBucketOf, IsCreation, IsRemoval, CountOf;
    if records == [] {
      NothingCounted();
    } else {
      var n := |records| - 1;
      CountsByName(decode, records[..n], tenant);
      RouteByName(decode, records[n], tenant);
      KindsApart(records[n]);
      var r := Route(decode, records[n]);
      if r.Some? && r.value.tenant == tenant {
        TalliesSnoc(EventsFor(decode, records[..n], tenant), r.value.event);
      }
    }
  }

  lemma NothingCounted()
    ensures CountOf([], Created) == 0 && CountOf([], Deleted) == 0
  {
  }

  lemma KindsApart(rec: Record)
    ensures !(IsCreation(rec) && IsRemoval(rec))
  {
    OneKind(rec.eventName);
  }

  /** A served notification whose batch for a tenant commits moves the tenant's total by the sizes of its
      creations minus those of its removals, and one rolled back not at all. */
  lemma ServedMovesTotal(decode: string -> string, before: seq<Row>, d: Delivery, after: seq<Row>, tenant: string)
    requires Appends(decode, before, d, after)
    ensures NetBytes(RowsOf(after, tenant)) == NetBytes(RowsOf(before, tenant)) +
      if Commits(EventsFor(decode, d.records, tenant), FailureOf(d, tenant)) then Changes(d.records, tenant) else 0
  {
    hide Appends, RowsOf, Commits, EventsFor, Changes;
    AppendsTo(decode, before, d, after, tenant);
    NetBytesConcat(RowsOf(before, tenant), Committed(decode, d, tenant));
    NetBytesByName(decode, d.records, tenant);
  }

  /** The changes of the notifications whose batch for the tenant committed. */
  function ChangesOver(decode: string -> string, history: seq<Delivery>, tenant: string): int {
    if history == [] then 0
    else
      var last := history[|history| - 1];
      ChangesOver(decode, history[..|history| - 1], tenant) +
      (if Commits(EventsFor(decode, last.records, tenant), FailureOf(last, tenant)) then Changes(last.records, tenant)
       else 0)
  }

  /** After any history the tenant's total is that of its committed records, by their names and sizes. */
  lemma {:induction false} TotalsByName(decode: string -> string, states: seq<seq<Row>>, history: seq<Delivery>,
      tenant: string)
    requires IsTrace(decode, states, history)
    ensures NetBytes(RowsOf(states[|history|], tenant)) == ChangesOver(decode, history, tenant)
    decreases |history|
  {
    hide NetBytes, Commits, Appends, EventsFor, Changes;
    if history == [] {
      NothingStored(tenant);
    } else {
      var n := |history| - 1;
      assert IsTrace(decode, states[..n + 1], history[..n]);
      TotalsByName(decode, states[..n + 1], history[..n], tenant);
      ServedMovesTotal(decode, states[n], history[n], states[n + 1], tenant);
    }
  }

  lemma NothingStored(tenant: string)
    ensures NetBytes(RowsOf([], tenant)) == 0
  {
  }

  lemma {:induction false} StoredConcat(decode: string -> string, xs: seq<Delivery>, ys: seq<Delivery>, tenant: string)
    ensures Stored(decode, xs + ys, tenant) == Stored(decode, xs, tenant) + Stored(decode, ys, tenant)
  {
    hide Committed;
    if ys == [] {
      assert xs + ys == xs;
    } else {
      assert (xs + ys)[..|xs + ys| - 1] == xs + ys[..|ys| - 1];
      StoredConcat(decode, xs, ys[..|ys| - 1], tenant);
    }
  }

  lemma {:induction false} RolledBackStoresNothing(decode: string -> string, history: seq<Delivery>, tenant: string)
    requires forall i :: 0 <= i < |history| ==> FailsFor(decode, history[i], tenant)
    ensures Stored(decode, history, tenant) == []
  {
    hide EventsFor, Commits;
    if history != [] {
      RolledBackStoresNothing(decode, history[..|history| - 1], tenant);
    }
  }

  /** Every routable record of the notification is the tenant's. */
  ghost predicate SingleTenant(decode: string -> string, d: Delivery, tenant: string) {
    forall t: string :: t != tenant ==> EventsFor(decode, d.records, t) == []
  }

  /** A single-tenant notification retried until it is accepted counts exactly once, wherever in
      the history that happens: each attempt that asks for a retry stored nothing. */
  lemma RetryCountsOnce(decode: string -> string, before: seq<Delivery>, attempts: seq<Delivery>, last: Delivery,
                        after: seq<Delivery>, tenant: string)
    requires SingleTenant(decode, last, tenant) && !Fails(decode, last)
    requires forall i :: 0 <= i < |attempts| ==> attempts[i].records == last.records && Fails(decode, attempts[i])
    ensures Stored(decode, before + attempts + [last] + after, tenant) ==
      Stored(decode, before, tenant) + EventsFor(decode, last.records, tenant) + Stored(decode, after, tenant)
  {
    hide EventsFor, Stored, Commits;
    forall i | 0 <= i < |attempts| ensures FailsFor(decode, attempts[i], tenant) {
      assert Fails(decode, attempts[i]);
      var t: string :| FailsFor(decode, attempts[i], t);
      assert t == tenant;
    }
    RolledBackStoresNothing(decode, attempts, tenant);
    AcceptedStoresAll(decode, last, tenant);
    StoredConcat(decode, before + attempts + [last], after, tenant);
    StoredConcat(decode, before + attempts, [last], tenant);
    StoredConcat(decode, before, attempts, tenant);
  }

  lemma AcceptedStoresAll(decode: string -> string, d: Delivery, tenant: string)
    requires !Fails(decode, d)
    ensures Stored(decode, [d], tenant) == EventsFor(decode, d.records, tenant)
  {
    hide EventsFor;
    assert !FailsFor(decode, d, tenant);
    assert [d][..0] == [];
  }

  // ---- Retries of any notification ------------------------------------------------------------

  function Repeat(events: seq<StorageEvent>, n: nat): seq<StorageEvent> {
    if n == 0 then [] else Repeat(events, n - 1) + events
  }

  ghost predicate SameRecords(history: seq<Delivery>, records: seq<Record>) {
    forall i :: 0 <= i < |history| ==> history[i].records == records
  }

  /** How many of the deliveries commit the tenant's batch. */
  function Commitments(decode: string -> string, history: seq<Delivery>, tenant: string): nat {
    if history == [] then 0
    else
      var d := history[|history| - 1];
      var commits := Commits(EventsFor(decode, d.records, tenant), FailureOf(d, tenant));
      Commitments(decode, history[..|history| - 1], tenant) + (if commits then 1 else 0)
  }

  /** Over any deliveries of one notification, a tenant's batch is stored once for each that commits
      it. */
  lemma {:induction false} StoredRepeats(decode: string -> string, history: seq<Delivery>, records: seq<Record>,
      tenant: string)
    requires SameRecords(history, records)
    ensures Stored(decode, history, tenant) ==
      Repeat(EventsFor(decode, records, tenant), Commitments(decode, history, tenant))
  {
    hide EventsFor, Commits;
    if history != [] {
      StoredRepeats(decode, history[..|history| - 1], records, tenant);
      assert Stored(decode, history[..|history| - 1], tenant) + [] == Stored(decode, history[..|history| - 1], tenant);
    }
  }

  lemma {:induction false} RepeatLength(events: seq<StorageEvent>, n: nat)
    ensures |Repeat(events, n)| == n * |events|
  {
    if n > 0 {
      RepeatLength(events, n - 1);
    }
  }

  /** A notification delivered again and again while it fails for someone, until it is accepted. */
  ghost predicate IsRetry(decode: string -> string, records: seq<Record>, attempts: seq<Delivery>, last: Delivery) {
    SameRecords(attempts, records) && last.records == records && !Fails(decode, last) &&
    forall i :: 0 <= i < |attempts| ==> Fails(decode, attempts[i])
  }

  ghost predicate StoredOnce(decode: string -> string, records: seq<Record>, history: seq<Delivery>) {
    forall t: string :: StoredOnceFor(decode, records, history, t)
  }

  ghost predicate StoredOnceFor(decode: string -> string, records: seq<Record>, history: seq<Delivery>,
      tenant: string) {
    Stored(decode, history, tenant) == EventsFor(decode, records, tenant)
  }

  /** However its retries after reported failures go, every tenant's batch ends up stored exactly once. */
  ghost predicate OnceDespiteFailures(decode: string -> string, records: seq<Record>) {
    forall attempts, last :: IsRetry(decode, records, attempts, last) ==> StoredOnce(decode, records, attempts + [last])
  }

  ghost predicate HasEvents(decode: string -> string, records: seq<Record>, tenant: string) {
    EventsFor(decode, records, tenant) != []
  }

  ghost predicate AtMostOneTenant(decode: string -> string, records: seq<Record>) {
    forall t: string, u: string :: HasEvents(decode, records, t) && HasEvents(decode, records, u) ==> t == u
  }

  /** No record carries a negative size. */
  ghost predicate AllValid(decode: string -> string, records: seq<Record>) {
    forall t: string :: ValidFor(decode, records, t)
  }

  ghost predicate ValidFor(decode: string -> string, records: seq<Record>, tenant: string) {
    ValidBatch(EventsFor(decode, records, tenant))
  }

  lemma AcceptedWithoutFailure(decode: string -> string, records: seq<Record>)
    requires AllValid(decode, records)
    ensures !Fails(decode, Delivery(records, map[]))
  {
    hide EventsFor, ValidBatch;
    forall t: string ensures !FailsFor(decode, Delivery(records, map[]), t) {
      assert ValidFor(decode, records, t);
    }
  }

  /** A first attempt that fails for `u` alone, and its accepted retry. */
  function FailedFor(records: seq<Record>, u: string): Delivery {
    Delivery(records, map[u := 0])
  }

  /** It stores the batch of every other tenant twice. */
  lemma PartialFailureRepeats(decode: string -> string, records: seq<Record>, t: string, u: string)
    requires AllValid(decode, records) && t != u && HasEvents(decode, records, u)
    ensures IsRetry(decode, records, [FailedFor(records, u)], Delivery(records, map[]))
    ensures var events := EventsFor(decode, records, t);
      Stored(decode, [FailedFor(records, u)] + [Delivery(records, map[])], t) == events + events
  {
    hide EventsFor, ValidBatch, Stored;
    var first, last := FailedFor(records, u), Delivery(records, map[]);
    AcceptedWithoutFailure(decode, records);
    assert FailsFor(decode, first, u);
    assert ValidFor(decode, records, t);
    StoredConcat(decode, [first], [last], t);
    StoredAlone(decode, first, t);
    StoredAlone(decode, last, t);
  }

  lemma StoredAlone(decode: string -> string, d: Delivery, tenant: string)
    ensures Stored(decode, [d], tenant) == Committed(decode, d, tenant)
  {
    hide Committed;
    assert [d][..0] == [];
  }

  lemma SingleTenantOnce(decode: string -> string, records: seq<Record>, attempts: seq<Delivery>, last: Delivery,
      tenant: string)
    requires AtMostOneTenant(decode, records) && IsRetry(decode, records, attempts, last)
    ensures StoredOnceFor(decode, records, attempts + [last], tenant)
  {
    hide EventsFor, Stored, Fails, Commits;
    if HasEvents(decode, records, tenant) {
      forall t: string | t != tenant ensures EventsFor(decode, records, t) == [] {
        assert !HasEvents(decode, records, t);
      }
      RetryCountsOnce(decode, [], attempts, last, [], tenant);
      StoredNothing(decode, tenant);
      assert [] + attempts + [last] + [] == attempts + [last];
    } else {
      StoredRepeats(decode, attempts + [last], records, tenant);
      RepeatLength([], Commitments(decode, attempts + [last], tenant));
    }
  }

  lemma StoredNothing(decode: string -> string, tenant: string)
    ensures Stored(decode, [], tenant) == []
  {
  }

  /** A notification is stored exactly once however its retries after reported failures go, if and only
      if it has routable records for at most one tenant, or a record no store accepts. */
  lemma RetriesStoreOnceIff(decode: string -> string, records: seq<Record>)
    ensures OnceDespiteFailures(decode, records) <==> AtMostOneTenant(decode, records) || !AllValid(decode, records)
  {
    hide EventsFor, Stored, IsRetry, AllValid;
    if AtMostOneTenant(decode, records) || !AllValid(decode, records) {
      forall attempts, last | IsRetry(decode, records, attempts, last)
        ensures StoredOnce(decode, records, attempts + [last])
      {
        AcceptedIsValid(decode, records, attempts, last);
        forall t: string ensures StoredOnceFor(decode, records, attempts + [last], t) {
          SingleTenantOnce(decode, records, attempts, last, t);
        }
      }
    } else {
      var t: string, u: string :| HasEvents(decode, records, t) && HasEvents(decode, records, u) && t != u;
      PartialFailureRepeats(decode, records, t, u);
      var history := [FailedFor(records, u)] + [Delivery(records, map[])];
      assert !StoredOnceFor(decode, records, history, t);
    }
  }

  /** Only a notification without a negative size is ever accepted. */
  lemma AcceptedIsValid(decode: string -> string, records: seq<Record>, attempts: seq<Delivery>, last: Delivery)
    requires IsRetry(decode, records, attempts, last)
    ensures AllValid(decode, records)
  {
    hide EventsFor;
    forall t: string ensures ValidFor(decode, records, t) {
      assert !FailsFor(decode, last, t);
    }
  }

  /** Each tenant with records has exactly one delivery that commits its batch. */
  ghost predicate CommitsOnce(decode: string -> string, records: seq<Record>, history: seq<Delivery>) {
    forall t: string :: CommitsOnceFor(decode, records, history, t)
  }

  ghost predicate CommitsOnceFor(decode: string -> string, records: seq<Record>, history: seq<Delivery>,
      tenant: string) {
    HasEvents(decode, records, tenant) ==> Commitments(decode, history, tenant) == 1
  }

  /** Over any deliveries of one notification, whatever made the sender repeat it, every tenant's batch
      is stored exactly once if and only if each tenant with records has exactly one that commits. */
  lemma ExactlyOnceIff(decode: string -> string, records: seq<Record>, history: seq<Delivery>)
    requires SameRecords(history, records)
    ensures StoredOnce(decode, records, history) <==> CommitsOnce(decode, records, history)
  {
    hide EventsFor, Stored, Commitments, StoredOnceFor, CommitsOnceFor;
    forall t: string
      ensures StoredOnceFor(decode, records, history, t) <==> CommitsOnceFor(decode, records, history, t)
    {
      OnceForTenant(decode, records, history, t);
    }
  }

  lemma OnceForTenant(decode: string -> string, records: seq<Record>, history: seq<Delivery>, tenant: string)
    requires SameRecords(history, records)
    ensures StoredOnceFor(decode, records, history, tenant) <==> CommitsOnceFor(decode, records, history, tenant)
  {
    hide EventsFor, Stored, Commitments, Repeat;
    var events, n := EventsFor(decode, records, tenant), Commitments(decode, history, tenant);
    StoredRepeats(decode, history, records, tenant);
    RepeatLength(events, n);
    RepeatOnce(events);
    if n != 1 && events != [] {
      OtherMultiple(n, |events|);
    }
  }

  lemma OtherMultiple(n: nat, m: nat)
    requires n != 1 && m > 0
    ensures n * m != m
  {
    if n > 1 {
      assert n * m >= 2 * m;
    }
  }

  lemma RepeatOnce(events: seq<StorageEvent>)
    ensures Repeat(events, 1) == events
  {
    assert Repeat(events, 0) == [];
  }

  /** A notification that was accepted and is delivered again, because its acknowledgement was lost, is
      stored twice, for one tenant or many. */
  lemma LostAcknowledgementRepeats(decode: string -> string, records: seq<Record>, tenant: string)
    requires AllValid(decode, records)
    ensures var d, events := Delivery(records, map[]), EventsFor(decode, records, tenant);
      !Fails(decode, d) && Stored(decode, [d, d], tenant) == events + events
    ensures HasEvents(decode, records, tenant) ==>
      !StoredOnce(decode, records, [Delivery(records, map[]), Delivery(records, map[])])
  {
    hide EventsFor, Stored, Fails, AllValid;
    var d, events := Delivery(records, map[]), EventsFor(decode, records, tenant);
    AcceptedWithoutFailure(decode, records);
    AcceptedStoresAll(decode, d, tenant);
    StoredConcat(decode, [d], [d], tenant);
    assert [d] + [d] == [d, d];
    assert StoredOnceFor(decode, records, [d, d], tenant) ==> events == [];
  }

  function CreatedIn(tenant: string): Record {
    Record("s3:ObjectCreated:Put", BucketNameFor(tenant), "key", Some(1))
  }

  lemma RouteOfCreated(decode: string -> string, tenant: string)
    requires tenant != "" && ToLower(TrimSpace(tenant)) == tenant
    ensures Route(decode, CreatedIn(tenant)) == Some(Routed(tenant, StorageEvent(Created, decode("key"), 1)))
  {
    hide TenantIDFromBucket, BucketNameFor, ToLower, TrimSpace;
    BucketRoundTrip(tenant);
    assert "s3:ObjectCreated:Put"[..17] == "s3:ObjectCreated:";
  }

  /** One object created for each of two tenants. */
  const TWO_TENANTS: seq<Record> := [CreatedIn("a"), CreatedIn("b")]

  lemma TwoTenantEvents(decode: string -> string, tenant: string)
    ensures EventsFor(decode, TWO_TENANTS, tenant) ==
      if tenant == "a" || tenant == "b" then [StorageEvent(Created, decode("key"), 1)] else []
  {
    hide Route, EventsFor, CreatedIn;
    LowerLetters();
    RouteOfCreated(decode, "a");
    RouteOfCreated(decode, "b");
    NoRecords(decode, tenant);
    EventsForNext(decode, TWO_TENANTS, 0, tenant);
    EventsForNext(decode, TWO_TENANTS, 1, tenant);
    assert TWO_TENANTS[..2] == TWO_TENANTS && TWO_TENANTS[..0] == [];
  }

  lemma LowerLetters()
    ensures ToLower(TrimSpace("a")) == "a" && ToLower(TrimSpace("b")) == "b"
  {
  }

  lemma NoRecords(decode: string -> string, tenant: string)
    ensures EventsFor(decode, [], tenant) == []
  {
  }

  lemma OneByte(e: StorageEvent)
    requires e.kind.Created? && e.size == 1
    ensures NetBytes([e]) == 1 && NetBytes([e] + [e]) == 2
  {
    assert [e][..0] == [];
    NetBytesConcat([e], [e]);
  }

  /** If the second tenant's batch fails once, the first tenant's object is counted twice. */
  lemma TwoTenantsCountTwice(decode: string -> string)
    ensures IsRetry(decode, TWO_TENANTS, [FailedFor(TWO_TENANTS, "b")], Delivery(TWO_TENANTS, map[]))
    ensures NetBytes(EventsFor(decode, TWO_TENANTS, "a")) == 1
    ensures NetBytes(Stored(decode, [FailedFor(TWO_TENANTS, "b")] + [Delivery(TWO_TENANTS, map[])], "a")) == 2
  {
    hide EventsFor, Stored, IsRetry, TWO_TENANTS, NetBytes;
    forall t: string ensures ValidFor(decode, TWO_TENANTS, t) {
      TwoTenantEvents(decode, t);
    }
    TwoTenantEvents(decode, "a");
    TwoTenantEvents(decode, "b");
    PartialFailureRepeats(decode, TWO_TENANTS, "a", "b");
    OneByte(StorageEvent(Created, decode("key"), 1));
  }

  // ---- The worker -----------------------------------------------------------------------------

  datatype Snapshot = Snapshot(tenant: string, total: int)

  /** What goes wrong during a pass, by tenant: the total cannot be read, or cannot be stored. */
  datatype PassFaults = PassFaults(unread: set<string>, unstored: set<string>)

  predicate Reconciled(faults: PassFaults, tenant: string) {
    tenant != "" && tenant !in faults.unread && tenant !in faults.unstored
  }

  /** The value a pass stores: the total, but never below zero. */
  function Clamped(rows: seq<Row>, tenant: string): int {
    StorageLedger.Max(0, NetBytes(RowsOf(rows, tenant)))
  }

  /** What the worker remembers of earlier passes, and the audit entries it wrote. */
  datatype Memory = Memory(last: map<string, int>, audit: seq<Snapshot>)

  function Noted(m: Memory, tenant: string, total: int): Memory {
    Memory(m.last[tenant := total],
           if tenant in m.last && m.last[tenant] == total then m.audit else m.audit + [Snapshot(tenant, total)])
  }

  function Passed(m: Memory, ids: seq<string>, rows: seq<Row>, faults: PassFaults): Memory {
    if ids == [] then m
    else
      var before, tenant := Passed(m, ids[..|ids| - 1], rows, faults), ids[|ids| - 1];
      if Reconciled(faults, tenant) then Noted(before, tenant, Clamped(rows, tenant)) else before
  }

  lemma {:induction false} PassRemembers(m: Memory, ids: seq<string>, rows: seq<Row>, faults: PassFaults,
      tenant: string)
    requires tenant in ids && Reconciled(faults, tenant)
    ensures var last := Passed(m, ids, rows, faults).last; tenant in last && last[tenant] == Clamped(rows, tenant)
  {
    hide Clamped, Reconciled;
    var n := |ids| - 1;
    if ids[n] != tenant {
      PassRemembers(m, ids[..n], rows, faults, tenant);
    }
  }

  lemma {:induction false} NothingNew(m: Memory, ids: seq<string>, rows: seq<Row>, faults: PassFaults)
    requires forall t :: t in ids && Reconciled(faults, t) ==> t in m.last && m.last[t] == Clamped(rows, t)
    ensures Passed(m, ids, rows, faults) == m
  {
    hide Clamped, Reconciled;
    if ids != [] {
      var n := |ids| - 1;
      NothingNew(m, ids[..n], rows, faults);
      assert Reconciled(faults, ids[n]) ==> m.last[ids[n] := Clamped(rows, ids[n])] == m.last;
    }
  }

  /** A second pass over an unchanged store writes no audit entry. */
  lemma RepeatedPassIsSilent(m: Memory, ids: seq<string>, rows: seq<Row>, faults: PassFaults)
    ensures var once := Passed(m, ids, rows, faults); Passed(once, ids, rows, faults) == once
  {
    hide Clamped, Reconciled, Passed;
    var once := Passed(m, ids, rows, faults);
    forall t | t in ids && Reconciled(faults, t) ensures t in once.last && once.last[t] == Clamped(rows, t) {
      PassRemembers(m, ids, rows, faults, t);
    }
    NothingNew(once, ids, rows, faults);
  }

  class StorageEventWorker {
    const store: EventStore
    const ledger: StorageLedger.Ledger
    var lastTotal: map<string, int>
    var audit: seq<Snapshot>

    constructor (store: EventStore, ledger: StorageLedger.Ledger)
      ensures this.store == store && this.ledger == ledger && lastTotal == map[] && audit == []
    {
      this.store, this.ledger := store, ledger;
      lastTotal, audit := map[], [];
    }

    method AuditSnapshot(tenant: string, total: int)
      modifies this
      ensures Memory(lastTotal, audit) == Noted(old(Memory(lastTotal, audit)), tenant, total)
      ensures lastTotal == old(lastTotal)[tenant := total]
      ensures tenant in old(lastTotal) && old(lastTotal)[tenant] == total ==> audit == old(audit)
      ensures tenant !in old(lastTotal) || old(lastTotal)[tenant] != total ==>
        audit == old(audit) + [Snapshot(tenant, total)]
    {
      var seen := tenant in lastTotal && lastTotal[tenant] == total;
      lastTotal := lastTotal[tenant := total];
      if seen {
        return;
      }
      audit := audit + [Snapshot(tenant, total)];
    }

    /** Every active tenant that can be read and stored gets max(0, total); no other row changes. */
    method Tick(ids: seq<string>, faults: PassFaults)
      requires ledger.Valid()
      modifies this, ledger
      ensures ledger.Valid()
      ensures forall t :: t in ids && Reconciled(faults, t) ==>
        t in ledger.quotas && ledger.quotas[t] == Clamped(store.rows, t) &&
        ledger.quotas[t] == (var total := NetBytes(RowsOf(store.rows, t)); if total < 0 then 0 else total)
      ensures forall t :: !(t in ids && Reconciled(faults, t)) ==>
        (t in ledger.quotas <==> t in old(ledger.quotas)) &&
        (t in ledger.quotas ==> ledger.quotas[t] == old(ledger.quotas)[t])
      ensures Memory(lastTotal, audit) == Passed(old(Memory(lastTotal, audit)), ids, store.rows, faults)
    {
      hide NetBytes, RowsOf, Noted;
      for i := 0 to |ids|
        invariant ledger.Valid()
        invariant forall t :: t in ids[..i] && Reconciled(faults, t) ==>
          t in ledger.quotas && ledger.quotas[t] == Clamped(store.rows, t)
        invariant forall t :: !(t in ids[..i] && Reconciled(faults, t)) ==>
          (t in ledger.quotas <==> t in old(ledger.quotas)) &&
          (t in ledger.quotas ==> ledger.quotas[t] == old(ledger.quotas)[t])
        invariant Memory(lastTotal, audit) == Passed(old(Memory(lastTotal, audit)), ids[..i], store.rows, faults)
      {
        assert ids[..i + 1] == ids[..i] + [ids[i]] && ids[..i + 1][..i] == ids[..i];
        var r := store.ReconcileTenant(ids[i]);
        if r.Err? || ids[i] in faults.unread {
          continue;
        }
        var total := r.value;
        if total < 0 {
          total := 0;
        }
        var stored := ledger.SetStorageUsage(ids[i], total, ids[i] !in faults.unstored);
        if stored.Err? {
          continue;
        }
        AuditSnapshot(ids[i], total);
      }
      assert ids[..|ids|] == ids;
    }
  }
}
