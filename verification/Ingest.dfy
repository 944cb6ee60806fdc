/** The server's attendance table and its idempotent, all-or-nothing ingest. */
module Ingest {
  import opened Options
  import opened Events

  const MAX_BATCH := 500

  /** Two rows with the same evidence describe the same scan.  Timestamps compare as stored. */
  datatype Evidence = Evidence(worker: nat, at: string, kind: EventType, kiosk: Option<nat>)

  /** A kiosk derives its keys by a digest of the evidence that no two inputs share; other
      clients choose their own. */
  datatype Key = Digest(evidence: Evidence) | Chosen(name: nat)

  datatype Event = Event(evidence: Evidence, key: Option<Key>, note: Option<string>)

  /** Rows in the order of insertion. */
  type Table = seq<Event>

  // ----- the two indexed lookups -----

  predicate HasKey(row: Event, kiosk: Option<nat>, key: Key) {
    row.evidence.kiosk == kiosk && row.key == Some(key)
  }

  function FirstKeyed(rows: Table, n: nat, kiosk: Option<nat>, key: Key): (r: Option<nat>)
    requires n <= |rows|
    ensures r.Some? ==> r.value < n && HasKey(rows[r.value], kiosk, key)
    ensures forall i :: 0 <= i < (if r.Some? then r.value else n) ==> !HasKey(rows[i], kiosk, key)
  {
    if n == 0 then None
    else
      var earlier := FirstKeyed(rows, n - 1, kiosk, key);
      if earlier.Some? then earlier
      else if HasKey(rows[n - 1], kiosk, key) then Some(n - 1) else None
  }

  function FirstOfGroup(rows: Table, n: nat, evidence: Evidence): (r: Option<nat>)
    requires n <= |rows|
    ensures r.Some? ==> r.value < n && rows[r.value].evidence == evidence
    ensures forall i :: 0 <= i < (if r.Some? then r.value else n) ==> rows[i].evidence != evidence
  {
    if n == 0 then None
    else
      var earlier := FirstOfGroup(rows, n - 1, evidence);
      if earlier.Some? then earlier
      else if rows[n - 1].evidence == evidence then Some(n - 1) else None
  }

  // ----- one event -----

  datatype Outcome = Invalid | Accepted(rows: Table, inserted: nat)

  /** A retry may fill in a missing note and may omit a recorded one, but cannot change it. */
  function PreserveNote(rows: Table, i: nat, event: Event): Outcome
    requires i < |rows|
  {
    if event.note == None then Accepted(rows, 0)
    else if rows[i].note.Some? && rows[i].note != event.note then Invalid
    else Accepted(rows[i := rows[i].(note := event.note)], 0)
  }

  function ByKey(rows: Table, event: Event): Option<nat> {
    if event.key.Some? then FirstKeyed(rows, |rows|, event.evidence.kiosk, event.key.value) else None
  }

  /** Legacy rows without a key are matched by their evidence; keyed scans stay distinct. */
  function Twin(rows: Table, event: Event): Option<nat> {
    var same := FirstOfGroup(rows, |rows|, event.evidence);
    if same.Some? && (event.key == None || rows[same.value].key == None) then same else None
  }

  function AdoptKey(rows: Table, i: nat, event: Event): Table
    requires i < |rows|
  {
    if event.key.Some? then rows[i := rows[i].(key := event.key)] else rows
  }

  function Insert(rows: Table, workers: set<nat>, event: Event): Outcome {
    if event.evidence.worker !in workers then Invalid
    else
      var existing := ByKey(rows, event);
      if existing.Some? then
        if rows[existing.value].evidence != event.evidence then Invalid
        else PreserveNote(rows, existing.value, event)
      else
        var same := Twin(rows, event);
        if same.Some? then
          var noted := PreserveNote(rows, same.value, event);
          if noted.Invalid? then Invalid else Accepted(AdoptKey(noted.rows, same.value, event), 0)
        else Accepted(rows + [event], 1)
  }

  // ----- a batch -----

  function InsertAll(rows: Table, workers: set<nat>, events: seq<Event>): Outcome {
    if events == [] then Accepted(rows, 0)
    else
      var last := |events| - 1;
      var before := InsertAll(rows, workers, events[..last]);
      if before.Invalid? then Invalid
      else
        var here := Insert(before.rows, workers, events[last]);
        if here.Invalid? then Invalid else Accepted(here.rows, before.inserted + here.inserted)
  }

  /** A receipt names the whole validated batch: its digest is taken over all the events. */
  datatype Server = Server(rows: Table, workers: set<nat>, receipts: set<seq<Event>>)

  datatype Response = Rejected | Acknowledged(synced: nat, acknowledged: nat)

  function BulkCreate(s: Server, events: seq<Event>, checkpoint: bool): (Server, Response) {
    if |events| > MAX_BATCH then (s, Rejected)
    else if checkpoint && events in s.receipts then (s, Acknowledged(0, |events|))
    else
      match InsertAll(s.rows, s.workers, events)
      case Invalid => (s, Rejected)
      case Accepted(rows, inserted) =>
        (s.(rows := rows, receipts := if checkpoint then s.receipts + {events} else s.receipts),
         Acknowledged(inserted, |events|))
  }

  // ----- the invariant -----

  /** A kiosk and a key name at most one row, and a row without a key has its evidence to itself. */
  ghost predicate TableOk(rows: Table) {
    && (forall i, j :: 0 <= i < j < |rows| && rows[i].key.Some? && rows[i].key == rows[j].key ==>
          rows[i].evidence.kiosk != rows[j].evidence.kiosk)
    && (forall i, j :: 0 <= i < j < |rows| && rows[i].evidence == rows[j].evidence ==>
          rows[i].key.Some? && rows[j].key.Some?)
  }

  ghost predicate RowGrows(before: Event, after: Event) {
    && after.evidence == before.evidence
    && (before.key.Some? ==> after.key == before.key)
    && (before.note.Some? ==> after.note == before.note)
  }

  /** No row is lost, moved or rewritten; only a missing key or note is ever filled in. */
  ghost predicate Extends(before: Table, after: Table) {
    |before| <= |after| && forall i :: 0 <= i < |before| ==> RowGrows(before[i], after[i])
  }

  /** Row `i` is where the table keeps this event. */
  ghost predicate StoredAt(rows: Table, event: Event, i: nat)
    requires i < |rows|
  {
    && rows[i].evidence == event.evidence
    && (event.note.Some? ==> rows[i].note == event.note)
    && (if event.key.Some? then rows[i].key == event.key
        else forall j :: 0 <= j < i ==> rows[j].evidence != event.evidence)
  }

  ghost predicate Stored(rows: Table, event: Event) {
    exists i: nat :: i < |rows| && StoredAt(rows, event, i)
  }

  lemma ExtendsTransitive(a: Table, b: Table, c: Table)
    requires Extends(a, b) && Extends(b, c)
    ensures Extends(a, c)
  {
    forall i | 0 <= i < |a| ensures RowGrows(a[i], c[i]) {
      assert RowGrows(a[i], b[i]) && RowGrows(b[i], c[i]);
    }
  }

  lemma StoredStays(before: Table, after: Table, event: Event)
    requires Extends(before, after) && Stored(before, event)
    ensures Stored(after, event)
  {
    var i: nat :| i < |before| && StoredAt(before, event, i);
    assert RowGrows(before[i], after[i]);
    if event.key == None {
      forall j | 0 <= j < i ensures after[j].evidence != event.evidence {
        assert RowGrows(before[j], after[j]);
      }
    }
    assert StoredAt(after, event, i);
  }

  lemma NoteKeepsTable(rows: Table, i: nat, event: Event)
    requires TableOk(rows) && i < |rows|
    ensures var r := PreserveNote(rows, i, event);
            r.Accepted? ==> TableOk(r.rows) && Extends(rows, r.rows) && |r.rows| == |rows| && r.inserted == 0
  {
  }

  lemma AdoptKeepsTable(rows: Table, i: nat, event: Event)
    requires TableOk(rows) && i < |rows| && rows[i].evidence == event.evidence
    requires ByKey(rows, event) == None && (event.key.Some? ==> rows[i].key == None)
    ensures TableOk(AdoptKey(rows, i, event)) && Extends(rows, AdoptKey(rows, i, event))
  {
  }

  lemma AppendKeepsTable(rows: Table, event: Event)
    requires TableOk(rows) && ByKey(rows, event) == None && Twin(rows, event) == None
    ensures TableOk(rows + [event]) && Extends(rows, rows + [event])
  {
    var same := FirstOfGroup(rows, |rows|, event.evidence);
    forall i | 0 <= i < |rows| && rows[i].evidence == event.evidence ensures rows[i].key.Some? && event.key.Some? {
      assert same.value < i ==> rows[same.value].evidence == rows[i].evidence;
    }
  }

  lemma NoteKeepsKeys(rows: Table, i: nat, event: Event)
    requires i < |rows| && ByKey(rows, event) == None && PreserveNote(rows, i, event).Accepted?
    ensures ByKey(PreserveNote(rows, i, event).rows, event) == None
  {
    var after := PreserveNote(rows, i, event).rows;
    if event.key.Some? {
      forall j | 0 <= j < |after| ensures !HasKey(after[j], event.evidence.kiosk, event.key.value) {
        assert !HasKey(rows[j], event.evidence.kiosk, event.key.value);
      }
    }
  }

  lemma InsertKeepsTable(rows: Table, workers: set<nat>, event: Event)
    requires TableOk(rows) && Insert(rows, workers, event).Accepted?
    ensures TableOk(Insert(rows, workers, event).rows)
    ensures Extends(rows, Insert(rows, workers, event).rows)
  {
    var existing, same := ByKey(rows, event), Twin(rows, event);
    if existing.Some? {
      NoteKeepsTable(rows, existing.value, event);
    } else if same.Some? {
      var noted := PreserveNote(rows, same.value, event).rows;
      NoteKeepsTable(rows, same.value, event);
      NoteKeepsKeys(rows, same.value, event);
      assert noted[same.value].key == rows[same.value].key;
      AdoptKeepsTable(noted, same.value, event);
      ExtendsTransitive(rows, noted, AdoptKey(noted, same.value, event));
    } else {
      AppendKeepsTable(rows, event);
    }
  }

  /** An accepted event is in the table, and an insertion adds its row and nothing else. */
  lemma InsertStores(rows: Table, workers: set<nat>, event: Event)
    requires Insert(rows, workers, event).Accepted?
    ensures var r := Insert(rows, workers, event);
            Stored(r.rows, event) && |r.rows| == |rows| + r.inserted
    ensures var r := Insert(rows, workers, event);
            |r.rows| > |rows| ==> r.rows[|rows|] == event
  {
    var r := Insert(rows, workers, event);
    var existing, same := ByKey(rows, event), Twin(rows, event);
    var i := if existing.Some? then existing.value else if same.Some? then same.value else |rows|;
    assert r.rows[i].evidence == event.evidence;
    assert event.note.Some? ==> r.rows[i].note == event.note;
    if event.key == None {
      forall j | 0 <= j < i ensures r.rows[j].evidence != event.evidence {
        assert r.rows[j].evidence == rows[j].evidence;
      }
    }
    assert StoredAt(r.rows, event, i);
  }

  /** A stored event can be sent again at any later time: it is accepted and changes nothing. */
  lemma ReplayIsNoop(rows: Table, workers: set<nat>, event: Event)
    requires TableOk(rows) && Stored(rows, event) && event.evidence.worker in workers
    ensures Insert(rows, workers, event) == Accepted(rows, 0)
  {
    var i: nat :| i < |rows| && StoredAt(rows, event, i);
    if event.key.Some? {
      var existing := ByKey(rows, event);
      assert HasKey(rows[i], event.evidence.kiosk, event.key.value);
      assert existing == Some(i);
    } else {
      assert Twin(rows, event) == Some(i);
    }
    assert event.note.Some? ==> rows[i := rows[i].(note := event.note)] == rows;
  }

  // ----- batches -----

  /** Every row the batch added carries the evidence of one of its events. */
  ghost predicate FromBatch(row: Event, events: seq<Event>) {
    exists k :: 0 <= k < |events| && events[k].evidence == row.evidence
  }

  /** An accepted batch keeps the table in order, loses and rewrites nothing, and counts its
      insertions exactly. */
  lemma {:induction false} BatchKeepsTable(rows: Table, workers: set<nat>, events: seq<Event>)
    requires TableOk(rows) && InsertAll(rows, workers, events).Accepted?
    ensures var r := InsertAll(rows, workers, events);
            TableOk(r.rows) && Extends(rows, r.rows) && |r.rows| == |rows| + r.inserted
  {
    if events != [] {
      var last := |events| - 1;
      var before := InsertAll(rows, workers, events[..last]);
      BatchKeepsTable(rows, workers, events[..last]);
      InsertKeepsTable(before.rows, workers, events[last]);
      InsertStores(before.rows, workers, events[last]);
      ExtendsTransitive(rows, before.rows, InsertAll(rows, workers, events).rows);
    }
  }

  lemma InsertStoresMore(rows: Table, workers: set<nat>, event: Event, other: Event)
    requires TableOk(rows) && Insert(rows, workers, event).Accepted?
    requires other == event || Stored(rows, other)
    ensures Stored(Insert(rows, workers, event).rows, other)
  {
    if other == event {
      InsertStores(rows, workers, event);
    } else {
      InsertKeepsTable(rows, workers, event);
      StoredStays(rows, Insert(rows, workers, event).rows, other);
    }
  }

  /** An accepted batch stores every one of its events. */
  lemma {:induction false} BatchStoresAll(rows: Table, workers: set<nat>, events: seq<Event>, k: nat)
    requires TableOk(rows) && InsertAll(rows, workers, events).Accepted? && k < |events|
    ensures Stored(InsertAll(rows, workers, events).rows, events[k]) && events[k].evidence.worker in workers
  {
    var last := |events| - 1;
    var before := InsertAll(rows, workers, events[..last]);
    BatchKeepsTable(rows, workers, events[..last]);
    if k < last {
      PrefixAt(events, last, k);
      BatchStoresAll(rows, workers, events[..last], k);
    }
    InsertStoresMore(before.rows, workers, events[last], events[k]);
    LastInsert(rows, workers, events);
  }

  lemma PrefixAt(events: seq<Event>, n: nat, k: nat)
    requires k < n <= |events|
    ensures events[..n][k] == events[k]
  {
  }

  /** The rows after the batch are those after its last event. */
  lemma LastInsert(rows: Table, workers: set<nat>, events: seq<Event>)
    requires events != [] && InsertAll(rows, workers, events).Accepted?
    ensures var before := InsertAll(rows, workers, events[..|events| - 1]);
            before.Accepted? && Insert(before.rows, workers, events[|events| - 1]).Accepted? &&
            InsertAll(rows, workers, events).rows == Insert(before.rows, workers, events[|events| - 1]).rows
  {
  }

  /** An accepted batch invents no evidence. */
  lemma {:induction false} BatchInventsNothing(rows: Table, workers: set<nat>, events: seq<Event>, i: nat)
    requires TableOk(rows) && InsertAll(rows, workers, events).Accepted?
    requires |rows| <= i < |InsertAll(rows, workers, events).rows|
    ensures FromBatch(InsertAll(rows, workers, events).rows[i], events)
  {
    if events != [] {
      var last := |events| - 1;
      var before := InsertAll(rows, workers, events[..last]);
      BatchKeepsTable(rows, workers, events[..last]);
      InsertKeepsTable(before.rows, workers, events[last]);
      InsertStores(before.rows, workers, events[last]);
      if i < |before.rows| {
        BatchInventsNothing(rows, workers, events[..last], i);
      }
      BatchRowsAreFromBatch(before.rows, InsertAll(rows, workers, events).rows, events, i);
    }
  }

  lemma BatchRowsAreFromBatch(before: Table, after: Table, events: seq<Event>, i: nat)
    requires events != [] && Extends(before, after) && i < |after| && |after| <= |before| + 1
    requires i < |before| ==> FromBatch(before[i], events[..|events| - 1])
    requires i == |before| ==> after[i] == events[|events| - 1]
    ensures FromBatch(after[i], events)
  {
    if i < |before| {
      var k :| 0 <= k < |events| - 1 && events[..|events| - 1][k].evidence == before[i].evidence;
      assert RowGrows(before[i], after[i]);
      assert events[k].evidence == after[i].evidence;
    } else {
      assert events[|events| - 1].evidence == after[i].evidence;
    }
  }

  lemma {:induction false} ReplayAllIsNoop(rows: Table, workers: set<nat>, events: seq<Event>)
    requires TableOk(rows)
    requires forall k :: 0 <= k < |events| ==> Stored(rows, events[k]) && events[k].evidence.worker in workers
    ensures InsertAll(rows, workers, events) == Accepted(rows, 0)
  {
    if events != [] {
      ReplayAllIsNoop(rows, workers, events[..|events| - 1]);
      ReplayIsNoop(rows, workers, events[|events| - 1]);
    }
  }

  // ----- every history of the server -----

  datatype Request = Bulk(events: seq<Event>, checkpoint: bool) | Hire(worker: nat)

  function Handle(s: Server, request: Request): Server {
    match request
    case Bulk(events, checkpoint) => BulkCreate(s, events, checkpoint).0
    case Hire(worker) => s.(workers := s.workers + {worker})
  }

  function HandleAll(s: Server, requests: seq<Request>): Server {
    if requests == [] then s
    else Handle(HandleAll(s, requests[..|requests| - 1]), requests[|requests| - 1])
  }

  ghost predicate BatchStored(s: Server, events: seq<Event>) {
    forall k :: 0 <= k < |events| ==> Stored(s.rows, events[k]) && events[k].evidence.worker in s.workers
  }

  /** A receipt is only ever held for a batch that is stored. */
  ghost predicate ServerOk(s: Server) {
    TableOk(s.rows) && forall batch :: batch in s.receipts ==> BatchStored(s, batch)
  }

  ghost predicate Later(before: Server, after: Server) {
    Extends(before.rows, after.rows) && before.workers <= after.workers
  }

  lemma BatchStaysStored(before: Server, after: Server, events: seq<Event>)
    requires Later(before, after) && BatchStored(before, events)
    ensures BatchStored(after, events)
  {
    forall k | 0 <= k < |events| ensures Stored(after.rows, events[k]) {
      StoredStays(before.rows, after.rows, events[k]);
    }
  }

  /** An acknowledgement counts the whole batch and means that all of it is stored; a rejection
      changes nothing at all. */
  lemma BulkMeans(s: Server, events: seq<Event>, checkpoint: bool)
    requires ServerOk(s)
    ensures var (after, response) := BulkCreate(s, events, checkpoint);
            && ServerOk(after) && Later(s, after)
            && (response.Rejected? ==> after == s)
            && (response.Acknowledged? ==> BatchStored(after, events))
            && (response.Acknowledged? ==> response.acknowledged == |events|)
            && (response.Acknowledged? ==> |after.rows| == |s.rows| + response.synced)
  {
    var (after, response) := BulkCreate(s, events, checkpoint);
    if InsertAll(s.rows, s.workers, events).Accepted? {
      BatchKeepsTable(s.rows, s.workers, events);
      forall k | 0 <= k < |events|
        ensures Stored(InsertAll(s.rows, s.workers, events).rows, events[k]) && events[k].evidence.worker in s.workers
      {
        BatchStoresAll(s.rows, s.workers, events, k);
      }
    }
    forall batch | batch in s.receipts ensures BatchStored(after, batch) {
      BatchStaysStored(s, after, batch);
    }
  }

  lemma {:induction false} HistoryKeepsServer(s: Server, requests: seq<Request>)
    requires ServerOk(s)
    ensures ServerOk(HandleAll(s, requests)) && Later(s, HandleAll(s, requests))
  {
    if requests != [] {
      var before := HandleAll(s, requests[..|requests| - 1]);
      HistoryKeepsServer(s, requests[..|requests| - 1]);
      HandleKeepsServer(before, requests[|requests| - 1]);
      ExtendsTransitive(s.rows, before.rows, HandleAll(s, requests).rows);
    }
  }

  lemma HandleKeepsServer(s: Server, request: Request)
    requires ServerOk(s)
    ensures ServerOk(Handle(s, request)) && Later(s, Handle(s, request))
  {
    match request
    case Bulk(events, checkpoint) => BulkMeans(s, events, checkpoint);
    case Hire(worker) =>
      forall batch | batch in s.receipts ensures BatchStored(Handle(s, request), batch) {
        BatchStaysStored(s, Handle(s, request), batch);
      }
  }

  /** Whatever happens in between, sending an acknowledged batch again is acknowledged in full
      and leaves the table as it was. */
  lemma RetryIsIdempotent(s: Server, events: seq<Event>, first: bool, requests: seq<Request>, again: bool)
    requires ServerOk(s) && BulkCreate(s, events, first).1.Acknowledged?
    ensures var later := HandleAll(BulkCreate(s, events, first).0, requests);
            && BulkCreate(later, events, again).0.rows == later.rows
            && BulkCreate(later, events, again).1 == Acknowledged(0, |events|)
  {
    var stored := BulkCreate(s, events, first).0;
    BulkMeans(s, events, first);
    HistoryKeepsServer(stored, requests);
    BatchStaysStored(stored, HandleAll(stored, requests), events);
    ReplayAllIsNoop(HandleAll(stored, requests).rows, HandleAll(stored, requests).workers, events);
  }

  // ----- what a rejection is about -----

  /** The kiosk's digests are honest wherever they appear. */
  ghost predicate Honest(rows: Table) {
    forall i :: 0 <= i < |rows| && rows[i].key.Some? && rows[i].key.value.Digest? ==>
      rows[i].evidence == rows[i].key.value.evidence
  }

  predicate KioskEvent(event: Event) {
    event.key == Some(Digest(event.evidence))
  }

  /** Any client's event that does not pretend to a digest of other evidence. */
  predicate Truthful(event: Event) {
    event.key.Some? && event.key.value.Digest? ==> event.key.value.evidence == event.evidence
  }

  /** A kiosk's own event, or any other truthful one about another scan. */
  predicate Regards(event: Event, other: Event) {
    KioskEvent(event) || (Truthful(event) && event.evidence != other.evidence)
  }

  /** The row is where the event belongs, and it carries another note. */
  predicate NotesClash(row: Event, event: Event) {
    && row.evidence == event.evidence && (row.key == None || row.key == event.key)
    && row.note.Some? && event.note.Some? && row.note != event.note
  }

  predicate Clashes(rows: Table, event: Event) {
    exists i :: 0 <= i < |rows| && NotesClash(rows[i], event)
  }

  /** What makes a kiosk's event bad on its own: its worker, or a note that the table contradicts. */
  predicate IsBad(rows: Table, workers: set<nat>, event: Event) {
    event.evidence.worker !in workers || Clashes(rows, event)
  }

  /** The row that already holds the event, if any: by its key, else the legacy row without one. */
  function Place(rows: Table, event: Event): Option<nat> {
    if ByKey(rows, event).Some? then ByKey(rows, event) else Twin(rows, event)
  }

  /** No other row is a place for the event. */
  lemma PlaceIsTheOnlyOne(rows: Table, event: Event, i: nat)
    requires TableOk(rows) && Honest(rows) && KioskEvent(event) && i < |rows|
    ensures (rows[i].evidence == event.evidence && (rows[i].key == None || rows[i].key == event.key))
       <==> Place(rows, event) == Some(i)
  {
    var place := Place(rows, event);
    if place.Some? {
      assert rows[place.value].evidence == event.evidence;
    }
    if rows[i].key == event.key {
      assert rows[i].evidence == event.evidence;
      assert HasKey(rows[i], event.evidence.kiosk, event.key.value);
    }
  }

  lemma ClashIsAtPlace(rows: Table, event: Event)
    requires TableOk(rows) && Honest(rows) && KioskEvent(event)
    ensures Clashes(rows, event) <==>
            Place(rows, event).Some? && PreserveNote(rows, Place(rows, event).value, event).Invalid?
  {
    if i :| 0 <= i < |rows| && NotesClash(rows[i], event) {
      PlaceIsTheOnlyOne(rows, event, i);
    }
    if Place(rows, event).Some? {
      PlaceIsTheOnlyOne(rows, event, Place(rows, event).value);
    }
  }

  /** A kiosk's event is rejected exactly if it is bad. */
  lemma KioskEventRejectedIff(rows: Table, workers: set<nat>, event: Event)
    requires TableOk(rows) && Honest(rows) && KioskEvent(event)
    ensures Insert(rows, workers, event).Invalid? <==> IsBad(rows, workers, event)
  {
    ClashIsAtPlace(rows, event);
    if Place(rows, event).Some? {
      PlaceIsTheOnlyOne(rows, event, Place(rows, event).value);
    }
  }

  lemma InsertKeepsHonest(rows: Table, workers: set<nat>, event: Event)
    requires Honest(rows) && Truthful(event) && Insert(rows, workers, event).Accepted?
    ensures Honest(Insert(rows, workers, event).rows)
  {
  }

  /** Another event's note clashes afterwards exactly if it clashed before or clashes with this one. */
  lemma InsertClashes(rows: Table, workers: set<nat>, event: Event, other: Event)
    requires TableOk(rows) && Honest(rows) && KioskEvent(event) && KioskEvent(other)
    requires Insert(rows, workers, event).Accepted?
    ensures Clashes(Insert(rows, workers, event).rows, other) <==> Clashes(rows, other) || NotesClash(event, other)
  {
    var after := Insert(rows, workers, event).rows;
    InsertKeepsTable(rows, workers, event);
    if i :| 0 <= i < |rows| && NotesClash(rows[i], other) {
      assert RowGrows(rows[i], after[i]);
      InsertedKey(rows, workers, event, i);
      assert NotesClash(after[i], other);
    }
    if NotesClash(event, other) {
      InsertStores(rows, workers, event);
      var i: nat :| i < |after| && StoredAt(after, event, i);
      assert NotesClash(after[i], other);
    }
    if i :| 0 <= i < |after| && NotesClash(after[i], other) {
      InsertedNote(rows, workers, event, i);
      assert NotesClash(event, other) || (i < |rows| && NotesClash(rows[i], other));
    }
  }

  /** An event about another scan leaves alone the rows that this one depends on. */
  lemma InsertElsewhere(rows: Table, workers: set<nat>, event: Event, other: Event)
    requires event.evidence != other.evidence && Insert(rows, workers, event).Accepted?
    ensures Clashes(Insert(rows, workers, event).rows, other) <==> Clashes(rows, other)
  {
    var after := Insert(rows, workers, event).rows;
    forall i | 0 <= i < |rows| && rows[i].evidence == other.evidence ensures i < |after| && after[i] == rows[i] {
    }
    if i :| 0 <= i < |after| && NotesClash(after[i], other) {
      assert i < |rows| && rows[i] == after[i];
    }
  }

  /** A row's key changes only to that of an event with the same evidence. */
  lemma InsertedKey(rows: Table, workers: set<nat>, event: Event, i: nat)
    requires TableOk(rows) && Honest(rows) && KioskEvent(event) && Insert(rows, workers, event).Accepted? && i < |rows|
    ensures var after := Insert(rows, workers, event).rows;
            i < |after| &&
            (after[i].key == rows[i].key || (after[i].key == event.key && rows[i].evidence == event.evidence))
  {
  }

  /** A row's note is its own or that of an event with the same evidence. */
  lemma InsertedNote(rows: Table, workers: set<nat>, event: Event, i: nat)
    requires TableOk(rows) && Honest(rows) && KioskEvent(event) && Insert(rows, workers, event).Accepted?
    requires i < |Insert(rows, workers, event).rows|
    ensures var after := Insert(rows, workers, event).rows;
            || after[i] == event
            || (i < |rows| && after[i].evidence == rows[i].evidence
                && (after[i].key == rows[i].key || rows[i].key == None)
                && (after[i].note == rows[i].note
                    || (after[i].note == event.note && rows[i].evidence == event.evidence)))
  {
  }

  /** An earlier event of the batch clashes with this one. */
  predicate ClashesEarlier(events: seq<Event>, k: nat, event: Event)
    requires k <= |events|
  {
    exists j :: 0 <= j < k && NotesClash(events[j], event)
  }

  lemma ClashesEarlierGrows(events: seq<Event>, n: nat, event: Event)
    requires n < |events|
    ensures ClashesEarlier(events, n + 1, event) <==> ClashesEarlier(events, n, event) || NotesClash(events[n], event)
  {
  }

  lemma ClashesEarlierInPrefix(events: seq<Event>, n: nat, k: nat, event: Event)
    requires k <= n <= |events|
    ensures ClashesEarlier(events[..n], k, event) <==> ClashesEarlier(events, k, event)
  {
    assert forall j :: 0 <= j < k ==> events[..n][j] == events[j];
  }

  ghost predicate KioskBatch(events: seq<Event>) {
    forall k :: 0 <= k < |events| ==> KioskEvent(events[k])
  }

  ghost predicate AllTruthful(events: seq<Event>) {
    forall k :: 0 <= k < |events| ==> Truthful(events[k])
  }

  ghost predicate AllRegard(events: seq<Event>, other: Event) {
    forall k :: 0 <= k < |events| ==> Regards(events[k], other)
  }

  lemma {:induction false} BatchKeepsHonest(rows: Table, workers: set<nat>, events: seq<Event>)
    requires Honest(rows) && AllTruthful(events)
    requires InsertAll(rows, workers, events).Accepted?
    ensures Honest(InsertAll(rows, workers, events).rows)
  {
    if events != [] {
      var last := |events| - 1;
      BatchKeepsHonest(rows, workers, events[..last]);
      InsertKeepsHonest(InsertAll(rows, workers, events[..last]).rows, workers, events[last]);
    }
  }

  lemma {:induction false} BatchClashes(rows: Table, workers: set<nat>, events: seq<Event>, other: Event)
    requires TableOk(rows) && Honest(rows) && AllRegard(events, other) && KioskEvent(other)
    requires InsertAll(rows, workers, events).Accepted?
    ensures Clashes(InsertAll(rows, workers, events).rows, other) <==>
            Clashes(rows, other) || ClashesEarlier(events, |events|, other)
  {
    if events != [] {
      var last := |events| - 1;
      var before := InsertAll(rows, workers, events[..last]);
      BatchClashes(rows, workers, events[..last], other);
      BatchKeepsTable(rows, workers, events[..last]);
      BatchKeepsHonest(rows, workers, events[..last]);
      if KioskEvent(events[last]) {
        InsertClashes(before.rows, workers, events[last], other);
      } else {
        InsertElsewhere(before.rows, workers, events[last], other);
      }
      ClashesEarlierInPrefix(events, last, last, other);
      ClashesEarlierGrows(events, last, other);
    }
  }

  /** The event at `k` is bad on its own, or an earlier event of the batch contradicts its note. */
  predicate BadAt(rows: Table, workers: set<nat>, events: seq<Event>, k: nat)
    requires k < |events|
  {
    IsBad(rows, workers, events[k]) || ClashesEarlier(events, k, events[k])
  }

  lemma BadInPrefix(rows: Table, workers: set<nat>, events: seq<Event>, n: nat, k: nat)
    requires k < n <= |events|
    ensures BadAt(rows, workers, events[..n], k) <==> BadAt(rows, workers, events, k)
  {
    assert events[..n][k] == events[k];
    ClashesEarlierInPrefix(events, n, k, events[k]);
  }

  /** A kiosk's batch is rejected exactly if one of its events names an unknown worker, has a note
      that the table contradicts, or a note that an earlier event of the batch contradicts. */
  lemma {:induction false} KioskBatchRejectedIff(rows: Table, workers: set<nat>, events: seq<Event>)
    requires TableOk(rows) && Honest(rows) && KioskBatch(events)
    ensures InsertAll(rows, workers, events).Invalid? <==>
            exists k: nat :: k < |events| && BadAt(rows, workers, events, k)
  {
    if events != [] {
      var last := |events| - 1;
      KioskBatchRejectedIff(rows, workers, events[..last]);
      forall k: nat | k < last ensures BadAt(rows, workers, events[..last], k) <==> BadAt(rows, workers, events, k) {
        BadInPrefix(rows, workers, events, last, k);
      }
      if InsertAll(rows, workers, events[..last]).Accepted? {
        LastIsRejectedIff(rows, workers, events);
      } else {
        var k: nat :| k < last && BadAt(rows, workers, events[..last], k);
        assert BadAt(rows, workers, events, k);
      }
    }
  }

  lemma LastIsRejectedIff(rows: Table, workers: set<nat>, events: seq<Event>)
    requires TableOk(rows) && Honest(rows) && KioskBatch(events) && events != []
    requires InsertAll(rows, workers, events[..|events| - 1]).Accepted?
    ensures Insert(InsertAll(rows, workers, events[..|events| - 1]).rows, workers, events[|events| - 1]).Invalid? <==>
            BadAt(rows, workers, events, |events| - 1)
  {
    var last := |events| - 1;
    var before := InsertAll(rows, workers, events[..last]);
    BatchKeepsTable(rows, workers, events[..last]);
    BatchClashes(rows, workers, events[..last], events[last]);
    BatchKeepsHonest(rows, workers, events[..last]);
    ClashesEarlierInPrefix(events, last, last, events[last]);
    KioskEventRejectedIff(before.rows, workers, events[last]);
  }

  /** The table in place.  A rejected event may stop halfway; the batch then restores the rows. */
  class AttendanceStore {
    var rows: Table
    var workers: set<nat>
    var receipts: set<seq<Event>>

    function State(): Server
      reads this
    {
      Server(rows, workers, receipts)
    }

    constructor (s: Server)
      ensures State() == s
    {
      rows, workers, receipts := s.rows, s.workers, s.receipts;
    }

    method PreserveAttendanceNote(i: nat, event: Event) returns (ok: bool)
      requires i < |rows|
      modifies this`rows
      ensures PreserveNote(old(rows), i, event) == if ok then Accepted(rows, 0) else Invalid
      ensures !ok ==> rows == old(rows)
    {
      if event.note == None {
        return true;
      }
      if rows[i].note.Some? && rows[i].note != event.note {
        return false;
      }
      if rows[i].note == None {
        rows := rows[i := rows[i].(note := event.note)];
      }
      assert rows[i := rows[i].(note := event.note)] == rows;
      return true;
    }

    method InsertAttendanceEvent(event: Event) returns (ok: bool, inserted: bool)
      modifies this`rows
      ensures Insert(old(rows), workers, event) == if ok then Accepted(rows, if inserted then 1 else 0) else Invalid
    {
      inserted := false;
      if event.evidence.worker !in workers {
        return false, false;
      }
      if event.key.Some? {
        var existing := FirstKeyed(rows, |rows|, event.evidence.kiosk, event.key.value);
        if existing.Some? {
          if rows[existing.value].evidence != event.evidence {
            return false, false;
          }
          ok := PreserveAttendanceNote(existing.value, event);
          return;
        }
      }
      var same := FirstOfGroup(rows, |rows|, event.evidence);
      if same.Some? && (event.key == None || rows[same.value].key == None) {
        ok := PreserveAttendanceNote(same.value, event);
        if ok && event.key.Some? {
          rows := rows[same.value := rows[same.value].(key := event.key)];
        }
        return;
      }
      rows := rows + [event];
      return true, true;
    }

    method BulkCreateFromHttp(events: seq<Event>, checkpoint: bool) returns (response: Response)
      modifies this`rows, this`receipts
      ensures (State(), response) == BulkCreate(old(State()), events, checkpoint)
    {
      if |events| > MAX_BATCH {
        return Rejected;
      }
      if checkpoint && events in receipts {
        return Acknowledged(0, |events|);
      }
      var synced := 0;
      var n := 0;
      var committed := rows;
      while n < |events|
        invariant 0 <= n <= |events|
        invariant receipts == old(receipts) && committed == old(rows)
        invariant InsertAll(committed, workers, events[..n]) == Accepted(rows, synced)
      {
        var ok, inserted := InsertAttendanceEvent(events[n]);
        NextInsert(committed, workers, events, n);
        if !ok {
          InvalidPrefix(committed, workers, events, n + 1);
          rows := committed;
          return Rejected;
        }
        if inserted {
          synced := synced + 1;
        }
        n := n + 1;
      }
      assert events[..n] == events;
      if checkpoint {
        receipts := receipts + {events};
      }
      return Acknowledged(synced, |events|);
    }
  }

  lemma NextInsert(rows: Table, workers: set<nat>, events: seq<Event>, n: nat)
    requires n < |events| && InsertAll(rows, workers, events[..n]).Accepted?
    ensures var before := InsertAll(rows, workers, events[..n]);
            var here := Insert(before.rows, workers, events[n]);
            InsertAll(rows, workers, events[..n + 1]) ==
              if here.Invalid? then Invalid else Accepted(here.rows, before.inserted + here.inserted)
  {
    assert events[..n + 1][..n] == events[..n];
  }

  /** The first invalid event rejects the whole batch. */
  lemma {:induction false} InvalidPrefix(rows: Table, workers: set<nat>, events: seq<Event>, n: nat)
    requires n <= |events| && InsertAll(rows, workers, events[..n]).Invalid?
    ensures InsertAll(rows, workers, events).Invalid?
    decreases |events|
  {
    if n < |events| {
      var last := |events| - 1;
      assert events[..last][..n] == events[..n];
      InvalidPrefix(rows, workers, events[..last], n);
    } else {
      assert events[..n] == events;
    }
  }
}
