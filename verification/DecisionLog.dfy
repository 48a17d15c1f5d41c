/**
  The author dialog's decision log (author_decisions.py, and `_ingest_decisions` of author.py). A log is a list
  of events, in memory and on disk; the decisions it stands for are a map. Values are JSON-native, so dumping
  and loading an event gives it back; they are represented by their canonical text. Timestamps are left out.
*/
module DecisionLog {
  import opened Basics

  type Value = string

  datatype Event =
    | DialogStarted(seed: Option<string>, model: string)
    | Locked(field: string, value: Value)
    | Amended(field: string, oldValue: Value, newValue: Value)
    | IntentFinalized(intent: Value)
    | RepairBudgetExhausted(stage: string, attempts: nat, lastFeedback: string)

  datatype RecordError = UnknownField

  const ORDERED := ["crate_name", "edit_mode_target", "universe", "mechanism_summary", "param_sketch", "smoke_spec",
                    "experiment_spec"]

  const FIELDS := {"crate_name", "universe", "mechanism_summary", "param_sketch", "smoke_spec", "experiment_spec",
                   "edit_mode_target"}

  type Decisions = map<string, Value>
  type Logs = map<string, seq<Event>>

  /** One `field: value` line of a decisions block. */
  datatype Entry = Entry(field: string, value: Value)

  function Apply(current: Decisions, e: Event): Decisions {
    match e
    case Locked(field, value) => current[field := value]
    case Amended(field, _, newValue) => current[field := newValue]
    case _ => current
  }

  /** Replay: the last lock or amendment of a field wins. */
  function Projection(events: seq<Event>): Decisions {
    if events == [] then map[] else Apply(Projection(events[..|events| - 1]), events[|events| - 1])
  }

  function LogAt(logs: Logs, path: string): seq<Event> {
    if path in logs then logs[path] else []
  }

  // ----- the record

  class Disk {
    var logs: Logs

    constructor (logs: Logs)
      ensures this.logs == logs
    {
      this.logs := logs;
    }
  }

  class DecisionRecord {
    const disk: Disk
    const path: string
    var events: seq<Event>

    /** The events in memory are the lines of the file. */
    ghost predicate InSync()
      reads this, disk
    {
      events == LogAt(disk.logs, path)
    }

    /** Opening reads back exactly what is on disk. */
    constructor Open(disk: Disk, path: string)
      ensures this.disk == disk && this.path == path && InSync()
    {
      this.disk := disk;
      this.path := path;
      events := LogAt(disk.logs, path);
    }

    /** An event is appended in both places, unless it decides a field that does not exist. */
    method Append(e: Event) returns (r: Result<(), RecordError>)
      requires InSync()
      modifies this, disk
      ensures r.Err? <==> (e.Locked? || e.Amended?) && e.field !in FIELDS
      ensures r.Err? ==> events == old(events) && disk.logs == old(disk.logs)
      ensures r.Ok? ==> events == old(events) + [e] && disk.logs == old(disk.logs)[path := events]
      ensures InSync()
    {
      if (e.Locked? || e.Amended?) && e.field !in FIELDS {
        return Err(UnknownField);
      }
      events := events + [e];
      disk.logs := disk.logs[path := LogAt(disk.logs, path) + [e]];
      r := Ok(());
    }

    method Project() returns (current: Decisions)
      ensures current == Projection(events)
    {
      current := map[];
      for i := 0 to |events|
        invariant current == Projection(events[..i])
      {
        assert events[..i + 1][..i] == events[..i];
        match events[i]
        case Locked(field, value) => current := current[field := value];
        case Amended(field, _, newValue) => current := current[field := newValue];
        case _ =>
      }
      assert events[..|events|] == events;
    }
  }

  // ----- ingesting one response

  function Known(entries: seq<Entry>): seq<Entry> {
    if entries == [] then []
    else (if entries[0].field in FIELDS then [entries[0]] else []) + Known(entries[1..])
  }

  /** `{**base, **block}`. */
  function Overlay(base: Decisions, block: seq<Entry>): Decisions {
    if block == [] then base
    else Overlay(base, block[..|block| - 1])[block[|block| - 1].field := block[|block| - 1].value]
  }

  /** A block is a mapping. */
  predicate DistinctFields(block: seq<Entry>) {
    forall i, j :: 0 <= i < j < |block| ==> block[i].field != block[j].field
  }

  /** The locks written when the crate name lands. */
  function LockAll(fields: seq<string>, pending: Decisions): seq<Event> {
    if fields == [] then []
    else
      var n := |fields| - 1;
      LockAll(fields[..n], pending) + (if fields[n] in pending then [Locked(fields[n], pending[fields[n]])] else [])
  }

  function DiffEvent(current: Decisions, x: Entry): seq<Event> {
    if x.field !in current then [Locked(x.field, x.value)]
    else if current[x.field] != x.value then [Amended(x.field, current[x.field], x.value)]
    else []
  }

  function Diff(current: Decisions, block: seq<Entry>): seq<Event> {
    if block == [] then []
    else Diff(current, block[..|block| - 1]) + DiffEvent(current, block[|block| - 1])
  }

  /** Which record is open, what waits for one, and all logs on disk. */
  datatype State = State(path: Option<string>, pending: Decisions, logs: Logs)

  /** The dialog's settings: where a crate's log lies, and what `DialogStarted` records. */
  datatype Setup = Setup(pathFor: Value -> string, seed: Option<string>, model: string)

  function Landing(c: Setup, s: State, pending: Decisions): State
    requires "crate_name" in pending
  {
    var path := c.pathFor(pending["crate_name"]);
    var log := LogAt(s.logs, path) + [DialogStarted(c.seed, c.model)] + LockAll(ORDERED, pending);
    State(Some(path), map[], s.logs[path := log])
  }

  function Ingest(c: Setup, s: State, entries: Option<seq<Entry>>): State {
    if entries.None? then s
    else
      var block := Known(entries.value);
      match s.path
      case None =>
        var pending := Overlay(s.pending, block);
        if "crate_name" in pending then Landing(c, s, pending) else s.(pending := pending)
      case Some(path) =>
        var new_ := Diff(Projection(LogAt(s.logs, path)), block);
        if new_ == [] then s else s.(logs := s.logs[path := LogAt(s.logs, path) + new_])
  }

  /** Open the crate's record and write the start of the dialog and every pending decision to it. */
  method Land(c: Setup, disk: Disk, pending: Decisions) returns (record: DecisionRecord)
    requires "crate_name" in pending
    modifies disk
    ensures fresh(record) && record.disk == disk && record.InSync()
    ensures record.path == c.pathFor(pending["crate_name"])
    ensures record.events
            == LogAt(old(disk.logs), record.path) + [DialogStarted(c.seed, c.model)] + LockAll(ORDERED, pending)
    ensures disk.logs == old(disk.logs)[record.path := record.events]
  {
    hide ORDERED, FIELDS;
    record := new DecisionRecord.Open(disk, c.pathFor(pending["crate_name"]));
    var _ := record.Append(DialogStarted(c.seed, c.model));
    ghost var start := record.events;
    for i := 0 to |ORDERED|
      invariant fresh(record) && record.disk == disk && record.InSync()
      invariant record.path == c.pathFor(pending["crate_name"])
      invariant record.events == start + LockAll(ORDERED[..i], pending)
      invariant disk.logs == old(disk.logs)[record.path := record.events]
    {
      assert ORDERED[..i + 1][..i] == ORDERED[..i];
      OrderedIsFields(i);
      if ORDERED[i] in pending {
        var _ := record.Append(Locked(ORDERED[i], pending[ORDERED[i]]));
      }
    }
    assert ORDERED[..|ORDERED|] == ORDERED;
  }

  /** Append what the block changes. */
  method AppendChanges(record: DecisionRecord, block: seq<Entry>)
    requires record.InSync() && forall x :: x in block ==> x.field in FIELDS
    modifies record, record.disk
    ensures record.InSync()
    ensures record.events == old(record.events) + Diff(Projection(old(record.events)), block)
    ensures record.disk.logs == if Diff(Projection(old(record.events)), block) == [] then old(record.disk.logs)
                                else old(record.disk.logs)[record.path := record.events]
  {
    hide FIELDS;
    var current := record.Project();
    ghost var start := record.events;
    for i := 0 to |block|
      invariant record.InSync()
      invariant record.events == start + Diff(current, block[..i])
      invariant record.disk.logs == if Diff(current, block[..i]) == [] then old(record.disk.logs)
                                    else old(record.disk.logs)[record.path := record.events]
    {
      assert block[..i + 1][..i] == block[..i];
      var x := block[i];
      assert x in block;
      if x.field !in current {
        var _ := record.Append(Locked(x.field, x.value));
      } else if current[x.field] != x.value {
        var _ := record.Append(Amended(x.field, current[x.field], x.value));
      }
    }
    assert block[..|block|] == block;
  }

  /** The same, on the record object: the returned record and pending map, and the disk, are those of `Ingest`. */
  method IngestDecisions(c: Setup, disk: Disk, record: DecisionRecord?, pending: Decisions, entries: Option<seq<Entry>>)
    returns (newRecord: DecisionRecord?, newPending: Decisions)
    requires record != null ==> record.disk == disk && record.InSync()
    modifies disk, record
    ensures record != null ==> newRecord == record
    ensures record == null && newRecord != null ==> fresh(newRecord)
    ensures newRecord != null ==> newRecord.disk == disk && newRecord.InSync()
    ensures State(if newRecord == null then None else Some(newRecord.path), newPending, disk.logs) ==
            Ingest(c, State(if record == null then None else Some(record.path), pending, old(disk.logs)), entries)
  {
    hide ORDERED, FIELDS, Diff, LockAll, Projection, Overlay;
    if entries.None? {
      return record, pending;
    }
    var block := Known(entries.value);
    KnownAreFields(entries.value);
    if record == null {
      newRecord, newPending := null, Overlay(pending, block);
      if "crate_name" in newPending {
        newRecord := Land(c, disk, newPending);
        newPending := map[];
      }
    } else {
      newRecord, newPending := record, pending;
      AppendChanges(record, block);
    }
  }

  lemma KnownAreFields(entries: seq<Entry>)
    ensures forall x :: x in Known(entries) ==> x in entries && x.field in FIELDS
    ensures forall x :: x in entries && x.field in FIELDS ==> x in Known(entries)
    ensures DistinctFields(entries) ==> DistinctFields(Known(entries))
  {
    if entries != [] {
      KnownAreFields(entries[1..]);
      assert entries == [entries[0]] + entries[1..];
      var rest := Known(entries[1..]);
      forall j | 0 <= j < |rest| && DistinctFields(entries) ensures rest[j].field != entries[0].field {
        assert rest[j] in entries[1..];
      }
    }
  }

  lemma OrderedIsFields(i: nat)
    requires i < |ORDERED|
    ensures ORDERED[i] in FIELDS
  {}

  // ----- the log refines a map

  function Only(pending: Decisions, fields: seq<string>): Decisions {
    map f | f in pending && f in fields :: pending[f]
  }

  lemma {:induction false} OverlayIsUnion(base: Decisions, block: seq<Entry>)
    ensures Overlay(base, block) == base + Overlay(map[], block)
    ensures forall f :: f in Overlay(map[], block) <==> exists x :: x in block && x.field == f
  {
    OverlayKeys(block);
    if block != [] {
      OverlayIsUnion(base, block[..|block| - 1]);
    }
  }

  lemma {:induction false} OverlayKeys(block: seq<Entry>)
    ensures forall f :: f in Overlay(map[], block) <==> exists x :: x in block && x.field == f
  {
    if block != [] {
      var n := |block| - 1;
      OverlayKeys(block[..n]);
      assert forall x :: x in block <==> x in block[..n] || x == block[n];
    }
  }

  lemma ProjectMore(events: seq<Event>, e: Event)
    ensures Projection(events + [e]) == Apply(Projection(events), e)
  {
    assert (events + [e])[..|events|] == events;
  }

  lemma {:induction false} LocksProject(events: seq<Event>, fields: seq<string>, pending: Decisions)
    ensures Projection(events + LockAll(fields, pending)) == Projection(events) + Only(pending, fields)
  {
    hide Projection;
    if fields == [] {
      assert events + [] == events;
    } else {
      var n := |fields| - 1;
      LocksProject(events, fields[..n], pending);
      assert fields == fields[..n] + [fields[n]];
      var before := events + LockAll(fields[..n], pending);
      if fields[n] in pending {
        ProjectMore(before, Locked(fields[n], pending[fields[n]]));
        assert events + LockAll(fields, pending) == before + [Locked(fields[n], pending[fields[n]])];
      } else {
        assert events + LockAll(fields, pending) == before;
      }
    }
  }

  /** When the crate name lands, its log grows by the start of the dialog and then by one lock for each decision that
      waited, the crate name first and the others in their fixed order. */
  lemma LandsInOrder(c: Setup, s: State, pending: Decisions)
    requires "crate_name" in pending
    ensures var path := c.pathFor(pending["crate_name"]);
            var fields := ["crate_name", "edit_mode_target", "universe", "mechanism_summary", "param_sketch",
                           "smoke_spec", "experiment_spec"];
            var locks := LockAll(fields, pending);
            && Landing(c, s, pending) ==
               State(Some(path), map[], s.logs[path := LogAt(s.logs, path) + [DialogStarted(c.seed, c.model)] + locks])
            && (forall i :: 0 <= i < |locks| ==> Locks(locks[i], pending))
            && forall i, j :: 0 <= i < j < |locks| ==> Earlier(fields, locks[i], locks[j])
  {
    var fields := ["crate_name", "edit_mode_target", "universe", "mechanism_summary", "param_sketch",
                   "smoke_spec", "experiment_spec"];
    assert ORDERED == fields;
    LocksInOrder(fields, pending);
  }

  predicate Locks(e: Event, pending: Decisions) {
    e.Locked? && e.field in pending && e.value == pending[e.field]
  }

  predicate Earlier(fields: seq<string>, e: Event, f: Event) {
    e.Locked? && f.Locked? && exists i, j :: 0 <= i < j < |fields| && fields[i] == e.field && fields[j] == f.field
  }

  lemma {:induction false} LocksFrom(fields: seq<string>, pending: Decisions)
    ensures var locks := LockAll(fields, pending);
            forall i :: 0 <= i < |locks| ==> Locks(locks[i], pending) && locks[i].field in fields
  {
    if fields != [] {
      var n := |fields| - 1;
      var before, locks := LockAll(fields[..n], pending), LockAll(fields, pending);
      LocksFrom(fields[..n], pending);
      LocksLast(fields, pending);
      assert forall f :: f in fields[..n] ==> f in fields;
      forall i | 0 <= i < |locks| ensures Locks(locks[i], pending) && locks[i].field in fields {
        assert i < |before| ==> locks[i] == before[i];
      }
    }
  }

  lemma LocksLast(fields: seq<string>, pending: Decisions)
    requires fields != []
    ensures var n := |fields| - 1;
            LockAll(fields, pending) == LockAll(fields[..n], pending)
            + (if fields[n] in pending then [Locked(fields[n], pending[fields[n]])] else [])
  {}

  lemma {:induction false} LocksInOrder(fields: seq<string>, pending: Decisions)
    ensures var locks := LockAll(fields, pending);
            && (forall i :: 0 <= i < |locks| ==> Locks(locks[i], pending))
            && forall i, j :: 0 <= i < j < |locks| ==> Earlier(fields, locks[i], locks[j])
  {
    LocksFrom(fields, pending);
    if fields != [] {
      var n := |fields| - 1;
      var before, locks := LockAll(fields[..n], pending), LockAll(fields, pending);
      LocksFrom(fields[..n], pending);
      LocksInOrder(fields[..n], pending);
      LocksLast(fields, pending);
      assert forall i :: 0 <= i < |before| ==> locks[i] == before[i];
      forall i, j | 0 <= i < j < |locks| ensures Earlier(fields, locks[i], locks[j]) {
        if j < |before| {
          assert Earlier(fields[..n], before[i], before[j]);
          EarlierStays(fields, before[i], before[j]);
        } else {
          assert before[i].field in fields[..n];
          var a :| 0 <= a < n && fields[..n][a] == before[i].field;
          assert fields[a] == locks[i].field && fields[n] == locks[j].field;
        }
      }
    }
  }

  lemma EarlierStays(fields: seq<string>, e: Event, f: Event)
    requires fields != [] && Earlier(fields[..|fields| - 1], e, f)
    ensures Earlier(fields, e, f)
  {
    var n := |fields| - 1;
    var i, j :| 0 <= i < j < n && fields[..n][i] == e.field && fields[..n][j] == f.field;
    assert fields[i] == e.field && fields[j] == f.field;
  }

  /** Every field has its place in the order in which pending decisions are written. */
  lemma OrderedCoversFields(pending: Decisions)
    requires pending.Keys <= FIELDS
    ensures Only(pending, ORDERED) == pending
  {
    assert ORDERED[0] == "crate_name" && ORDERED[1] == "edit_mode_target" && ORDERED[2] == "universe";
    assert ORDERED[3] == "mechanism_summary" && ORDERED[4] == "param_sketch";
    assert ORDERED[5] == "smoke_spec" && ORDERED[6] == "experiment_spec";
    assert forall f :: f in FIELDS ==> f in ORDERED;
    forall f | f in pending ensures f in ORDERED {
      assert f in pending.Keys;
    }
  }

  /** Writing only the differences brings the projection to the overlaid map. */
  lemma {:induction false} DiffProjects(events: seq<Event>, block: seq<Entry>)
    requires DistinctFields(block)
    ensures Projection(events + Diff(Projection(events), block)) == Overlay(Projection(events), block)
  {
    hide Projection;
    var current := Projection(events);
    if block == [] {
      assert events + [] == events;
    } else {
      var n := |block| - 1;
      var x := block[n];
      DiffProjects(events, block[..n]);
      OverlayIsUnion(current, block[..n]);
      var before := events + Diff(current, block[..n]);
      assert x.field in Overlay(current, block[..n]) <==> x.field in current;
      if DiffEvent(current, x) != [] {
        var e := DiffEvent(current, x)[0];
        ProjectMore(before, e);
        assert events + Diff(current, block) == before + [e];
      } else {
        assert events + Diff(current, block) == before;
        assert Overlay(current, block[..n])[x.field] == x.value;
      }
    }
  }

  /** What the dialog has decided as far as it can tell: the open log's projection, or what waits for a log. */
  function Visible(s: State): Decisions {
    if s.path.None? then s.pending else Projection(LogAt(s.logs, s.path.value))
  }

  predicate Waiting(s: State) {
    s.path.None? ==> s.pending.Keys <= FIELDS && "crate_name" !in s.pending
  }

  lemma OpenStep(c: Setup, s: State, entries: seq<Entry>)
    requires s.path.Some? && DistinctFields(entries)
    ensures var t := Ingest(c, s, Some(entries));
            && t.path == s.path && t.pending == s.pending && Visible(t) == Overlay(Visible(s), Known(entries))
            && LogAt(s.logs, s.path.value) <= LogAt(t.logs, s.path.value)
            && forall q :: q != s.path.value ==> LogAt(t.logs, q) == LogAt(s.logs, q)
  {
    hide Projection, Overlay, Diff, Known, DistinctFields;
    KnownAreFields(entries);
    var log := LogAt(s.logs, s.path.value);
    DiffProjects(log, Known(entries));
    assert log + [] == log;
  }

  lemma LandingStep(c: Setup, s: State, pending: Decisions)
    requires "crate_name" in pending && pending.Keys <= FIELDS
    ensures var t := Landing(c, s, pending);
            var path := c.pathFor(pending["crate_name"]);
            && t.path == Some(path) && Visible(t) == Projection(LogAt(s.logs, path)) + pending
            && LogAt(s.logs, path) <= LogAt(t.logs, path)
            && forall q :: q != path ==> LogAt(t.logs, q) == LogAt(s.logs, q)
  {
    hide Projection, LockAll, ORDERED, FIELDS;
    var log := LogAt(s.logs, c.pathFor(pending["crate_name"]));
    ProjectMore(log, DialogStarted(c.seed, c.model));
    LocksProject(log + [DialogStarted(c.seed, c.model)], ORDERED, pending);
    OrderedCoversFields(pending);
  }

  lemma OverlayFields(base: Decisions, entries: seq<Entry>)
    requires base.Keys <= FIELDS
    ensures Overlay(base, Known(entries)).Keys <= FIELDS
  {
    hide FIELDS;
    KnownAreFields(entries);
    OverlayIsUnion(base, Known(entries));
    forall f | f in Overlay(base, Known(entries)).Keys ensures f in FIELDS {
      if f !in base {
        var x :| x in Known(entries) && x.field == f;
      } else {
        assert f in base.Keys;
      }
    }
  }

  // ----- whole dialogs

  type Turn = Option<seq<Entry>>

  function Dialog(c: Setup, s: State, turns: seq<Turn>): State {
    if turns == [] then s else Ingest(c, Dialog(c, s, turns[..|turns| - 1]), turns[|turns| - 1])
  }

  function Block(turn: Turn): seq<Entry> {
    if turn.None? then [] else Known(turn.value)
  }

  /** The last-write-wins overlay of all blocks. */
  function AllDecided(turns: seq<Turn>): Decisions {
    if turns == [] then map[] else Overlay(AllDecided(turns[..|turns| - 1]), Block(turns[|turns| - 1]))
  }

  /** The crate name when it first appears. */
  function FirstName(turns: seq<Turn>): Option<Value> {
    if turns == [] then None
    else
      var n := |turns| - 1;
      var last := Overlay(map[], Block(turns[n]));
      if FirstName(turns[..n]).Some? then FirstName(turns[..n])
      else if "crate_name" in last then Some(last["crate_name"]) else None
  }

  predicate Mappings(turns: seq<Turn>) {
    forall t :: t in turns && t.Some? ==> DistinctFields(t.value)
  }

  /** Before the crate name lands, nothing is on disk that was not there, and all decisions wait; from then on
      the log under the first crate name projects to what it projected to before, overlaid with every block of
      the dialog, on whichever turn the name landed. Other logs are untouched, and this one only grows. */
  ghost predicate Refines(c: Setup, logs: Logs, s: State, decided: Decisions, name: Option<Value>) {
    match name
    case None => s == State(None, decided, logs) && decided.Keys <= FIELDS && "crate_name" !in decided
    case Some(n) =>
      var path := c.pathFor(n);
      && s.path == Some(path) && s.pending == map[]
      && Visible(s) == Projection(LogAt(logs, path)) + decided
      && LogAt(logs, path) <= LogAt(s.logs, path)
      && forall q :: q != path ==> LogAt(s.logs, q) == LogAt(logs, q)
  }

  lemma {:induction false} LogRefinesMap(c: Setup, logs: Logs, turns: seq<Turn>)
    requires Mappings(turns)
    ensures Refines(c, logs, Dialog(c, State(None, map[], logs), turns), AllDecided(turns), FirstName(turns))
    ensures "crate_name" in AllDecided(turns) <==> FirstName(turns).Some?
  {
    hide Ingest, FIELDS, Visible, Overlay, DistinctFields, Projection;
    if turns != [] {
      var n := |turns| - 1;
      LogRefinesMap(c, logs, turns[..n]);
      assert turns[n] in turns && forall t :: t in turns[..n] ==> t in turns;
      var s := Dialog(c, State(None, map[], logs), turns[..n]);
      RefinesStep(c, logs, s, AllDecided(turns[..n]), FirstName(turns[..n]), turns[n]);
      OverlayIsUnion(AllDecided(turns[..n]), Block(turns[n]));
    }
  }

  lemma RefinesStep(c: Setup, logs: Logs, s: State, decided: Decisions, name: Option<Value>, turn: Turn)
    requires Refines(c, logs, s, decided, name) && (turn.Some? ==> DistinctFields(turn.value))
    ensures var last := Overlay(map[], Block(turn));
            var next := if name.Some? then name else if "crate_name" in last then Some(last["crate_name"]) else None;
            Refines(c, logs, Ingest(c, s, turn), Overlay(decided, Block(turn)), next)
  {
    hide FIELDS, Overlay, DistinctFields, Projection, Known, Landing, Diff, Refines, Ingest;
    OverlayIsUnion(decided, Block(turn));
    if turn.None? {
      OverlayNothing(decided);
      NothingIngested(c, s);
    } else if name.Some? {
      OpenRefines(c, logs, s, decided, name.value, turn.value);
    } else {
      WaitingRefines(c, logs, s, decided, turn.value);
    }
  }

  lemma NothingIngested(c: Setup, s: State)
    ensures Ingest(c, s, None) == s
  {}

  lemma OpenRefines(c: Setup, logs: Logs, s: State, decided: Decisions, name: Value, entries: seq<Entry>)
    requires Refines(c, logs, s, decided, Some(name)) && DistinctFields(entries)
    ensures Refines(c, logs, Ingest(c, s, Some(entries)), Overlay(decided, Known(entries)), Some(name))
  {
    hide FIELDS, Overlay, DistinctFields, Projection, Known, Ingest;
    OpenStep(c, s, entries);
    var base, new_ := Projection(LogAt(logs, c.pathFor(name))), Overlay(map[], Known(entries));
    OverlayIsUnion(base + decided, Known(entries));
    OverlayIsUnion(decided, Known(entries));
    UnionAssociates(base, decided, new_);
    PrefixThrough(LogAt(logs, c.pathFor(name)), LogAt(s.logs, c.pathFor(name)),
                  LogAt(Ingest(c, s, Some(entries)).logs, c.pathFor(name)));
  }

  lemma UnionAssociates(a: Decisions, b: Decisions, c: Decisions)
    ensures (a + b) + c == a + (b + c)
  {}

  lemma PrefixThrough(a: seq<Event>, b: seq<Event>, c: seq<Event>)
    requires a <= b <= c
    ensures a <= c
  {}

  lemma WaitingRefines(c: Setup, logs: Logs, s: State, decided: Decisions, entries: seq<Entry>)
    requires Refines(c, logs, s, decided, None) && DistinctFields(entries)
    ensures var last := Overlay(map[], Known(entries));
            Refines(c, logs, Ingest(c, s, Some(entries)), Overlay(decided, Known(entries)),
                    if "crate_name" in last then Some(last["crate_name"]) else None)
  {
    hide FIELDS, Overlay, DistinctFields, Projection, Known, Landing, Diff;
    OverlayIsUnion(decided, Known(entries));
    OverlayFields(decided, entries);
    if "crate_name" in Overlay(decided, Known(entries)) {
      LandingStep(c, s, Overlay(decided, Known(entries)));
      LandingPending(c, s, Overlay(decided, Known(entries)));
    }
  }

  lemma OverlayNothing(base: Decisions)
    ensures Overlay(base, []) == base && Overlay(map[], []) == map[]
  {}

  lemma LandingPending(c: Setup, s: State, pending: Decisions)
    requires "crate_name" in pending
    ensures Landing(c, s, pending).pending == map[]
  {}

  /** Ingesting a block into an open record changes nothing exactly when the record already says all of it. */
  lemma UnchangedExactly(c: Setup, s: State, entries: seq<Entry>)
    requires s.path.Some? && DistinctFields(entries)
    ensures Ingest(c, s, Some(entries)) == s <==> Overlay(Visible(s), Known(entries)) == Visible(s)
  {
    hide Projection, Known;
    KnownAreFields(entries);
    OpenStep(c, s, entries);
    NoDiff(Visible(s), Known(entries));
  }

  lemma {:induction false} NoDiff(current: Decisions, block: seq<Entry>)
    requires DistinctFields(block)
    ensures Overlay(current, block) == current ==> Diff(current, block) == []
  {
    if block != [] && Overlay(current, block) == current {
      var n := |block| - 1;
      var x := block[n];
      assert current[x.field] == x.value;
      OverlayIsUnion(current, block[..n]);
      assert x.field !in Overlay(map[], block[..n]);
      assert forall f :: f in Overlay(current, block[..n]) ==> f in Overlay(current, block);
      assert Overlay(current, block[..n]) == current;
      NoDiff(current, block[..n]);
    }
  }

  /** Once a record is open after a block, ingesting the same block again appends nothing. */
  lemma ReingestAppendsNothing(c: Setup, s: State, entries: seq<Entry>)
    requires DistinctFields(entries) && Waiting(s) && Ingest(c, s, Some(entries)).path.Some?
    ensures Ingest(c, Ingest(c, s, Some(entries)), Some(entries)) == Ingest(c, s, Some(entries))
  {
    hide Projection, Known, FIELDS, Overlay, DistinctFields, Landing;
    var t := Ingest(c, s, Some(entries));
    var block := Known(entries);
    if s.path.Some? {
      OpenStep(c, s, entries);
      OverlayTwice(Visible(s), block);
    } else {
      OverlayFields(s.pending, entries);
      LandingStep(c, s, Overlay(s.pending, block));
      OverlayIsUnion(s.pending, block);
      OverlayIsUnion(Visible(t), block);
      assert Overlay(Visible(t), block) == Visible(t);
    }
    UnchangedExactly(c, t, entries);
  }

  lemma OverlayTwice(base: Decisions, block: seq<Entry>)
    ensures Overlay(Overlay(base, block), block) == Overlay(base, block)
  {
    OverlayIsUnion(base, block);
    OverlayIsUnion(Overlay(base, block), block);
  }

  // ----- amendments tell the truth

  /** Every amendment changes a value, and its old value is what the log before it projects to. */
  ghost predicate Honest(events: seq<Event>) {
    forall i :: 0 <= i < |events| && events[i].Amended? ==>
      var before := Projection(events[..i]);
      && events[i].field in before && before[events[i].field] == events[i].oldValue
      && events[i].newValue != events[i].oldValue
  }

  predicate HonestNext(before: Decisions, e: Event) {
    e.Amended? ==> e.field in before && before[e.field] == e.oldValue && e.newValue != e.oldValue
  }

  lemma HonestMore(events: seq<Event>, e: Event)
    requires Honest(events) && HonestNext(Projection(events), e)
    ensures Honest(events + [e])
  {
    hide Projection;
    var more := events + [e];
    forall i | 0 <= i < |more| && more[i].Amended?
      ensures HonestNext(Projection(more[..i]), more[i])
    {
      assert more[..i] == events[..i];
      assert events[..|events|] == events;
    }
  }

  lemma {:induction false} DiffHonest(events: seq<Event>, block: seq<Entry>)
    requires Honest(events) && DistinctFields(block)
    ensures Honest(events + Diff(Projection(events), block))
  {
    hide Projection, Honest;
    var current := Projection(events);
    if block == [] {
      assert events + [] == events;
    } else {
      var n := |block| - 1;
      var x := block[n];
      var before := events + Diff(current, block[..n]);
      DiffHonest(events, block[..n]);
      DiffProjects(events, block[..n]);
      OverlayIsUnion(current, block[..n]);
      assert x.field in Overlay(current, block[..n]) <==> x.field in current;
      if DiffEvent(current, x) == [] {
        assert events + Diff(current, block) == before;
      } else {
        HonestMore(before, DiffEvent(current, x)[0]);
        assert events + Diff(current, block) == before + [DiffEvent(current, x)[0]];
      }
    }
  }

  lemma {:induction false} LocksHonest(events: seq<Event>, fields: seq<string>, pending: Decisions)
    requires Honest(events)
    ensures Honest(events + LockAll(fields, pending))
  {
    hide Projection, Honest;
    if fields == [] {
      assert events + [] == events;
    } else {
      var n := |fields| - 1;
      LocksHonest(events, fields[..n], pending);
      var before := events + LockAll(fields[..n], pending);
      if fields[n] in pending {
        HonestMore(before, Locked(fields[n], pending[fields[n]]));
        assert events + LockAll(fields, pending) == before + [Locked(fields[n], pending[fields[n]])];
      } else {
        assert events + LockAll(fields, pending) == before;
      }
    }
  }

  ghost predicate AllHonest(logs: Logs) {
    forall path :: path in logs ==> Honest(logs[path])
  }

  lemma HonestAt(logs: Logs, path: string)
    requires AllHonest(logs)
    ensures Honest(LogAt(logs, path))
  {}

  /** On every log of every dialog, each amendment's old value is the projection of the log before it. */
  lemma {:induction false} DialogHonest(c: Setup, s: State, turns: seq<Turn>)
    requires Mappings(turns) && AllHonest(s.logs)
    ensures AllHonest(Dialog(c, s, turns).logs)
  {
    hide Honest, DistinctFields, Known, Projection, Overlay, ORDERED, FIELDS, LockAll, Diff;
    if turns != [] {
      var n := |turns| - 1;
      var t, turn := Dialog(c, s, turns[..n]), turns[n];
      DialogHonest(c, s, turns[..n]);
      assert turn in turns && forall u :: u in turns[..n] ==> u in turns;
      if turn.Some? {
        KnownAreFields(turn.value);
        if t.path.Some? {
          HonestAt(t.logs, t.path.value);
          DiffHonest(LogAt(t.logs, t.path.value), Known(turn.value));
        } else {
          LandingHonest(c, t, Overlay(t.pending, Known(turn.value)));
        }
      }
    }
  }

  lemma LandingHonest(c: Setup, s: State, pending: Decisions)
    requires AllHonest(s.logs)
    ensures "crate_name" in pending ==> AllHonest(Landing(c, s, pending).logs)
  {
    hide Honest, Projection, ORDERED, LockAll;
    if "crate_name" in pending {
      var log := LogAt(s.logs, c.pathFor(pending["crate_name"]));
      HonestAt(s.logs, c.pathFor(pending["crate_name"]));
      HonestMore(log, DialogStarted(c.seed, c.model));
      LocksHonest(log + [DialogStarted(c.seed, c.model)], ORDERED, pending);
    }
  }
}
