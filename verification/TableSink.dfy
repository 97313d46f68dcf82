/** The delivery end of the outbox: an idempotent insert whose columns are probed from
    the destination and cached until the destination says they are wrong. */
module TableSink {
  import opened Common
  import opened Intents

  /** An intent under its event id. */
  datatype AuditIntent = AuditIntent(eventId: string, body: Intent)

  datatype Value = Null | Text(text: string) | Document(json: string) | Time(at: int)

  datatype Result<+T> = Success(value: T) | Failure(error: SinkError)

  datatype SinkError = IntentIncomplete | DestinationShape | ProbeFailed | MetadataError | UndefinedColumn | ExecFailed

  /** The columns of the canonical audit row. */
  datatype Column =
    | Id | UserId | OrganizationId | Action | ResourceType | ResourceId | MetadataColumn | IpAddress | CreatedAt | ActorEmail

  /** In insert order. */
  const DESTINATION_COLUMNS := [Id, UserId, OrganizationId, Action, ResourceType, ResourceId, MetadataColumn,
                                IpAddress, CreatedAt, ActorEmail]

  /** Without these a delivered row would be neither identifiable nor a record. */
  const REQUIRED := {Id, Action}

  function Optional(s: Option<string>): Value
  {
    match s
    case None => Null
    case Some(text) => Text(text)
  }

  /** The extractor of each canonical column. */
  function Extract(name: Column, i: AuditIntent): Result<Value>
  {
    match name
    case Id => Success(Text(i.eventId))
    case UserId => Success(Optional(i.body.actorUserId))
    case OrganizationId => Success(Optional(i.body.organizationId))
    case Action => Success(Text(i.body.action))
    case ResourceType => Success(Optional(i.body.resourceType))
    case ResourceId => Success(Optional(i.body.resourceId))
    case MetadataColumn =>
      (match i.body.metadata
       case Absent => Success(Null)
       case Json(text) => Success(Document(text))
       case Unencodable => Failure(MetadataError))
    case IpAddress => Success(Optional(i.body.ipAddress))
    case CreatedAt => Success(Time(i.body.occurredAt))
    case ActorEmail => Success(Optional(i.body.actorEmail))
  }

  /** The insert: column list and the placeholder number written under each column. */
  datatype Statement = Statement(names: seq<Column>, placeholders: seq<nat>)

  type RowValues = map<Column, Value>

  ghost predicate NoRepeats(names: seq<Column>)
  {
    forall j, k :: 0 <= j < k < |names| ==> names[j] != names[k]
  }

  /** Every column of the statement is bound to that column's own extractor. */
  ghost predicate Aligned(stmt: Statement, extract: seq<Column>)
  {
    && |stmt.names| == |stmt.placeholders| == |extract|
    && (forall k :: 0 <= k < |stmt.names| ==> stmt.placeholders[k] == k + 1 && extract[k] == stmt.names[k])
    && NoRepeats(stmt.names)
    && REQUIRED <= NamesOf(stmt)
  }

  function NamesOf(stmt: Statement): set<Column>
  {
    set n | n in stmt.names
  }

  /** The row the audit trail promises: each written column is the intent's own field. */
  ghost predicate Records(row: RowValues, names: set<Column>, i: AuditIntent)
  {
    row.Keys == names && forall n :: n in names ==> Extract(n, i) == Success(row[n])
  }

  // ---- the database ---------------------------------------------------------

  function IndexOf(names: seq<Column>, n: Column): (k: nat)
    requires n in names
    ensures k < |names| && names[k] == n
  {
    if names[0] == n then 0 else 1 + IndexOf(names[1..], n)
  }

  /** VALUES: each column takes the argument its placeholder names. */
  function RowOf(stmt: Statement, args: seq<Value>): RowValues
    requires Bindable(stmt, args)
  {
    map n | n in stmt.names :: args[stmt.placeholders[IndexOf(stmt.names, n)] - 1]
  }

  predicate Bindable(stmt: Statement, args: seq<Value>)
  {
    && |stmt.names| == |stmt.placeholders|
    && forall k :: 0 <= k < |stmt.placeholders| ==> 1 <= stmt.placeholders[k] <= |args|
  }

  /** The connection failing: before the insert took effect, or after. */
  datatype Fault = NoFault | Refused | ReplyLost

  class Destination {
    var columns: set<Column>
    var rows: map<string, RowValues>

    constructor (columns: set<Column>)
      ensures this.columns == columns && rows == map[]
    {
      this.columns, rows := columns, map[];
    }

    /** INSERT ... ON CONFLICT (id) DO NOTHING, id being unique. */
    method Exec(stmt: Statement, args: seq<Value>, fault: Fault) returns (error: Option<SinkError>)
      requires Bindable(stmt, args) && Id in stmt.names && RowOf(stmt, args)[Id].Text?
      modifies this`rows
      ensures error == if fault.Refused? then Some(ExecFailed)
                       else if !(NamesOf(stmt) <= columns) then Some(UndefinedColumn)
                       else if fault.ReplyLost? then Some(ExecFailed) else None
      ensures var row := RowOf(stmt, args);
              rows == if fault.Refused? || !(NamesOf(stmt) <= columns) || row[Id].text in old(rows) then old(rows)
                      else old(rows)[row[Id].text := row]
    {
      if fault.Refused? { return Some(ExecFailed); }
      if !(NamesOf(stmt) <= columns) { return Some(UndefinedColumn); }
      var row := RowOf(stmt, args);
      if row[Id].text !in rows { rows := rows[row[Id].text := row]; }
      error := if fault.ReplyLost? then Some(ExecFailed) else None;
    }
  }

  /** Positional binding of an aligned plan puts each field under its own column. */
  lemma AlignedRecords(stmt: Statement, extract: seq<Column>, args: seq<Value>, i: AuditIntent)
    requires Aligned(stmt, extract) && |args| == |extract|
    requires forall k :: 0 <= k < |extract| ==> Extract(extract[k], i) == Success(args[k])
    ensures Bindable(stmt, args) && Records(RowOf(stmt, args), NamesOf(stmt), i)
    ensures Id in stmt.names && RowOf(stmt, args)[Id] == Text(i.eventId)
  {
    assert Id in NamesOf(stmt);
    forall n | n in NamesOf(stmt) ensures Extract(n, i) == Success(RowOf(stmt, args)[n]) {
      var k := IndexOf(stmt.names, n);
      assert stmt.placeholders[k] == k + 1 && extract[k] == n;
    }
  }

  /** What a delivery may do to the destination. */
  ghost predicate DeliveredOrUntouched(before: map<string, RowValues>, after: map<string, RowValues>, names: set<Column>, i: AuditIntent)
  {
    || after == before
    || (&& i.eventId !in before && i.eventId in after
        && after == before[i.eventId := after[i.eventId]]
        && Records(after[i.eventId], names, i) && REQUIRED <= names)
  }

  class TableSink {
    const db: Destination?
    var stmt: Option<Statement>
    var extract: seq<Column>

    constructor (db: Destination?)
      ensures this.db == db && stmt.None? && Valid()
    {
      this.db, stmt, extract := db, None, [];
    }

    ghost predicate Valid()
      reads this
    {
      stmt.Some? ==> Aligned(stmt.value, extract)
    }

    /** The columns the next delivery will write: the cached plan's, or a fresh probe's. */
    ghost function Planned(columns: set<Column>): set<Column>
      reads this
    {
      if stmt.Some? then NamesOf(stmt.value) else columns
    }

    /** The cached insert, or a probe of the destination; cached only on success. */
    method Plan(probeFails: bool) returns (plan: Result<Statement>, fields: seq<Column>)
      requires Valid() && db != null
      modifies this
      ensures Valid()
      ensures plan == Failure(ProbeFailed) <==> old(stmt).None? && probeFails
      ensures plan == Failure(DestinationShape) <==> old(stmt).None? && !probeFails && !(REQUIRED <= db.columns)
      ensures plan.Failure? ==> plan.error in {ProbeFailed, DestinationShape} && stmt == old(stmt)
      ensures plan.Success? ==> stmt == Some(plan.value) && extract == fields && Aligned(plan.value, fields)
      ensures plan.Success? ==> NamesOf(plan.value) == old(Planned(db.columns))
      ensures old(stmt).Some? ==> stmt == old(stmt)
    {
      if stmt.Some? { return Success(stmt.value), extract; }
      if probeFails { return Failure(ProbeFailed), []; }
      var probed, missing, found := Probe(db.columns);
      if missing != [] {
        assert missing[0] in missing;
        return Failure(DestinationShape), [];
      }
      assert forall n :: n in REQUIRED ==> n !in missing;
      stmt, extract := Some(probed), found;
      plan, fields := Success(probed), found;
    }

    /** The probe's loop over the canonical columns. */
    method Probe(columns: set<Column>) returns (plan: Statement, missing: seq<Column>, fields: seq<Column>)
      ensures |plan.names| == |plan.placeholders| == |fields| && NoRepeats(plan.names) && NamesOf(plan) == columns
      ensures forall k :: 0 <= k < |plan.names| ==> plan.placeholders[k] == k + 1 && fields[k] == plan.names[k]
      ensures forall n :: n in missing <==> n in REQUIRED && n !in columns
    {
      var names, placeholders := [], [];
      missing, fields := [], [];
      var k := 0;
      while k < |DESTINATION_COLUMNS|
        invariant 0 <= k <= |DESTINATION_COLUMNS|
        invariant |names| == |placeholders| == |fields|
        invariant forall j :: 0 <= j < |names| ==> placeholders[j] == j + 1 && fields[j] == names[j]
        invariant forall n :: n in names <==> n in columns && n in DESTINATION_COLUMNS[..k]
        invariant forall n :: n in missing <==> n in REQUIRED && n !in columns && n in DESTINATION_COLUMNS[..k]
        invariant NoRepeats(names)
      {
        var column := DESTINATION_COLUMNS[k];
        assert DESTINATION_COLUMNS[..k + 1] == DESTINATION_COLUMNS[..k] + [column];
        assert column !in DESTINATION_COLUMNS[..k];
        if column !in columns {
          if column in REQUIRED { missing := missing + [column]; }
        } else {
          names := names + [column];
          placeholders := placeholders + [|names|];
          fields := fields + [column];
        }
        k := k + 1;
      }
      EveryColumn();
      assert DESTINATION_COLUMNS[..k] == DESTINATION_COLUMNS;
      plan := Statement(names, placeholders);
    }

    /** Discards the plan, so the next delivery probes again. */
    method Invalidate()
      modifies this
      ensures stmt.None? && Valid()
    {
      stmt, extract := None, [];
    }

    /** The arguments, in extractor order; the first extractor to fail ends the delivery. */
    method Bind(fields: seq<Column>, i: AuditIntent) returns (args: Result<seq<Value>>)
      ensures args.Success? ==>
                |args.value| == |fields| && forall k :: 0 <= k < |fields| ==> Extract(fields[k], i) == Success(args.value[k])
      ensures args.Failure? <==> MetadataColumn in fields && i.body.metadata.Unencodable?
      ensures args.Failure? ==> args.error == MetadataError
    {
      var values: seq<Value> := [];
      for k := 0 to |fields|
        invariant |values| == k
        invariant forall j :: 0 <= j < k ==> Extract(fields[j], i) == Success(values[j])
      {
        match Extract(fields[k], i) {
          case Success(v) => values := values + [v];
          case Failure(e) => return Failure(e);
        }
      }
      args := Success(values);
    }

    /** Binds the intent to the plan and runs it. */
    method Insert(plan: Statement, fields: seq<Column>, i: AuditIntent, fault: Fault) returns (error: Option<SinkError>)
      requires db != null && Aligned(plan, fields)
      modifies db
      ensures db.columns == old(db.columns)
      ensures error == AnswerUnder(NamesOf(plan), db.columns, i, fault)
      ensures DeliveredOrUntouched(old(db.rows), db.rows, NamesOf(plan), i)
      ensures i.eventId in db.rows <==>
                i.eventId in old(db.rows) || error.None? || (error == Some(ExecFailed) && fault.ReplyLost?)
    {
      var args := Bind(fields, i);
      assert forall n :: n in fields <==> n in NamesOf(plan) by { AlignedNames(plan, fields); }
      if args.Failure? { return Some(args.error); }
      AlignedRecords(plan, fields, args.value, i);
      error := db.Exec(plan, args.value, fault);
    }

    /** Success means the record is there, once, under its event id: the intent's own
        fields if this call wrote it, untouched if it was there before. No other row
        changes whatever happens. */
    method Deliver(i: AuditIntent, probeFails: bool, fault: Fault) returns (error: Option<SinkError>)
      requires Valid()
      modifies this, db
      ensures Valid()
      ensures db == null ==> error == Some(DestinationShape) && stmt == old(stmt)
      ensures db != null ==> db.columns == old(db.columns)
      ensures db != null && i.eventId == "" ==> error == Some(IntentIncomplete) && stmt == old(stmt) && db.rows == old(db.rows)
      ensures db != null ==> DeliveredOrUntouched(old(db.rows), db.rows, old(Planned(db.columns)), i)
      ensures db != null && error.None? ==> i.eventId in db.rows
      // Only a plan naming a column the destination lost is dropped.
      ensures error == Some(UndefinedColumn) ==> stmt.None?
      ensures error != Some(UndefinedColumn) && old(stmt).Some? ==> stmt == old(stmt)
      ensures db != null && error == Some(UndefinedColumn) ==> !(old(Planned(db.columns)) <= db.columns)
      // A plan probed is a plan kept.
      ensures db != null && i.eventId != "" && old(stmt).None? && !probeFails && REQUIRED <= db.columns ==>
                stmt.Some? && NamesOf(stmt.value) == db.columns
      // The answer under a cached plan: the plan's own columns decide, not the destination's of now.
      ensures db != null && i.eventId != "" && old(stmt).Some? ==>
                error == AnswerUnder(NamesOf(old(stmt).value), db.columns, i, fault)
      // And without one: the probe decides first, and the statement it renders fits the destination.
      ensures db != null && i.eventId != "" && old(stmt).None? ==>
                error == if probeFails then Some(ProbeFailed)
                         else if !(REQUIRED <= db.columns) then Some(DestinationShape)
                         else AnswerUnder(db.columns, db.columns, i, fault)
      // The row is there if it was, if the delivery succeeded, or if only the reply was lost.
      ensures db != null && i.eventId != "" ==>
                (i.eventId in db.rows <==>
                   || i.eventId in old(db.rows) || error.None?
                   || (error == Some(ExecFailed) && fault.ReplyLost?))
    {
      if db == null { return Some(DestinationShape); }
      if i.eventId == "" { return Some(IntentIncomplete); }
      var plan, fields := Plan(probeFails);
      if plan.Failure? { return Some(plan.error); }
      error := Insert(plan.value, fields, i, fault);
      if error == Some(UndefinedColumn) {
        Invalidate();
      }
    }
  }

  /** What delivering under a plan of these columns answers: metadata that cannot be encoded
      and is to be written, a connection that fails before the insert, a column the
      destination lacks, a reply that is lost. Otherwise it succeeds. */
  function AnswerUnder(names: set<Column>, columns: set<Column>, i: AuditIntent, fault: Fault): Option<SinkError>
  {
    if MetadataColumn in names && i.body.metadata.Unencodable? then Some(MetadataError)
    else if fault.Refused? then Some(ExecFailed)
    else if !(names <= columns) then Some(UndefinedColumn)
    else if fault.ReplyLost? then Some(ExecFailed) else None
  }

  lemma AlignedNames(stmt: Statement, extract: seq<Column>)
    requires Aligned(stmt, extract)
    ensures forall n :: n in extract <==> n in NamesOf(stmt)
  {
    forall n | n in NamesOf(stmt) ensures n in extract {
      var k := IndexOf(stmt.names, n);
      assert extract[k] == n;
    }
    forall n | n in extract ensures n in NamesOf(stmt) {
      var k :| 0 <= k < |extract| && extract[k] == n;
      assert stmt.names[k] == n;
    }
  }

  lemma EveryColumn()
    ensures forall n: Column :: n in DESTINATION_COLUMNS
  {
    forall n: Column ensures n in DESTINATION_COLUMNS {
      match n
      case Id => assert DESTINATION_COLUMNS[0] == n;
      case UserId => assert DESTINATION_COLUMNS[1] == n;
      case OrganizationId => assert DESTINATION_COLUMNS[2] == n;
      case Action => assert DESTINATION_COLUMNS[3] == n;
      case ResourceType => assert DESTINATION_COLUMNS[4] == n;
      case ResourceId => assert DESTINATION_COLUMNS[5] == n;
      case MetadataColumn => assert DESTINATION_COLUMNS[6] == n;
      case IpAddress => assert DESTINATION_COLUMNS[7] == n;
      case CreatedAt => assert DESTINATION_COLUMNS[8] == n;
      case ActorEmail => assert DESTINATION_COLUMNS[9] == n;
    }
  }

  // ---- what a delivered row is worth ---------------------------------------

  function Field(row: RowValues, name: Column): Value
  {
    if name in row then row[name] else Null
  }

  function AsOption(v: Value): Option<string>
  {
    if v.Text? then Some(v.text) else None
  }

  /** Reading a delivered row as the intent it came from. */
  function ReadBack(row: RowValues): AuditIntent
  {
    var id, action, created, metadata := Field(row, Id), Field(row, Action), Field(row, CreatedAt), Field(row, MetadataColumn);
    AuditIntent(AsOption(id).GetOr(""),
                Intent(AsOption(action).GetOr(""), AsOption(Field(row, ResourceType)), AsOption(Field(row, ResourceId)),
                       if created.Time? then created.at else 0,
                       AsOption(Field(row, UserId)), AsOption(Field(row, OrganizationId)), AsOption(Field(row, ActorEmail)),
                       AsOption(Field(row, IpAddress)), if metadata.Document? then Json(metadata.json) else Absent))
  }

  /** A row with the whole canonical shape loses nothing; a narrower one loses exactly
      the fields of its missing columns, never those that say what happened. */
  lemma ReadsBack(row: RowValues, names: set<Column>, i: AuditIntent)
    requires Records(row, names, i) && REQUIRED <= names
    ensures (forall n: Column :: n in names) ==> ReadBack(row) == i
    ensures ReadBack(row).eventId == i.eventId && ReadBack(row).body.action == i.body.action
    ensures forall n :: n in names ==> Extract(n, ReadBack(row)) == Extract(n, i)
  {
    forall n | n in names ensures Extract(n, ReadBack(row)) == Extract(n, i) {
      assert Extract(n, i) == Success(row[n]);
    }
    assert Id in names && Action in names;
    if forall n: Column :: n in names {
      assert UserId in names && OrganizationId in names && ResourceType in names && ResourceId in names;
      assert MetadataColumn in names && IpAddress in names && CreatedAt in names && ActorEmail in names;
    }
  }

  /** What a column the row lacks reads as. */
  function Missing(n: Column): Value
  {
    if n == CreatedAt then Time(0) else Null
  }

  /** A row loses something of its intent exactly when a column it lacks would have held
      something. */
  lemma LosesOnlyWhatIsMissing(row: RowValues, names: set<Column>, i: AuditIntent)
    requires Records(row, names, i) && REQUIRED <= names
    ensures ReadBack(row) == i <==> forall n: Column :: n !in names ==> Extract(n, i) == Success(Missing(n))
  {
    var back := ReadBack(row);
    forall n: Column ensures Extract(n, back) == if n in names then Extract(n, i) else Success(Missing(n)) {
      if n in names { ReadsBack(row, names, i); } else { MissingReads(row, n); }
    }
    if forall n: Column :: Extract(n, back) == Extract(n, i) {
      SameExtracts(back, i);
    }
  }

  lemma MissingReads(row: RowValues, n: Column)
    requires n !in row && n !in REQUIRED
    ensures Extract(n, ReadBack(row)) == Success(Missing(n))
  {
  }

  /** The extractors see the whole of an encodable intent. */
  lemma SameExtracts(a: AuditIntent, b: AuditIntent)
    requires forall n: Column :: Extract(n, a) == Extract(n, b)
    ensures a == b
  {
    assert Extract(Id, a) == Extract(Id, b) && Extract(Action, a) == Extract(Action, b);
    assert Extract(UserId, a) == Extract(UserId, b) && Extract(OrganizationId, a) == Extract(OrganizationId, b);
    assert Extract(ResourceType, a) == Extract(ResourceType, b) && Extract(ResourceId, a) == Extract(ResourceId, b);
    assert Extract(MetadataColumn, a) == Extract(MetadataColumn, b) && Extract(IpAddress, a) == Extract(IpAddress, b);
    assert Extract(CreatedAt, a) == Extract(CreatedAt, b) && Extract(ActorEmail, a) == Extract(ActorEmail, b);
  }

  /** Delivering one event again never adds to or changes what the first success left;
      and a stale plan costs one delivery, not the process: the retry probes afresh. */
  method Redeliver(sink: TableSink, i: AuditIntent, first: Fault, again: Fault, probeFails: bool)
    returns (e1: Option<SinkError>, e2: Option<SinkError>)
    requires sink.Valid() && sink.db != null
    modifies sink, sink.db
    ensures i.eventId in old(sink.db.rows) ==> sink.db.rows == old(sink.db.rows)
    ensures forall id :: id in old(sink.db.rows) ==> id in sink.db.rows && sink.db.rows[id] == old(sink.db.rows)[id]
    ensures sink.db.rows.Keys <= old(sink.db.rows).Keys + {i.eventId}
    ensures e1.None? || e2.None? ==> i.eventId in sink.db.rows
    ensures e1 == Some(UndefinedColumn) && !i.body.metadata.Unencodable? && i.eventId != "" && !probeFails && again.NoFault? ==>
              (e2.None? <==> REQUIRED <= sink.db.columns)
  {
    e1 := sink.Deliver(i, false, first);
    e2 := sink.Deliver(i, probeFails, again);
  }

  /** A column added under a cached plan raises nothing, so the plan stays and the column
      is never written: while a cached plan works, its rows carry the whole destination
      exactly when nothing was added since the probe. */
  method KeepsCachedPlan(sink: TableSink, i: AuditIntent, fault: Fault) returns (error: Option<SinkError>)
    requires sink.Valid() && sink.db != null && sink.stmt.Some?
    modifies sink, sink.db
    ensures sink.Valid() && sink.db.columns == old(sink.db.columns)
    ensures NamesOf(old(sink.stmt).value) <= sink.db.columns ==> sink.stmt == old(sink.stmt)
    ensures error.None? && i.eventId !in old(sink.db.rows) ==>
              && i.eventId in sink.db.rows
              && (sink.db.rows[i.eventId].Keys == sink.db.columns <==> NamesOf(old(sink.stmt).value) == old(sink.db.columns))
  {
    error := sink.Deliver(i, false, fault);
  }
}
