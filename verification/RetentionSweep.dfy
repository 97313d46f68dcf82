/** The audit retention sweep: bounded batches, oldest first, around rows under legal hold. */
module RetentionSweep {
  import opened Common
  import opened Ordering

  const MAX_IDENTIFIER_LENGTH := 63

  // ---- naming the holds table -----------------------------------------------

  predicate ValidIdentifier(part: string)
  {
    && 0 < |part| <= MAX_IDENTIFIER_LENGTH
    && ('a' <= part[0] <= 'z' || part[0] == '_')
    && forall i :: 0 <= i < |part| ==> 'a' <= part[i] <= 'z' || '0' <= part[i] <= '9' || part[i] in {'_', '$'}
  }

  function Trimmed(s: string): string
    decreases |s|
  {
    if |s| > 0 && IsUnicodeSpace(s[0]) then Trimmed(s[1..])
    else if |s| > 0 && IsUnicodeSpace(s[|s| - 1]) then Trimmed(s[..|s| - 1])
    else s
  }

  function Parts(s: string): seq<string>
  {
    if |s| == 0 then [""]
    else
      var rest := Parts(s[1..]);
      if s[0] == '.' then [""] + rest
      else if |rest| == 0 then [[s[0]]]
      else [[s[0]] + rest[0]] + rest[1..]
  }

  /** quoteAuditTable: the table a name addresses, if it is "table" or "schema.table". */
  function TableNamed(name: string): Option<seq<string>>
  {
    var parts := Parts(Trimmed(name));
    if |parts| <= 2 && forall i :: 0 <= i < |parts| ==> ValidIdentifier(parts[i]) then Some(parts) else None
  }

  /** A bare identifier by its character codes: a lower-case letter or an underscore, then
      those, digits and dollar signs; at most 63 in all. */
  lemma ValidIdentifierMeans(part: string)
    ensures ValidIdentifier(part) <==>
              && 1 <= |part| <= 63
              && (97 <= part[0] as int <= 122 || part[0] as int == 95)
              && forall c :: c in part ==> 97 <= c as int <= 122 || 48 <= c as int <= 57 || c as int == 95 || c as int == 36
  {
    if forall c :: c in part ==> 97 <= c as int <= 122 || 48 <= c as int <= 57 || c as int == 95 || c as int == 36 {
      forall i | 0 <= i < |part| ensures 'a' <= part[i] <= 'z' || '0' <= part[i] <= '9' || part[i] in {'_', '$'} {
        assert part[i] in part;
      }
    }
  }

  /** schema.table, or just table. */
  function Dotted(parts: seq<string>): string
    requires |parts| > 0
  {
    if |parts| == 1 then parts[0] else parts[0] + "." + Dotted(parts[1..])
  }

  lemma {:induction false} PartsOfPart(part: string)
    requires '.' !in part
    ensures Parts(part) == [part]
  {
    if |part| > 0 {
      PartsOfPart(part[1..]);
      assert [part[0]] + part[1..] == part;
    }
  }

  lemma {:induction false} PartsOfFirst(part: string, rest: string)
    requires '.' !in part
    ensures Parts(part + "." + rest) == [part] + Parts(rest)
  {
    if |part| == 0 {
      assert (part + "." + rest)[1..] == rest;
    } else {
      PartsOfFirst(part[1..], rest);
      assert (part + "." + rest)[1..] == part[1..] + "." + rest;
      assert [part[0]] + part[1..] == part;
    }
  }

  lemma {:induction false} PartsOfDotted(parts: seq<string>)
    requires |parts| > 0 && forall i :: 0 <= i < |parts| ==> '.' !in parts[i]
    ensures Parts(Dotted(parts)) == parts
  {
    if |parts| == 1 {
      PartsOfPart(parts[0]);
    } else {
      PartsOfDotted(parts[1..]);
      PartsOfFirst(parts[0], Dotted(parts[1..]));
    }
  }

  lemma {:induction false} DottedParts(s: string)
    ensures |Parts(s)| > 0 && Dotted(Parts(s)) == s
  {
    if |s| > 0 {
      DottedParts(s[1..]);
      var rest := Parts(s[1..]);
      if s[0] == '.' {
        assert ([""] + rest)[1..] == rest;
      } else if |rest| > 1 {
        assert ([[s[0]] + rest[0]] + rest[1..])[1..] == rest[1..];
      }
    }
  }

  /** Nothing left to trim. */
  predicate Trim(s: string)
  {
    |s| > 0 ==> !IsUnicodeSpace(s[0]) && !IsUnicodeSpace(s[|s| - 1])
  }

  lemma {:induction false} TrimmedPads(s: string) returns (before: string, after: string)
    ensures Blank(before) && Blank(after) && s == before + Trimmed(s) + after && Trim(Trimmed(s))
    decreases |s|
  {
    before, after := "", "";
    if |s| > 0 && IsUnicodeSpace(s[0]) {
      before, after := TrimmedPads(s[1..]);
      before := [s[0]] + before;
    } else if |s| > 0 && IsUnicodeSpace(s[|s| - 1]) {
      before, after := TrimmedPads(s[..|s| - 1]);
      after := after + [s[|s| - 1]];
    }
  }

  lemma {:induction false} TrimsPads(before: string, s: string, after: string)
    requires Blank(before) && Blank(after) && Trim(s) && |s| > 0
    ensures Trimmed(before + s + after) == s
    decreases |before| + |after|
  {
    var whole := before + s + after;
    if |before| > 0 {
      assert whole[1..] == before[1..] + s + after;
      TrimsPads(before[1..], s, after);
    } else if |after| > 0 {
      assert whole[..|whole| - 1] == before + s + after[..|after| - 1];
      TrimsPads(before, s, after[..|after| - 1]);
    } else {
      assert whole == s;
    }
  }

  /** A name addresses a table exactly when, white space around it aside, it is that table
      or its schema and it, joined by a dot, each a bare identifier. */
  lemma TableNamedIff(name: string, t: seq<string>)
    ensures TableNamed(name) == Some(t) <==>
              1 <= |t| <= 2 && (forall i :: 0 <= i < |t| ==> ValidIdentifier(t[i])) && Padded(name, Dotted(t))
  {
    if TableNamed(name) == Some(t) {
      var before, after := TrimmedPads(name);
      DottedParts(Trimmed(name));
      assert name == before + Dotted(t) + after;
    }
    if 1 <= |t| <= 2 && (forall i :: 0 <= i < |t| ==> ValidIdentifier(t[i])) && Padded(name, Dotted(t)) {
      NamesItsTable(name, t);
    }
  }

  /** The text with white space around it. */
  ghost predicate Padded(name: string, text: string)
  {
    exists before, after :: Blank(before) && Blank(after) && name == before + text + after
  }

  lemma NamesItsTable(name: string, t: seq<string>)
    requires 1 <= |t| <= 2 && (forall i :: 0 <= i < |t| ==> ValidIdentifier(t[i])) && Padded(name, Dotted(t))
    ensures TableNamed(name) == Some(t)
  {
    var before, after :| Blank(before) && Blank(after) && name == before + Dotted(t) + after;
    forall i | 0 <= i < |t| ensures '.' !in t[i] { }
    PartsOfDotted(t);
    DottedTrim(t);
    TrimsPads(before, Dotted(t), after);
  }

  lemma DottedTrim(t: seq<string>)
    requires 1 <= |t| <= 2 && forall i :: 0 <= i < |t| ==> ValidIdentifier(t[i])
    ensures |Dotted(t)| > 0 && Trim(Dotted(t))
  {
    assert Dotted(t)[0] == t[0][0];
    var last := t[|t| - 1];
    assert Dotted(t)[|Dotted(t)| - 1] == last[|last| - 1];
  }

  // ---- the options ----------------------------------------------------------

  datatype AuditSweepOption = WithLegalHolds(table: string)

  /** Unset is not the same as set to the empty name. */
  datatype SweepFilter = SweepFilter(holdTable: string, holdTableSet: bool)

  const NO_FILTER := SweepFilter("", false)

  datatype Exemption = NoHolds | Holds(table: seq<string>) | Refused

  function ExemptionOf(f: SweepFilter): Exemption
  {
    if !f.holdTableSet then NoHolds
    else if f.holdTable == "" then Refused
    else match TableNamed(f.holdTable) { case None => Refused case Some(t) => Holds(t) }
  }

  /** What the options ask for: the last one given, if any was. */
  ghost predicate Asked(opts: seq<Option<AuditSweepOption>>, f: SweepFilter)
  {
    || (f == NO_FILTER && forall i :: 0 <= i < |opts| ==> opts[i].None?)
    || (exists i :: 0 <= i < |opts| && opts[i] == Some(WithLegalHolds(f.holdTable)) && f.holdTableSet &&
                    forall j :: i < j < |opts| ==> opts[j].None?)
  }

  /** newAuditSweepFilter: nil options are skipped and a later one overrides. */
  method NewAuditSweepFilter(opts: seq<Option<AuditSweepOption>>) returns (f: SweepFilter)
    ensures Asked(opts, f)
  {
    f := NO_FILTER;
    for i := 0 to |opts|
      invariant Asked(opts[..i], f)
    {
      assert opts[..i + 1] == opts[..i] + [opts[i]];
      if opts[i].Some? {
        f := SweepFilter(opts[i].value.table, true);
        assert opts[..i + 1][i] == Some(WithLegalHolds(f.holdTable));
      }
    }
    assert opts[..|opts|] == opts;
  }

  /** A caller that asked for protection never gets an unprotected sweep: without holds
      means that no option was given at all. */
  lemma NoSilentExemption(opts: seq<Option<AuditSweepOption>>, f: SweepFilter)
    requires Asked(opts, f)
    ensures ExemptionOf(f) == NoHolds <==> forall i :: 0 <= i < |opts| ==> opts[i].None?
    ensures forall t :: ExemptionOf(f) == Holds(t) <==> f != NO_FILTER && f.holdTable != "" && TableNamed(f.holdTable) == Some(t)
    ensures (exists i :: 0 <= i < |opts| && opts[i] == Some(WithLegalHolds("")) && forall j :: i < j < |opts| ==> opts[j].None?) ==>
              ExemptionOf(f) == Refused
  {
    if f.holdTableSet {
      var i :| 0 <= i < |opts| && opts[i] == Some(WithLegalHolds(f.holdTable)) && forall j :: i < j < |opts| ==> opts[j].None?;
      assert opts[i].Some?;
    }
  }

  // ---- the statement --------------------------------------------------------

  datatype Hold = Hold(active: bool, start: int, end: int)

  /** Rows by id, with created_at. */
  type Rows = map<string, int>

  predicate Held(at: int, holds: set<Hold>)
  {
    exists h :: h in holds && h.active && h.start <= at <= h.end
  }

  function Expired(rows: Rows, cutoff: int): Rows
  {
    map id | id in rows && rows[id] < cutoff :: rows[id]
  }

  function Deletable(rows: Rows, holds: set<Hold>, cutoff: int): Rows
  {
    map id | id in rows && rows[id] < cutoff && !Held(rows[id], holds) :: rows[id]
  }

  datatype SweepError = BadHoldTable | StatementFailed

  class AuditLogs {
    var rows: Rows
    var holdTables: map<seq<string>, set<Hold>>

    constructor (rows: Rows, holdTables: map<seq<string>, set<Hold>>)
      ensures this.rows == rows && this.holdTables == holdTables
    {
      this.rows, this.holdTables := rows, holdTables;
    }

    /** The holds a sweep reads; a table that is not there fails the whole statement. */
    function HoldsFor(e: Exemption): Option<set<Hold>>
      requires !e.Refused?
      reads this
    {
      if e.NoHolds? then Some({}) else if e.table in holdTables then Some(holdTables[e.table]) else None
    }

    /** One batch: exactly min(batchSize, deletable) rows, the oldest deletable ones, and
        never one inside an active hold. PostgreSQL refuses a negative LIMIT. */
    method DeleteAuditLogsBefore(cutoff: int, batchSize: int, opts: seq<Option<AuditSweepOption>>, fails: bool)
      returns (deleted: nat, error: Option<SweepError>, ghost f: SweepFilter, ghost gone: set<string>)
      modifies this`rows
      ensures Asked(opts, f)
      ensures error == if ExemptionOf(f).Refused? then Some(BadHoldTable)
                       else if fails || batchSize < 0 || HoldsFor(ExemptionOf(f)).None? then Some(StatementFailed)
                       else None
      ensures error.Some? ==> rows == old(rows) && deleted == 0
      ensures error.None? ==>
                && OldestFirst(Deletable(old(rows), HoldsFor(ExemptionOf(f)).value, cutoff), gone, batchSize)
                && rows == old(rows) - gone && deleted == |gone|
      // The same row by row: what a hold spans stays, and what none spans goes as room allows.
      ensures error.None? ==> forall id :: id in old(rows) ==>
                && (id !in rows ==> old(rows)[id] < cutoff)
                && (forall h :: h in HoldsFor(ExemptionOf(f)).value && h.active && h.start <= old(rows)[id] <= h.end ==> id in rows)
      ensures error.None? && |set x | x in old(rows) && old(rows)[x] < cutoff| <= batchSize ==>
                forall id :: id in old(rows) && old(rows)[id] < cutoff ==>
                (id in rows <==> exists h :: h in HoldsFor(ExemptionOf(f)).value && h.active && h.start <= old(rows)[id] <= h.end)
    {
      deleted, gone := 0, {};
      var filter := NewAuditSweepFilter(opts);
      f := filter;
      var exemption := ExemptionOf(filter);
      if exemption.Refused? { return 0, Some(BadHoldTable), f, {}; }
      var holds := HoldsFor(exemption);
      if fails || batchSize < 0 || holds.None? { return 0, Some(StatementFailed), f, {}; }
      var taken := TakeOldest(Deletable(rows, holds.value, cutoff), batchSize);
      forall id | id in rows
        ensures forall h :: h in holds.value && h.active && h.start <= rows[id] <= h.end ==> id !in taken
        ensures |set x | x in rows && rows[x] < cutoff| <= batchSize && rows[id] < cutoff && id !in taken ==>
                  exists h :: h in holds.value && h.active && h.start <= rows[id] <= h.end
      {
        BatchSparesHolds(rows, holds.value, cutoff, batchSize, taken, id);
      }
      rows := rows - taken;
      deleted, gone, error := |taken|, taken, None;
    }
  }

  /** A batch row by row. A row that some active hold spans, its bounds included, is never
      deleted, nor is one at or after the cutoff; a row before the cutoff that no active
      hold spans is deleted, unless the batch is full of rows no younger than it. */
  lemma BatchSparesHolds(rows: Rows, holds: set<Hold>, cutoff: int, batch: nat, gone: set<string>, id: string)
    requires OldestFirst(Deletable(rows, holds, cutoff), gone, batch) && id in rows
    ensures forall h :: h in holds && h.active && h.start <= rows[id] <= h.end ==> id !in gone
    ensures rows[id] >= cutoff ==> id !in gone
    ensures rows[id] < cutoff && (forall h :: h in holds && h.active ==> rows[id] < h.start || h.end < rows[id]) ==>
              id in gone || (|gone| == batch && forall g :: g in gone ==> g in rows && rows[g] <= rows[id])
    ensures |set x | x in rows && rows[x] < cutoff| <= batch && rows[id] < cutoff && id !in gone ==>
              exists h :: h in holds && h.active && h.start <= rows[id] <= h.end
  {
    var can := Deletable(rows, holds, cutoff);
    if h :| h in holds && h.active && h.start <= rows[id] <= h.end {
      assert Held(rows[id], holds);
    }
    if id in can && id !in gone {
      assert id in can.Keys - gone;
      SubsetSize(gone, can.Keys);
      SubsetSize(gone + {id}, can.Keys);
      SubsetSize(can.Keys, set x | x in rows && rows[x] < cutoff);
      assert |can| == |can.Keys|;
    }
  }

  // ---- sweeping until nothing is left ---------------------------------------

  /** A caller's loop against fixed holds: each call deletes its batch. */
  ghost predicate Sweeps(tables: seq<Rows>, gone: seq<set<string>>, holds: set<Hold>, cutoff: int, batch: nat)
  {
    && |tables| == |gone| + 1
    && forall i :: 0 <= i < |gone| ==>
         OldestFirst(Deletable(tables[i], holds, cutoff), gone[i], batch) && tables[i + 1] == tables[i] - gone[i]
  }

  lemma OneSweep(rows: Rows, gone: set<string>, holds: set<Hold>, cutoff: int, batch: nat)
    requires OldestFirst(Deletable(rows, holds, cutoff), gone, batch)
    ensures Deletable(rows - gone, holds, cutoff) == Deletable(rows, holds, cutoff) - gone
    ensures |Deletable(rows - gone, holds, cutoff)| == |Deletable(rows, holds, cutoff)| - |gone|
    ensures forall id :: id in rows && id !in Deletable(rows, holds, cutoff) ==> id in rows - gone
  {
    var can := Deletable(rows, holds, cutoff);
    assert Deletable(rows - gone, holds, cutoff) == can - gone;
    assert (can - gone).Keys == can.Keys - gone;
    assert can.Keys == gone + (can.Keys - gone);
    assert |can| == |can.Keys| && |can - gone| == |(can - gone).Keys|;
  }

  /** Calls add up: what n of them leave is untouched outside the deletable rows, and the
      deletable rows shrink by a full batch a call until none is left. */
  lemma {:induction false} SweepsAddUp(tables: seq<Rows>, gone: seq<set<string>>, holds: set<Hold>, cutoff: int, batch: nat, n: nat)
    requires Sweeps(tables, gone, holds, cutoff, batch) && n < |tables|
    ensures var left := |Deletable(tables[0], holds, cutoff)| - n * batch;
            |Deletable(tables[n], holds, cutoff)| == if left < 0 then 0 else left
    ensures tables[n].Keys <= tables[0].Keys
    ensures forall id :: id in tables[0] ==> (id in tables[n] ==> tables[n][id] == tables[0][id])
    ensures forall id :: id in tables[0] && id !in Deletable(tables[0], holds, cutoff) ==> id in tables[n]
    decreases n
  {
    if n > 0 {
      SweepsAddUp(tables, gone, holds, cutoff, batch, n - 1);
      OneSweep(tables[n - 1], gone[n - 1], holds, cutoff, batch);
      assert n * batch == (n - 1) * batch + batch;
      forall id | id in tables[0] && id !in Deletable(tables[0], holds, cutoff) ensures id in tables[n] {
        assert id !in Deletable(tables[n - 1], holds, cutoff);
      }
    }
  }

  /** The loop that stops at the first empty batch stops, and not before everything
      deletable is gone: what it leaves is exactly the rows held or not yet due. */
  lemma EmptyBatchMeansDone(tables: seq<Rows>, gone: seq<set<string>>, holds: set<Hold>, cutoff: int, batch: nat, n: nat)
    requires Sweeps(tables, gone, holds, cutoff, batch) && batch > 0 && n < |gone|
    ensures gone[n] == {} <==> n * batch >= |Deletable(tables[0], holds, cutoff)|
    ensures n >= |Deletable(tables[0], holds, cutoff)| ==> gone[n] == {}
    ensures gone[n] == {} ==> tables[n] == tables[0] - Deletable(tables[0], holds, cutoff).Keys
  {
    SweepsAddUp(tables, gone, holds, cutoff, batch, n);
    var can := Deletable(tables[n], holds, cutoff);
    assert |gone[n]| == if |can| < batch then |can| else batch;
    assert n * batch >= n by { TimesAtLeast(n, batch); }
    if gone[n] == {} {
      assert |can| == 0;
      forall id | id in tables[n] ensures id !in Deletable(tables[0], holds, cutoff) {
        assert id !in can;
      }
      assert tables[n] == tables[0] - Deletable(tables[0], holds, cutoff).Keys;
    }
  }

  // ---- why the exemption is inside the LIMIT --------------------------------

  /** The variant that pages first and then drops what is held. */
  ghost predicate LateFiltered(rows: Rows, gone: set<string>, holds: set<Hold>, cutoff: int, batch: nat)
  {
    exists page :: OldestFirst(Expired(rows, cutoff), page, batch) && gone == page * Deletable(rows, holds, cutoff).Keys
  }

  /** A full batch of held rows older than anything deletable. */
  ghost predicate HeldFront(rows: Rows, holds: set<Hold>, cutoff: int, batch: nat, front: set<string>)
  {
    && front <= Expired(rows, cutoff).Keys && |front| >= batch
    && (forall id :: id in front ==> Held(rows[id], holds))
    && (forall f, d :: f in front && d in Deletable(rows, holds, cutoff) ==> rows[f] < rows[d])
  }

  /** Filtering after the LIMIT stalls for ever behind such a front, deleting nothing
      while deletable rows wait; the statement as written deletes a full batch of them. */
  lemma LateFilterStalls(rows: Rows, gone: set<string>, holds: set<Hold>, cutoff: int, batch: nat, front: set<string>)
    requires HeldFront(rows, holds, cutoff, batch, front) && LateFiltered(rows, gone, holds, cutoff, batch)
    ensures gone == {} && rows - gone == rows
  {
    var page :| OldestFirst(Expired(rows, cutoff), page, batch) && gone == page * Deletable(rows, holds, cutoff).Keys;
    forall d | d in Deletable(rows, holds, cutoff) ensures d !in page {
      PageBehindFront(Expired(rows, cutoff), page, batch, front, d);
    }
  }

  /** A page that reaches past a whole front of earlier rows would hold them all. */
  lemma PageBehindFront(times: Rows, page: set<string>, batch: nat, front: set<string>, d: string)
    requires OldestFirst(times, page, batch) && front <= times.Keys && |front| >= batch && d in times
    requires forall f :: f in front ==> times[f] < times[d]
    ensures d !in page
  {
    if forall f :: f in front ==> f in page {
      assert page == front + (page - front);
      assert page - front == {};
    }
  }

  ghost predicate LateSweeps(tables: seq<Rows>, gone: seq<set<string>>, holds: set<Hold>, cutoff: int, batch: nat)
  {
    && |tables| == |gone| + 1
    && forall i :: 0 <= i < |gone| ==> LateStep(tables[i], tables[i + 1], gone[i], holds, cutoff, batch)
  }

  ghost predicate LateStep(rows: Rows, rows': Rows, gone: set<string>, holds: set<Hold>, cutoff: int, batch: nat)
  {
    LateFiltered(rows, gone, holds, cutoff, batch) && rows' == rows - gone
  }

  lemma {:induction false} LateFilterStallsForever(tables: seq<Rows>, gone: seq<set<string>>, holds: set<Hold>, cutoff: int, batch: nat,
                                                   front: set<string>, n: nat)
    requires LateSweeps(tables, gone, holds, cutoff, batch) && n < |tables|
    requires HeldFront(tables[0], holds, cutoff, batch, front)
    ensures tables[n] == tables[0]
    decreases n
  {
    if n > 0 {
      LateFilterStallsForever(tables, gone, holds, cutoff, batch, front, n - 1);
      assert LateStep(tables[n - 1], tables[n], gone[n - 1], holds, cutoff, batch);
      LateFilterStalls(tables[0], gone[n - 1], holds, cutoff, batch, front);
    }
  }

  /** Such a front exists for every batch size: a hold over the oldest batch is enough. */
  lemma FrontExists(batch: nat, ids: set<string>, id: string) returns (rows: Rows, holds: set<Hold>)
    requires |ids| == batch && id !in ids
    ensures HeldFront(rows, holds, 2, batch, ids) && Deletable(rows, holds, 2).Keys == {id}
  {
    holds := {Hold(true, 0, 0)};
    rows := map k | k in ids + {id} :: if k == id then 1 else 0;
    var h := Hold(true, 0, 0);
    assert h in holds && Held(0, holds) && !Held(1, holds);
    assert Expired(rows, 2).Keys == ids + {id};
  }
}
