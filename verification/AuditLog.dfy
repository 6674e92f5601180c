/**
 The append protocol of the audit logger. Each statement of a logging transaction is
 one step; any number of transactions interleave, abort at any point or vanish in a
 restart. Reading and writing the state row is guarded by its row lock, held from
 SELECT ... FOR UPDATE to the end of the transaction.
 */
module AuditLog {
  import opened Base
  import opened AuditHash
  import opened AuditColumns

  /** The surroundings of the server: digests and time text, address parsing, the inet column. */
  datatype Sys = Sys(env: Env, net: Net, inet: string -> Option<string>)

  datatype ChainHead = ChainHead(lastSeq: int, lastHash: string)

  /** A call that appends an entry: through Log, or through AppendChainNoTx. */
  datatype Call = Call(entry: Entry, viaLog: bool, now: int)

  /** A row of audit_logs: the call that wrote it, what the server hashed and wrote, and what a query returns. */
  datatype Row = Row(origin: Option<Call>, written: Entry, stored: Entry)

  /** An appending transaction, by the last statement it has run. */
  datatype Tx =
    | Begun(call: Call)
    | Locked(call: Call, seen: ChainHead)
    | Inserted(row: Row)
    | Advanced(row: Row, head: ChainHead)

  datatype Db = Db(rows: seq<Row>, head: ChainHead, lock: Option<nat>, txs: map<nat, Tx>)

  datatype Step =
    | Begin(tx: nat, call: Call)
    | Lock(tx: nat)
    | Insert(tx: nat, id: string)
    | Advance(tx: nat)
    | Commit(tx: nat)
    | Abort(tx: nat)
    | Restart(txs: set<nat>)

  /** The row a transaction writes after reading the state row. */
  function HashedEntry(sys: Sys, e: Entry, seen: ChainHead, id: string): Entry {
    e.(id := id, seqNo := seen.lastSeq + 1, hashPrev := ComputeHash(sys.env, e, seen.lastHash))
  }

  /** The entry as the call prepares it for hashing. */
  function Prepared(sys: Sys, call: Call): Entry {
    if call.viaLog then PrepareForLog(sys.net, call.entry, call.now) else Prepare(call.entry, call.now)
  }

  function Rollback(db: Db, txs: set<nat>): Db {
    db.(txs := db.txs - txs, lock := if db.lock.Some? && db.lock.value in txs then None else db.lock)
  }

  /** One statement. A step whose transaction is not ready for it, or that waits for the lock, changes nothing. */
  function Next(sys: Sys, db: Db, step: Step): Db {
    match step
    case Begin(t, call) =>
      if t in db.txs then db else db.(txs := db.txs[t := Begun(call)])
    case Lock(t) =>
      if t in db.txs && db.txs[t].Begun? && db.lock == None
      then db.(lock := Some(t), txs := db.txs[t := Locked(db.txs[t].call, db.head)])
      else db
    case Insert(t, id) =>
      if t in db.txs && db.txs[t].Locked? then
        var e := HashedEntry(sys, Prepared(sys, db.txs[t].call), db.txs[t].seen, id);
        match StoredAs(sys.inet, e)
        case None => Rollback(db, {t})
        case Some(stored) => db.(txs := db.txs[t := Inserted(Row(Some(db.txs[t].call), e, stored))])
      else db
    case Advance(t) =>
      if t in db.txs && db.txs[t].Inserted? then
        var row := db.txs[t].row;
        db.(txs := db.txs[t := Advanced(row, ChainHead(row.written.seqNo, row.written.hashPrev))])
      else db
    case Commit(t) =>
      if t in db.txs && db.txs[t].Advanced?
      then Db(db.rows + [db.txs[t].row], db.txs[t].head, None, db.txs - {t})
      else db
    case Abort(t) => Rollback(db, {t})
    case Restart(ts) => Rollback(db, ts)
  }

  function Run(sys: Sys, db: Db, steps: seq<Step>): Db
    decreases |steps|
  {
    if steps == [] then db else Run(sys, Next(sys, db, steps[0]), steps[1..])
  }

  function LastHash(rows: seq<Row>, i: nat): string
    requires i <= |rows|
  {
    if i == 0 then "" else rows[i - 1].written.hashPrev
  }

  /** A row its call wrote after the given head: next sequence number, v2 hash over the head, read back through the columns. */
  ghost predicate Follows(sys: Sys, row: Row, head: ChainHead) {
    && row.origin.Some?
    && row.written == HashedEntry(sys, Prepared(sys, row.origin.value), head, row.written.id)
    && StoredAs(sys.inet, row.written) == Some(row.stored)
  }

  ghost predicate RowFits(sys: Sys, rows: seq<Row>, i: nat)
    requires i < |rows|
  {
    Follows(sys, rows[i], ChainHead(i, LastHash(rows, i)))
  }

  /** Rows already there when the server starts: contiguous, and the state row seeded from the last of them. */
  ghost predicate Seeded(db: Db) {
    && db.lock == None && db.txs == map[]
    && (forall i :: 0 <= i < |db.rows| ==>
          db.rows[i].origin == None && db.rows[i].written == db.rows[i].stored && db.rows[i].stored.seqNo == i + 1)
    && db.head == ChainHead(|db.rows|, LastHash(db.rows, |db.rows|))
  }

  /** The transactions: everyone past the lock statement holds the lock, and what it holds extends the current head. */
  ghost predicate TxInv(sys: Sys, db: Db) {
    && (db.lock.Some? ==> db.lock.value in db.txs)
    && forall t :: t in db.txs && !db.txs[t].Begun? ==>
         && db.lock == Some(t)
         && (db.txs[t].Locked? ==> db.txs[t].seen == db.head)
         && (!db.txs[t].Locked? ==> Follows(sys, db.txs[t].row, db.head))
         && (db.txs[t].Advanced? ==>
              db.txs[t].head == ChainHead(db.txs[t].row.written.seqNo, db.txs[t].row.written.hashPrev))
  }

  /** The committed tables: n rows were there at the start, the rest follow one another, the state row is the last of them. */
  ghost predicate TableInv(sys: Sys, db: Db, start: seq<Row>) {
    && start <= db.rows
    && db.head == ChainHead(|db.rows|, LastHash(db.rows, |db.rows|))
    && forall i :: |start| <= i < |db.rows| ==> RowFits(sys, db.rows, i)
  }

  lemma NextKeepsTx(sys: Sys, db: Db, step: Step)
    requires TxInv(sys, db)
    ensures TxInv(sys, Next(sys, db, step))
  {
  }

  lemma NextKeepsTable(sys: Sys, db: Db, step: Step, start: seq<Row>)
    requires TxInv(sys, db) && TableInv(sys, db, start)
    ensures TableInv(sys, Next(sys, db, step), start)
    ensures db.rows <= Next(sys, db, step).rows
  {
    if step.Commit? && Next(sys, db, step) != db {
      CommitKeepsRows(sys, db.rows, db.txs[step.tx].row, start);
    }
  }

  lemma CommitKeepsRows(sys: Sys, rows: seq<Row>, row: Row, start: seq<Row>)
    requires start <= rows && forall i :: |start| <= i < |rows| ==> RowFits(sys, rows, i)
    requires Follows(sys, row, ChainHead(|rows|, LastHash(rows, |rows|)))
    ensures var rows' := rows + [row];
      start <= rows' && (forall i :: |start| <= i < |rows'| ==> RowFits(sys, rows', i))
      && ChainHead(row.written.seqNo, row.written.hashPrev) == ChainHead(|rows'|, LastHash(rows', |rows'|))
  {
    var rows' := rows + [row];
    forall i | |start| <= i < |rows'| ensures RowFits(sys, rows', i) {
      if i < |rows| {
        assert RowFits(sys, rows, i) && LastHash(rows', i) == LastHash(rows, i);
      }
    }
  }

  /** An abort and a restart end their transactions, free the lock if one of them held it, and leave the tables alone. */
  lemma StoppedLeaveNothing(sys: Sys, db: Db, t: nat, ts: set<nat>)
    ensures var n := Next(sys, db, Restart(ts));
      && n.rows == db.rows && n.head == db.head && n.txs.Keys == db.txs.Keys - ts
      && (forall u :: u in n.txs ==> n.txs[u] == db.txs[u])
      && n.lock == (if db.lock.Some? && db.lock.value in ts then None else db.lock)
    ensures Next(sys, db, Abort(t)) == Next(sys, db, Restart({t}))
  {
  }

  lemma {:induction false} RunKeepsInv(sys: Sys, db: Db, steps: seq<Step>, start: seq<Row>)
    requires TxInv(sys, db) && TableInv(sys, db, start)
    ensures TxInv(sys, Run(sys, db, steps)) && TableInv(sys, Run(sys, db, steps), start)
    ensures db.rows <= Run(sys, db, steps).rows
    decreases |steps|
  {
    if steps != [] {
      NextKeepsTx(sys, db, steps[0]);
      NextKeepsTable(sys, db, steps[0], start);
      RunKeepsInv(sys, Next(sys, db, steps[0]), steps[1..], start);
    }
  }

  /**
   Every interleaving yields one chain: committed rows are never changed or removed, their
   sequence numbers count 1, 2, 3, ... in commit order, each new row was hashed over the one
   before it, and the state row is exactly the last sequence number and hash.
   */
  lemma EveryRunIsOneChain(sys: Sys, init: Db, steps: seq<Step>)
    requires Seeded(init)
    ensures var db := Run(sys, init, steps);
      && init.rows <= db.rows
      && (forall i :: 0 <= i < |db.rows| ==> db.rows[i].stored.seqNo == i + 1)
      && db.head == ChainHead(|db.rows|, LastHash(db.rows, |db.rows|))
      && (forall i :: |init.rows| <= i < |db.rows| ==> LinksV2(sys.env, db.rows[i].written, LastHash(db.rows, i)))
  {
    RunKeepsInv(sys, init, steps, init.rows);
    var db := Run(sys, init, steps);
    forall i | |init.rows| <= i < |db.rows|
      ensures db.rows[i].stored.seqNo == i + 1 && LinksV2(sys.env, db.rows[i].written, LastHash(db.rows, i))
    {
      assert RowFits(sys, db.rows, i);
    }
  }

  /** Every call at work or behind a row that was not there at the start was begun in the run. */
  ghost predicate Began(steps: seq<Step>, call: Call) {
    exists t :: Begin(t, call) in steps
  }

  ghost predicate OriginsKnown(db: Db, start: nat, steps: seq<Step>) {
    && (forall t :: t in db.txs ==> match db.txs[t]
          case Begun(call) => Began(steps, call)
          case Locked(call, _) => Began(steps, call)
          case Inserted(row) => row.origin.Some? ==> Began(steps, row.origin.value)
          case Advanced(row, _) => row.origin.Some? ==> Began(steps, row.origin.value))
    && (forall i :: start <= i < |db.rows| && db.rows[i].origin.Some? ==> Began(steps, db.rows[i].origin.value))
  }

  lemma NextKeepsOrigins(sys: Sys, db: Db, step: Step, start: nat, steps: seq<Step>)
    requires OriginsKnown(db, start, steps) && step in steps
    ensures OriginsKnown(Next(sys, db, step), start, steps)
  {
    if step.Begin? {
      assert Began(steps, step.call);
    }
  }

  lemma {:induction false} RunKeepsOrigins(sys: Sys, db: Db, steps: seq<Step>, start: nat, all: seq<Step>)
    requires OriginsKnown(db, start, all) && forall step :: step in steps ==> step in all
    ensures OriginsKnown(Run(sys, db, steps), start, all)
    decreases |steps|
  {
    if steps != [] {
      NextKeepsOrigins(sys, db, steps[0], start, all);
      RunKeepsOrigins(sys, Next(sys, db, steps[0]), steps[1..], start, all);
    }
  }

  /** Every row a run adds is what a call begun in that run wrote on top of the row before it. */
  lemma RowsComeFromCalls(sys: Sys, init: Db, steps: seq<Step>, i: nat)
    requires Seeded(init) && |init.rows| <= i < |Run(sys, init, steps).rows|
    ensures var rows := Run(sys, init, steps).rows;
      && rows[i].origin.Some? && Began(steps, rows[i].origin.value)
      && rows[i].written == HashedEntry(sys, Prepared(sys, rows[i].origin.value), ChainHead(i, LastHash(rows, i)), rows[i].written.id)
  {
    RunKeepsInv(sys, init, steps, init.rows);
    RunKeepsOrigins(sys, init, steps, |init.rows|, steps);
    assert RowFits(sys, Run(sys, init, steps).rows, i);
  }

  /** What a call passes is what its row records, whichever way it appends; through AppendChainNoTx the address too stays as it is. */
  lemma CallIsRecorded(sys: Sys, call: Call, head: ChainHead, id: string)
    ensures var w := HashedEntry(sys, Prepared(sys, call), head, id);
      && Records(w, call.entry, call.now) && w.id == id && w.seqNo == head.lastSeq + 1
      && w.ipAddress == if call.viaLog then CanonicalIP(sys.net, call.entry.ipAddress) else call.entry.ipAddress
  {
  }

  /** Over every run, each row it adds records what a call begun in it passed. */
  lemma RowsRecordCalls(sys: Sys, init: Db, steps: seq<Step>, i: nat)
    requires Seeded(init) && |init.rows| <= i < |Run(sys, init, steps).rows|
    ensures var row := Run(sys, init, steps).rows[i];
      && row.origin.Some? && (exists t :: Begin(t, row.origin.value) in steps)
      && Records(row.written, row.origin.value.entry, row.origin.value.now)
      && row.written.ipAddress == (if row.origin.value.viaLog then CanonicalIP(sys.net, row.origin.value.entry.ipAddress)
                                   else row.origin.value.entry.ipAddress)
  {
    RowsComeFromCalls(sys, init, steps, i);
    var rows := Run(sys, init, steps).rows;
    CallIsRecorded(sys, rows[i].origin.value, ChainHead(i, LastHash(rows, i)), rows[i].written.id);
  }

  /** What a caller can check of an entry before appending it: its row will read back as it was hashed. */
  predicate Admissible(sys: Sys, call: Call) {
    var e := call.entry;
    && (e.userID == "" || CanonicalGroups(e.userID, 8)) && (e.resourceID == "" || CanonicalGroups(e.resourceID, 8))
    && Fits(100, e.action) && Fits(100, e.resourceType) && Fits(50, e.eventType) && Fits(20, e.status)
    && Fits(2, e.regionCode) && Fits(|e.userAgent|, e.userAgent) && Fits(|e.metadata|, e.metadata)
    && if call.viaLog then LoggedAddr(sys.net, e.ipAddress).None? || !ShownDotted(LoggedAddr(sys.net, e.ipAddress).value)
       else e.ipAddress == "" || sys.inet(e.ipAddress) == Some(e.ipAddress)
  }

  /** The columns keep what a call writes exactly when the call is admissible. */
  lemma AdmissibleIff(sys: Sys, call: Call, head: ChainHead, id: string)
    requires sys.env.Valid() && InetSpec(sys.net, sys.inet)
    ensures ColumnsKeep(sys.inet, HashedEntry(sys, Prepared(sys, call), head, id)) <==> Admissible(sys, call)
  {
    var w := HashedEntry(sys, Prepared(sys, call), head, id);
    assert IsDigest(w.hashPrev) && '\0' !in w.hashPrev;
    ColumnsKeepIff(sys.inet, w);
    CanonicalIPKeptIff(sys.net, sys.inet, call.entry.ipAddress);
  }

  /** The log as a query ordered by seq returns it. */
  function ReadBack(rows: seq<Row>): (s: seq<Entry>)
    ensures |s| == |rows| && forall i :: 0 <= i < |s| ==> s[i] == rows[i].stored
  {
    seq(|rows|, i requires 0 <= i < |rows| => rows[i].stored)
  }

  /** What the log looked like to the server when it hashed the rows. */
  function AsWritten(rows: seq<Row>): (s: seq<Entry>)
    ensures |s| == |rows| && forall i :: 0 <= i < |s| ==> s[i] == rows[i].written
  {
    seq(|rows|, i requires 0 <= i < |rows| => rows[i].written)
  }

  /**
   After any run, over the rows as read back, the verifier's check of a row that was there at
   the start is unchanged, and a new row links exactly when the call that wrote it was admissible.
   */
  lemma ReadBackLinksIff(sys: Sys, init: Db, steps: seq<Step>, i: nat)
    requires sys.env.Valid() && InetSpec(sys.net, sys.inet) && Seeded(init) && i < |Run(sys, init, steps).rows|
    requires Verified(sys.env, ReadBack(init.rows))
    requires var rows := Run(sys, init, steps).rows;
      CollisionFree(sys.env, HashInputs(sys.env, ReadBack(rows)) + HashInputs(sys.env, AsWritten(rows)))
    ensures LinkedAt(sys.env, ReadBack(Run(sys, init, steps).rows), i) <==> RowAdmissible(sys, Run(sys, init, steps).rows[i])
  {
    RunKeepsInv(sys, init, steps, init.rows);
    RowLinksIff(sys, init, Run(sys, init, steps).rows, i);
  }

  lemma RowLinksIff(sys: Sys, init: Db, rows: seq<Row>, i: nat)
    requires sys.env.Valid() && InetSpec(sys.net, sys.inet) && Seeded(init) && init.rows <= rows && i < |rows|
    requires forall j :: |init.rows| <= j < |rows| ==> RowFits(sys, rows, j)
    requires Verified(sys.env, ReadBack(init.rows))
    requires CollisionFree(sys.env, HashInputs(sys.env, ReadBack(rows)) + HashInputs(sys.env, AsWritten(rows)))
    ensures LinkedAt(sys.env, ReadBack(rows), i) <==> RowAdmissible(sys, rows[i])
  {
    HashesReadBack(sys, rows, init.rows, i);
    if i < |init.rows| {
      assert LinkedAt(sys.env, ReadBack(init.rows), i) && rows[i] == init.rows[i];
    } else {
      var shown, hashed := ReadBack(rows), AsWritten(rows);
      assert RowFits(sys, rows, i);
      PrevIsPrevHash(sys, rows, init.rows, i);
      EntryInputsCollisionFree(sys.env, shown, i, hashed, i);
      NewRowLinksIff(sys, rows[i], ChainHead(i, LastHash(rows, i)));
    }
  }

  lemma NewRowLinksIff(sys: Sys, row: Row, head: ChainHead)
    requires sys.env.Valid() && InetSpec(sys.net, sys.inet) && Follows(sys, row, head) && IsPrev(head.lastHash)
    requires CollisionFree(sys.env, InputsAt(sys.env, row.stored, head.lastHash) + InputsAt(sys.env, row.written, head.lastHash))
    ensures Links(sys.env, row.stored, head.lastHash) <==> RowAdmissible(sys, row)
  {
    AdmissibleIff(sys, row.origin.value, head, row.written.id);
    ReplacedEntryLinks(sys.env, row.written, row.stored, head.lastHash);
  }

  /** The row was there at the start, or an admissible call wrote it. */
  predicate RowAdmissible(sys: Sys, row: Row) {
    row.origin.None? || Admissible(sys, row.origin.value)
  }

  /** One direction needs no assumption on the hash: a row that reads back as it was hashed links. */
  lemma AdmissibleRowLinks(sys: Sys, init: Db, steps: seq<Step>, i: nat)
    requires sys.env.Valid() && InetSpec(sys.net, sys.inet) && Seeded(init) && i < |Run(sys, init, steps).rows|
    requires Verified(sys.env, ReadBack(init.rows)) && RowAdmissible(sys, Run(sys, init, steps).rows[i])
    ensures LinkedAt(sys.env, ReadBack(Run(sys, init, steps).rows), i)
  {
    var rows := Run(sys, init, steps).rows;
    RunKeepsInv(sys, init, steps, init.rows);
    HashesReadBack(sys, rows, init.rows, i);
    if i < |init.rows| {
      assert LinkedAt(sys.env, ReadBack(init.rows), i) && rows[i] == init.rows[i];
    } else {
      assert RowFits(sys, rows, i);
      AdmissibleIff(sys, rows[i].origin.value, ChainHead(i, LastHash(rows, i)), rows[i].written.id);
      SameRecordLinks(sys.env, rows[i].written, rows[i].stored, LastHash(rows, i));
    }
  }

  lemma SameRecordLinks(env: Env, e: Entry, f: Entry, prev: string)
    requires LinksV2(env, e, prev) && SameRecord(e, f) && f.hashPrev == e.hashPrev
    ensures LinksV2(env, f, prev)
  {
    assert HashedFields(env, e, prev) == HashedFields(env, f, prev);
  }

  /**
   Every run whose calls are all admissible leaves a log that verifies as read back, whatever
   the interleaving, the aborts and the restarts.
   */
  lemma AdmissibleRunsVerify(sys: Sys, init: Db, steps: seq<Step>)
    requires sys.env.Valid() && InetSpec(sys.net, sys.inet) && Seeded(init) && Verified(sys.env, ReadBack(init.rows))
    requires forall t, call :: Begin(t, call) in steps ==> Admissible(sys, call)
    ensures Verified(sys.env, ReadBack(Run(sys, init, steps).rows))
  {
    var rows := Run(sys, init, steps).rows;
    RunKeepsInv(sys, init, steps, init.rows);
    forall i | 0 <= i < |rows| ensures LinkedAt(sys.env, ReadBack(rows), i) {
      if i < |init.rows| {
        assert rows[i] == init.rows[i];
      } else {
        RowsComeFromCalls(sys, init, steps, i);
      }
      AdmissibleRowLinks(sys, init, steps, i);
    }
  }

  /** Stored hashes always read back as written. */
  lemma HashesReadBack(sys: Sys, rows: seq<Row>, start: seq<Row>, i: nat)
    requires start <= rows && i <= |rows|
    requires forall j :: |start| <= j < |rows| ==> RowFits(sys, rows, j)
    requires forall j :: 0 <= j < |start| ==> start[j].written == start[j].stored
    ensures PrevHash(ReadBack(rows), i) == PrevHash(AsWritten(rows), i) == LastHash(rows, i)
    ensures i <= |start| ==> PrevHash(ReadBack(rows), i) == PrevHash(ReadBack(start), i)
  {
    if i > |start| { assert RowFits(sys, rows, i - 1); }
  }

  lemma PrevIsPrevHash(sys: Sys, rows: seq<Row>, start: seq<Row>, i: nat)
    requires sys.env.Valid() && start <= rows && |start| <= i <= |rows|
    requires Verified(sys.env, ReadBack(start))
    requires forall j :: |start| <= j < |rows| ==> RowFits(sys, rows, j)
    requires forall j :: 0 <= j < |start| ==> start[j].written == start[j].stored
    ensures IsPrev(LastHash(rows, i))
  {
    if i > |start| {
      assert RowFits(sys, rows, i - 1);
    } else {
      PrevIsDigest(sys.env, ReadBack(start), i);
    }
  }

  ghost predicate FirstUnlinked(sys: Sys, entries: seq<Entry>, i: int) {
    0 <= i < |entries| && !LinkedAt(sys.env, entries, i) && forall j :: 0 <= j < i ==> LinkedAt(sys.env, entries, j)
  }

  predicate FirstInadmissible(sys: Sys, rows: seq<Row>, i: int) {
    0 <= i < |rows| && !RowAdmissible(sys, rows[i]) && forall j :: 0 <= j < i ==> RowAdmissible(sys, rows[j])
  }

  /**
   After any run the log as read back verifies exactly when every call whose row was committed
   was admissible; otherwise the index the verifier reports is the first row of one that was not.
   */
  lemma ReadBackVerifiesIff(sys: Sys, init: Db, steps: seq<Step>, broken: int)
    requires sys.env.Valid() && InetSpec(sys.net, sys.inet) && Seeded(init) && Verified(sys.env, ReadBack(init.rows))
    requires var rows := Run(sys, init, steps).rows;
      CollisionFree(sys.env, HashInputs(sys.env, ReadBack(rows)) + HashInputs(sys.env, AsWritten(rows)))
    ensures var rows := Run(sys, init, steps).rows;
      && (Verified(sys.env, ReadBack(rows)) <==> forall row :: row in rows ==> RowAdmissible(sys, row))
      && (FirstUnlinked(sys, ReadBack(rows), broken) <==> FirstInadmissible(sys, rows, broken))
  {
    RunKeepsInv(sys, init, steps, init.rows);
    RowsVerifyIff(sys, init, Run(sys, init, steps).rows, broken);
  }

  lemma RowsVerifyIff(sys: Sys, init: Db, rows: seq<Row>, broken: int)
    requires sys.env.Valid() && InetSpec(sys.net, sys.inet) && Seeded(init) && init.rows <= rows
    requires forall j :: |init.rows| <= j < |rows| ==> RowFits(sys, rows, j)
    requires Verified(sys.env, ReadBack(init.rows))
    requires CollisionFree(sys.env, HashInputs(sys.env, ReadBack(rows)) + HashInputs(sys.env, AsWritten(rows)))
    ensures Verified(sys.env, ReadBack(rows)) <==> forall row :: row in rows ==> RowAdmissible(sys, row)
    ensures FirstUnlinked(sys, ReadBack(rows), broken) <==> FirstInadmissible(sys, rows, broken)
  {
    forall i | 0 <= i < |rows| ensures LinkedAt(sys.env, ReadBack(rows), i) <==> RowAdmissible(sys, rows[i]) {
      RowLinksIff(sys, init, rows, i);
    }
    AllAdmissible(sys, rows);
    FirstAlike(sys, rows, broken);
  }

  lemma FirstAlike(sys: Sys, rows: seq<Row>, broken: int)
    requires forall i :: 0 <= i < |rows| ==> (LinkedAt(sys.env, ReadBack(rows), i) <==> RowAdmissible(sys, rows[i]))
    ensures FirstUnlinked(sys, ReadBack(rows), broken) <==> FirstInadmissible(sys, rows, broken)
  {
  }

  lemma AllAdmissible(sys: Sys, rows: seq<Row>)
    requires forall i :: 0 <= i < |rows| ==> (LinkedAt(sys.env, ReadBack(rows), i) <==> RowAdmissible(sys, rows[i]))
    ensures Verified(sys.env, ReadBack(rows)) <==> forall row :: row in rows ==> RowAdmissible(sys, row)
  {
    if Verified(sys.env, ReadBack(rows)) {
      assert forall i :: 0 <= i < |rows| ==> RowAdmissible(sys, rows[i]);
    }
  }

  /** The last groups of four hex digits of a uuid, in capitals. */
  function Capitals(groups: nat): string {
    if groups == 0 then "" else "AAAA" + (if 4 <= groups <= 7 then "-" else "") + Capitals(groups - 1)
  }

  lemma CapitalGroup(hyphen: string, rest: string, groups: nat)
    requires groups > 0 && UuidGroups(rest, groups - 1).Some? && (rest == "" || rest[0] == 'A')
    requires hyphen == (if 4 <= groups <= 7 then "-" else "")
    ensures UuidGroups("AAAA" + hyphen + rest, groups).Some?
  {
    var s := "AAAA" + hyphen + rest;
    assert s[..4] == "AAAA" && HexGroup("AAAA");
    assert s[4..] == hyphen + rest;
    if hyphen == "-" {
      assert s[4] == '-' && s[5..] == rest;
    } else if rest != "" {
      assert s[4] == 'A';
    }
    assert AfterGroup(s, groups) == rest;
  }

  lemma {:induction false} CapitalsAreGroups(groups: nat)
    ensures UuidGroups(Capitals(groups), groups).Some?
    ensures Capitals(groups) == "" || Capitals(groups)[0] == 'A'
  {
    if groups > 0 {
      var rest := Capitals(groups - 1);
      CapitalsAreGroups(groups - 1);
      CapitalGroup(if 4 <= groups <= 7 then "-" else "", rest, groups);
    }
  }

  lemma {:induction false} CapitalsHaveNoNul(groups: nat)
    ensures '\0' !in Capitals(groups)
  {
    if groups > 0 {
      CapitalsHaveNoNul(groups - 1);
    }
  }

  /** A uuid in capitals, as uuid.Parse and the uuid column both accept it, is not read back as written. */
  lemma CapitalIdAccepted() returns (id: string)
    ensures UuidText(id).Some? && UuidText(id) != Some(id) && '\0' !in id
  {
    id := Capitals(8);
    CapitalsAreGroups(8);
    CapitalsHaveNoNul(8);
    UuidKeptIff(id);
    assert id[0] == 'A' && id[..4][0] == 'A';
  }

  /** The first n statements of a Log call. */
  function LogPrefix(e: Entry, now: int, id: string, n: nat): seq<Step>
    requires n <= 5
  {
    [Begin(0, Call(e, true, now)), Lock(0), Insert(0, id), Advance(0), Commit(0)][..n]
  }

  lemma {:induction false} RunThen(sys: Sys, db: Db, steps: seq<Step>, last: Step)
    ensures Run(sys, db, steps + [last]) == Next(sys, Run(sys, db, steps), last)
    decreases |steps|
  {
    if steps == [] {
      assert steps + [last] == [last];
    } else {
      assert (steps + [last])[0] == steps[0] && (steps + [last])[1..] == steps[1..] + [last];
      RunThen(sys, Next(sys, db, steps[0]), steps[1..], last);
    }
  }

  /** The tables between transactions. */
  function Quiet(rows: seq<Row>, head: ChainHead): Db {
    Db(rows, head, None, map[])
  }

  /** The row a Log call writes on top of the given head. */
  function LoggedEntry(sys: Sys, e: Entry, now: int, id: string, head: ChainHead): Entry {
    HashedEntry(sys, PrepareForLog(sys.net, e, now), head, id)
  }

  /** Where a Log call that nobody disturbs stands after n statements. */
  function LogProgress(sys: Sys, db: Db, e: Entry, now: int, id: string, n: nat): Db
    requires n <= 5
  {
    var w := LoggedEntry(sys, e, now, id, db.head);
    var stored := StoredAs(sys.inet, w);
    if n == 0 then db
    else if n == 1 then db.(txs := map[0 := Begun(Call(e, true, now))])
    else if n == 2 then db.(lock := Some(0), txs := map[0 := Locked(Call(e, true, now), db.head)])
    else if stored == None then db
    else if n == 3 then db.(lock := Some(0), txs := map[0 := Inserted(Row(Some(Call(e, true, now)), w, stored.value))])
    else if n == 4 then
      db.(lock := Some(0), txs := map[0 := Advanced(Row(Some(Call(e, true, now)), w, stored.value), ChainHead(w.seqNo, w.hashPrev))])
    else Quiet(db.rows + [Row(Some(Call(e, true, now)), w, stored.value)], ChainHead(w.seqNo, w.hashPrev))
  }

  lemma {:induction false} LogRunsTo(sys: Sys, db: Db, e: Entry, now: int, id: string, n: nat)
    requires n <= 5 && db == Quiet(db.rows, db.head)
    ensures Run(sys, db, LogPrefix(e, now, id, n)) == LogProgress(sys, db, e, now, id, n)
  {
    if n > 0 {
      var before := LogPrefix(e, now, id, n - 1);
      LogRunsTo(sys, db, e, now, id, n - 1);
      RunThen(sys, db, before, LogPrefix(e, now, id, n)[n - 1]);
      assert LogPrefix(e, now, id, n) == before + [LogPrefix(e, now, id, n)[n - 1]];
      LogStatement(sys, db, e, now, id, n);
    }
  }

  lemma LogStatement(sys: Sys, db: Db, e: Entry, now: int, id: string, n: nat)
    requires 0 < n <= 5 && db == Quiet(db.rows, db.head)
    ensures Next(sys, LogProgress(sys, db, e, now, id, n - 1), LogPrefix(e, now, id, n)[n - 1])
         == LogProgress(sys, db, e, now, id, n)
  {
    if n <= 2 {
      LogOpens(sys, db, e, now, id, n);
    } else {
      LogWrites(sys, db, e, now, id, n);
    }
  }

  lemma LogOpens(sys: Sys, db: Db, e: Entry, now: int, id: string, n: nat)
    requires 0 < n <= 2 && db == Quiet(db.rows, db.head)
    ensures Next(sys, LogProgress(sys, db, e, now, id, n - 1), if n == 1 then Begin(0, Call(e, true, now)) else Lock(0))
         == LogProgress(sys, db, e, now, id, n)
  {
    var next := Next(sys, LogProgress(sys, db, e, now, id, n - 1), if n == 1 then Begin(0, Call(e, true, now)) else Lock(0));
    assert next.txs == LogProgress(sys, db, e, now, id, n).txs;
  }

  lemma LogWrites(sys: Sys, db: Db, e: Entry, now: int, id: string, n: nat)
    requires 3 <= n <= 5 && db == Quiet(db.rows, db.head)
    ensures Next(sys, LogProgress(sys, db, e, now, id, n - 1), if n == 3 then Insert(0, id) else if n == 4 then Advance(0) else Commit(0))
         == LogProgress(sys, db, e, now, id, n)
  {
    var next := Next(sys, LogProgress(sys, db, e, now, id, n - 1),
                     if n == 3 then Insert(0, id) else if n == 4 then Advance(0) else Commit(0));
    assert next.txs == LogProgress(sys, db, e, now, id, n).txs;
  }

  /** A Log call cut off before its commit leaves nothing behind. */
  lemma CutLogLeavesNothing(sys: Sys, db: Db, e: Entry, now: int, id: string, n: nat)
    requires n <= 5 && db == Quiet(db.rows, db.head)
    ensures Run(sys, db, LogPrefix(e, now, id, n) + [Abort(0)]) == if n < 5 then db else LogProgress(sys, db, e, now, id, 5)
  {
    LogRunsTo(sys, db, e, now, id, n);
    RunThen(sys, db, LogPrefix(e, now, id, n), Abort(0));
    var end := Next(sys, LogProgress(sys, db, e, now, id, n), Abort(0));
    assert end.txs == map[];
  }

  datatype LogError = BeginFailed | LockFailed | WriteFailed | AdvanceFailed | CommitFailed

  /** The two tables, and the call that writes them. */
  class AuditStore {
    var rows: seq<Row>
    var head: ChainHead

    constructor ()
      ensures rows == [] && head == ChainHead(0, "")
    {
      rows, head := [], ChainHead(0, "");
    }

    /**
     Log, with the connection failing after the first n statements (5 when it does not), and
     the commit's answer perhaps lost on its way. The tables end as the same statements of the
     protocol leave them: success means the row is committed, and after a failure both tables
     are untouched unless it was the commit whose answer was lost.
     */
    method Log(sys: Sys, e: Entry, now: int, id: string, n: nat, answered: bool) returns (r: Result<Entry, LogError>)
      requires n <= 5
      modifies this
      ensures Quiet(rows, head) == Run(sys, Quiet(old(rows), old(head)), LogPrefix(e, now, id, n) + [Abort(0)])
      ensures r.Ok? <==> n == 5 && answered && StoredAs(sys.inet, LoggedEntry(sys, e, now, id, old(head))).Some?
      ensures r.Err? ==> (rows == old(rows) && head == old(head)) || (r.error == CommitFailed && n == 5 && !answered)
      ensures r.Ok? ==> r.value == LoggedEntry(sys, e, now, id, old(head))
      ensures r.Ok? ==> Records(r.value, e, now) && r.value.ipAddress == CanonicalIP(sys.net, e.ipAddress)
      ensures r.Ok? ==> r.value.id == id && r.value.seqNo == old(head).lastSeq + 1 && LinksV2(sys.env, r.value, old(head).lastHash)
      ensures r.Ok? || (r.error == CommitFailed && n == 5) ==>
        var w := LoggedEntry(sys, e, now, id, old(head));
        && StoredAs(sys.inet, w).Some?
        && rows == old(rows) + [Row(Some(Call(e, true, now)), w, StoredAs(sys.inet, w).value)]
        && head == ChainHead(w.seqNo, w.hashPrev)
    {
      CutLogLeavesNothing(sys, Quiet(rows, head), e, now, id, n);
      CallIsRecorded(sys, Call(e, true, now), head, id);
      var entry := PrepareForLog(sys.net, e, now);
      if n == 0 { return Err(BeginFailed); }
      var seen := head;
      if n == 1 { return Err(LockFailed); }
      var written := HashedEntry(sys, entry, seen, id);
      var stored := StoredAs(sys.inet, written);
      if n == 2 || stored == None { return Err(WriteFailed); }
      if n == 3 { return Err(AdvanceFailed); }
      if n == 4 { return Err(CommitFailed); }
      rows := rows + [Row(Some(Call(e, true, now)), written, stored.value)];
      head := ChainHead(written.seqNo, written.hashPrev);
      r := if answered then Ok(written) else Err(CommitFailed);
    }
  }

  /** The empty log. */
  const FRESH := Quiet([], ChainHead(0, ""))

  /** A single Log call on the empty log, if its row is taken and the call is not admissible, leaves a log that does not verify. */
  lemma InadmissibleBreaks(sys: Sys, e: Entry, now: int, id: string)
    requires sys.env.Valid() && InetSpec(sys.net, sys.inet) && !Admissible(sys, Call(e, true, now))
    requires StoredAs(sys.inet, LoggedEntry(sys, e, now, id, FRESH.head)).Some?
    ensures var rows := Run(sys, FRESH, LogPrefix(e, now, id, 5)).rows;
      && |rows| == 1
      && (CollisionFree(sys.env, HashInputs(sys.env, ReadBack(rows)) + HashInputs(sys.env, AsWritten(rows))) ==>
           !Verified(sys.env, ReadBack(rows)))
  {
    LogRunsTo(sys, FRESH, e, now, id, 5);
    var rows := Run(sys, FRESH, LogPrefix(e, now, id, 5)).rows;
    assert rows[0] in rows && !RowAdmissible(sys, rows[0]);
    if CollisionFree(sys.env, HashInputs(sys.env, ReadBack(rows)) + HashInputs(sys.env, AsWritten(rows))) {
      ReadBackVerifiesIff(sys, FRESH, LogPrefix(e, now, id, 5), 0);
    }
  }

  /**
   One call with an upper-case uuid is enough to make the log unverifiable: wherever the call
   would succeed without a resource id, it succeeds with this one, and its row does not link.
   */
  lemma CapitalIdBreaksChain(sys: Sys, e: Entry, now: int, id: string) returns (e': Entry)
    requires sys.env.Valid() && InetSpec(sys.net, sys.inet)
    requires StoredAs(sys.inet, LoggedEntry(sys, e.(resourceID := ""), now, id, FRESH.head)).Some?
    ensures e' == e.(resourceID := e'.resourceID)
    ensures var rows := Run(sys, FRESH, LogPrefix(e', now, id, 5)).rows;
      && |rows| == 1
      && (CollisionFree(sys.env, HashInputs(sys.env, ReadBack(rows)) + HashInputs(sys.env, AsWritten(rows))) ==>
           !Verified(sys.env, ReadBack(rows)))
  {
    var capitals := CapitalIdAccepted();
    e' := e.(resourceID := capitals);
    UuidKeptIff(capitals);
    DigestHasNoNul(sys, e', now, id);
    assert StoredAs(sys.inet, LoggedEntry(sys, e', now, id, FRESH.head)).Some?;
    InadmissibleBreaks(sys, e', now, id);
  }

  lemma DigestHasNoNul(sys: Sys, e: Entry, now: int, id: string)
    requires sys.env.Valid()
    ensures '\0' !in LoggedEntry(sys, e, now, id, FRESH.head).hashPrev
  {
    assert IsDigest(LoggedEntry(sys, e, now, id, FRESH.head).hashPrev);
  }

  /** So is one call from an address that inet shows as a dotted quad: it is accepted wherever the same call without an address is. */
  lemma DottedAddressBreaksChain(sys: Sys, e: Entry, now: int, id: string)
    requires sys.env.Valid() && InetSpec(sys.net, sys.inet)
    requires LoggedAddr(sys.net, e.ipAddress).Some? && ShownDotted(LoggedAddr(sys.net, e.ipAddress).value)
    requires StoredAs(sys.inet, LoggedEntry(sys, e.(ipAddress := ""), now, id, FRESH.head)).Some?
    ensures var rows := Run(sys, FRESH, LogPrefix(e, now, id, 5)).rows;
      && |rows| == 1
      && (CollisionFree(sys.env, HashInputs(sys.env, ReadBack(rows)) + HashInputs(sys.env, AsWritten(rows))) ==>
           !Verified(sys.env, ReadBack(rows)))
  {
    CanonicalIPKeptIff(sys.net, sys.inet, e.ipAddress);
    DigestHasNoNul(sys, e, now, id);
    assert StoredAs(sys.inet, LoggedEntry(sys, e, now, id, FRESH.head)).Some?;
    InadmissibleBreaks(sys, e, now, id);
  }
}
