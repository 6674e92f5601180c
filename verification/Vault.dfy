/**
 The vault: a row with a wrapped data key, and an encrypted value in object storage
 under the row's storage key. Together they are a map from secret ids to values.
 */
module Vault {
  import opened Base
  import opened Aes

  // ---- Storage keys -------------------------------------------------------------

  function StorageKey(owner: string, id: string): string {
    "secrets/" + owner + "/" + id
  }

  /** True of the text of every UUID. */
  predicate NoSlash(s: string) {
    '/' !in s
  }

  function BeforeSlash(s: string): string {
    if s == "" || s[0] == '/' then "" else [s[0]] + BeforeSlash(s[1..])
  }

  lemma {:induction false} BeforeFirstSlash(a: string, b: string)
    requires NoSlash(a)
    ensures BeforeSlash(a + "/" + b) == a
  {
    if a != "" {
      assert (a + "/" + b)[1..] == a[1..] + "/" + b;
      BeforeFirstSlash(a[1..], b);
    }
  }

  /** Different secrets have different storage keys. */
  lemma StorageKeysDiffer(owner: string, id: string, owner': string, id': string)
    requires NoSlash(owner) && NoSlash(owner') && StorageKey(owner, id) == StorageKey(owner', id')
    ensures owner == owner' && id == id'
  {
    var key := StorageKey(owner, id);
    assert key[8..] == owner + "/" + id;
    assert StorageKey(owner', id')[8..] == owner' + "/" + id';
    BeforeFirstSlash(owner, id);
    BeforeFirstSlash(owner', id');
    assert (owner + "/" + id)[|owner| + 1..] == id && (owner' + "/" + id')[|owner'| + 1..] == id';
  }

  // ---- Envelopes ----------------------------------------------------------------

  /** One write of a value: a fresh data key and two fresh nonces. */
  datatype Write = Write(value: Bytes, dek: Bytes, sealNonce: Bytes, wrapNonce: Bytes)

  predicate Sized(w: Write) {
    |w.dek| == KEY_SIZE && |w.sealNonce| == NONCE_SIZE && |w.wrapNonce| == NONCE_SIZE
  }

  function Sealed(g: Gcm, w: Write): Bytes
    requires Sized(w)
  {
    Encrypt(g, w.dek, w.sealNonce, w.value).value
  }

  function Wrapped(g: Gcm, master: Bytes, w: Write): Bytes
    requires Sized(w) && |master| == KEY_SIZE
  {
    Encrypt(g, master, w.wrapNonce, w.dek).value
  }

  /** Seals a value under the key in a buffer, wraps the key, and leaves the buffer zeroed. */
  method SealEnvelope(g: Gcm, master: Bytes, w: Write, rawDek: array<bv8>) returns (blob: Bytes, wrapped: Bytes)
    requires Sized(w) && |master| == KEY_SIZE && rawDek[..] == w.dek
    modifies rawDek
    ensures blob == Sealed(g, w) && wrapped == Wrapped(g, master, w)
    ensures forall i :: 0 <= i < rawDek.Length ==> rawDek[i] == 0
  {
    blob := Encrypt(g, rawDek[..], w.sealNonce, w.value).value;
    wrapped := Encrypt(g, master, w.wrapNonce, rawDek[..]).value;
    for i := 0 to rawDek.Length
      invariant forall k :: 0 <= k < i ==> rawDek[k] == 0
    {
      rawDek[i] := 0;
    }
  }

  /** What credential delivery makes of a wrapped key and a blob. */
  function Opened(g: Gcm, master: Bytes, wrapped: Bytes, blob: Bytes): Option<Bytes> {
    if |wrapped| == 0 then None
    else match Decrypt(g, master, wrapped)
      case Err(_) => None
      case Ok(dek) =>
        match Decrypt(g, dek, blob)
        case Err(_) => None
        case Ok(value) => Some(value)
  }

  /** A key and a blob open to what the blob's write put in, if both are of one write; otherwise the blob is tried with another write's key. */
  lemma OpensTo(g: Gcm, master: Bytes, keyOf: Write, blobOf: Write)
    requires g.Valid() && |master| == KEY_SIZE && Sized(keyOf) && Sized(blobOf)
    ensures Opened(g, master, Wrapped(g, master, keyOf), Sealed(g, blobOf)) ==
      if Decrypt(g, keyOf.dek, Sealed(g, blobOf)).Ok? then Some(Decrypt(g, keyOf.dek, Sealed(g, blobOf)).value) else None
    ensures keyOf.dek == blobOf.dek ==> Opened(g, master, Wrapped(g, master, keyOf), Sealed(g, blobOf)) == Some(blobOf.value)
  {
    RoundTrip(g, master, keyOf.wrapNonce, keyOf.dek);
    RoundTrip(g, blobOf.dek, blobOf.sealNonce, blobOf.value);
  }

  // ---- The store ------------------------------------------------------------------

  datatype Row = Row(owner: string, name: string, storageKey: string, wrapped: Bytes, version: nat, deleted: bool)

  function NewRow(g: Gcm, master: Bytes, owner: string, id: string, name: string, w: Write): Row
    requires |master| == KEY_SIZE && Sized(w)
  {
    Row(owner, name, StorageKey(owner, id), Wrapped(g, master, w), 1, false)
  }

  /** SET name = ..., encrypted_dek = ..., version = version + 1 */
  function Updated(row: Row, name: string, wrapped: Bytes): Row {
    row.(name := name, wrapped := wrapped, version := row.version + 1)
  }

  /** What became of a Put: it may fail before or after the blob was stored. */
  datatype PutResult = PutOk | PutLost | PutStoredButFailed

  /** A live secret's value, as credential delivery reads it. */
  function Value(g: Gcm, master: Bytes, rows: map<string, Row>, blobs: map<string, Bytes>, id: string): Option<Bytes> {
    if id !in rows || rows[id].deleted || rows[id].storageKey !in blobs then None
    else Opened(g, master, rows[id].wrapped, blobs[rows[id].storageKey])
  }

  ghost predicate RowsOk(rows: map<string, Row>) {
    forall id :: id in rows ==> NoSlash(id) && NoSlash(rows[id].owner) && rows[id].storageKey == StorageKey(rows[id].owner, id)
  }

  /** Writing under one secret's storage key leaves every other secret's value alone. */
  lemma OthersKeepValue(g: Gcm, master: Bytes, rows: map<string, Row>, blobs: map<string, Bytes>, owner: string, id: string, row: Row, blob: Bytes, other: string)
    requires RowsOk(rows) && NoSlash(owner) && other != id
    ensures Value(g, master, rows, blobs[StorageKey(owner, id) := blob], other) == Value(g, master, rows, blobs, other)
    ensures Value(g, master, rows[id := row], blobs[StorageKey(owner, id) := blob], other) == Value(g, master, rows, blobs, other)
    ensures Value(g, master, rows[id := row], blobs, other) == Value(g, master, rows, blobs, other)
  {
    if other in rows && rows[other].storageKey == StorageKey(owner, id) {
      StorageKeysDiffer(owner, id, rows[other].owner, other);
    }
  }

  /** The secrets that can be read, with their values. */
  ghost function Readable(g: Gcm, master: Bytes, rows: map<string, Row>, blobs: map<string, Bytes>): map<string, Bytes> {
    map id | id in rows && Value(g, master, rows, blobs, id).Some? :: Value(g, master, rows, blobs, id).value
  }

  lemma OneEntry(now: map<string, Bytes>, before: map<string, Bytes>, id: string)
    requires forall other :: other != id ==> (other in now.Keys <==> other in before.Keys)
    requires forall other :: other != id && other in now ==> now[other] == before[other]
    ensures id in now ==> now == before[id := now[id]]
    ensures id !in now ==> now == before - {id}
  {
  }

  /** When no other secret's value changes, the map changes at one id. */
  lemma OneValue(g: Gcm, master: Bytes, rows': map<string, Row>, blobs': map<string, Bytes>,
                 rows: map<string, Row>, blobs: map<string, Bytes>, id: string)
    requires forall other :: other != id ==> Value(g, master, rows', blobs', other) == Value(g, master, rows, blobs, other)
    ensures Readable(g, master, rows', blobs') ==
      match Value(g, master, rows', blobs', id)
      case Some(value) => Readable(g, master, rows, blobs)[id := value]
      case None => Readable(g, master, rows, blobs) - {id}
  {
    var now, before := Readable(g, master, rows', blobs'), Readable(g, master, rows, blobs);
    forall other | other != id ensures other in now.Keys <==> other in before.Keys {
    }
    forall other | other != id && other in now ensures now[other] == before[other] {
    }
    OneEntry(now, before, id);
  }

  /** A row and a blob that open to a value put that value in the map, and nothing else. */
  lemma WriteAdds(g: Gcm, master: Bytes, rows: map<string, Row>, blobs: map<string, Bytes>, id: string, row: Row, w: Write)
    requires g.Valid() && |master| == KEY_SIZE && RowsOk(rows) && NoSlash(row.owner) && Sized(w)
    requires row.storageKey == StorageKey(row.owner, id) && row.wrapped == Wrapped(g, master, w) && !row.deleted
    ensures Readable(g, master, rows[id := row], blobs[row.storageKey := Sealed(g, w)]) == Readable(g, master, rows, blobs)[id := w.value]
  {
    var rows', blobs' := rows[id := row], blobs[row.storageKey := Sealed(g, w)];
    assert Value(g, master, rows', blobs', id) == Some(w.value) by {
      OpensTo(g, master, w, w);
    }
    forall other | other != id ensures Value(g, master, rows', blobs', other) == Value(g, master, rows, blobs, other) {
      OthersKeepValue(g, master, rows, blobs, row.owner, id, row, Sealed(g, w), other);
    }
    OneValue(g, master, rows', blobs', rows, blobs, id);
  }

  /** A blob without a row is not seen. */
  lemma OrphanUnseen(g: Gcm, master: Bytes, rows: map<string, Row>, blobs: map<string, Bytes>, owner: string, id: string, blob: Bytes)
    requires RowsOk(rows) && NoSlash(owner) && id !in rows
    ensures Readable(g, master, rows, blobs[StorageKey(owner, id) := blob]) == Readable(g, master, rows, blobs)
  {
    forall other | other in rows
      ensures Value(g, master, rows, blobs[StorageKey(owner, id) := blob], other) == Value(g, master, rows, blobs, other)
    {
      OthersKeepValue(g, master, rows, blobs, owner, id, rows[other], blob, other);
    }
  }

  /** A change of one row leaves the other secrets alone. */
  lemma RowChange(g: Gcm, master: Bytes, rows: map<string, Row>, blobs: map<string, Bytes>, id: string, row: Row)
    ensures Readable(g, master, rows[id := row], blobs) ==
      match Value(g, master, rows[id := row], blobs, id)
      case Some(value) => Readable(g, master, rows, blobs)[id := value]
      case None => Readable(g, master, rows, blobs) - {id}
  {
    forall other | other != id ensures Value(g, master, rows[id := row], blobs, other) == Value(g, master, rows, blobs, other) {
    }
    OneValue(g, master, rows[id := row], blobs, rows, blobs, id);
  }

  /** What a write's key makes of the blob that is there. */
  function Reopened(g: Gcm, w: Write, blobs: map<string, Bytes>, key: string): Option<Bytes>
    requires Sized(w)
  {
    if key !in blobs then None
    else match Decrypt(g, w.dek, blobs[key])
      case Err(_) => None
      case Ok(value) => Some(value)
  }

  /** A new key over an old blob: the secret reads as what the key makes of it, or leaves the map. */
  lemma KeyReplaced(g: Gcm, master: Bytes, rows: map<string, Row>, blobs: map<string, Bytes>, id: string, row: Row, w: Write)
    requires g.Valid() && |master| == KEY_SIZE && Sized(w) && row.wrapped == Wrapped(g, master, w) && !row.deleted
    ensures var read := Reopened(g, w, blobs, row.storageKey);
      Readable(g, master, rows[id := row], blobs)
      == if read.Some? then Readable(g, master, rows, blobs)[id := read.value] else Readable(g, master, rows, blobs) - {id}
  {
    RoundTrip(g, master, w.wrapNonce, w.dek);
    assert Value(g, master, rows[id := row], blobs, id) == Reopened(g, w, blobs, row.storageKey);
    RowChange(g, master, rows, blobs, id, row);
  }

  /** A change of other columns than key, storage key and deletion is not seen in the values. */
  lemma OtherColumns(g: Gcm, master: Bytes, rows: map<string, Row>, blobs: map<string, Bytes>, id: string, row: Row)
    requires id in rows && row.wrapped == rows[id].wrapped && row.storageKey == rows[id].storageKey && row.deleted == rows[id].deleted
    ensures Readable(g, master, rows[id := row], blobs) == Readable(g, master, rows, blobs)
  {
    forall other ensures Value(g, master, rows[id := row], blobs, other) == Value(g, master, rows, blobs, other) {
    }
  }

  // ---- Statements of many handlers --------------------------------------------------

  datatype Store = Store(rows: map<string, Row>, blobs: map<string, Bytes>)

  /** What creations, updates and deletions of any secrets do to the store, one statement at a time; a creation's row appears at its commit. */
  datatype Statement =
    | AddRow(owner: string, id: string, name: string, w: Write)
    | SetKey(owner: string, id: string, name: string, w: Write)
    | PutBlob(owner: string, id: string, w: Write)
    | SetName(owner: string, id: string, name: string)
    | SetDeleted(owner: string, id: string)

  predicate Proper(st: Statement) {
    st.AddRow? || st.SetKey? || st.PutBlob? ==> Sized(st.w)
  }

  predicate Owns(rows: map<string, Row>, owner: string, id: string) {
    id in rows && rows[id].owner == owner && !rows[id].deleted
  }

  function Do(g: Gcm, master: Bytes, s: Store, st: Statement): Store
    requires |master| == KEY_SIZE && Proper(st)
  {
    match st
    case AddRow(owner, id, name, w) =>
      if id in s.rows then s else s.(rows := s.rows[id := NewRow(g, master, owner, id, name, w)])
    case SetKey(owner, id, name, w) =>
      if Owns(s.rows, owner, id) then s.(rows := s.rows[id := Updated(s.rows[id], name, Wrapped(g, master, w))]) else s
    case PutBlob(owner, id, w) =>
      s.(blobs := s.blobs[StorageKey(owner, id) := Sealed(g, w)])
    case SetName(owner, id, name) =>
      if Owns(s.rows, owner, id) then s.(rows := s.rows[id := Updated(s.rows[id], name, s.rows[id].wrapped)]) else s
    case SetDeleted(owner, id) =>
      if Owns(s.rows, owner, id) then s.(rows := s.rows[id := s.rows[id].(deleted := true)]) else s
  }

  function Run(g: Gcm, master: Bytes, s: Store, steps: seq<Statement>): Store
    requires |master| == KEY_SIZE && forall st :: st in steps ==> Proper(st)
  {
    if steps == [] then s
    else Do(g, master, Run(g, master, s, steps[..|steps| - 1]), steps[|steps| - 1])
  }

  /** The write that last set the secret's key, or the one it began with. */
  function LastKey(steps: seq<Statement>, owner: string, id: string, first: Write): Write {
    if steps == [] then first
    else
      var st := steps[|steps| - 1];
      if st.SetKey? && st.owner == owner && st.id == id then st.w
      else LastKey(steps[..|steps| - 1], owner, id, first)
  }

  /** The write that last put the secret's blob, or the one it began with. */
  function LastBlob(steps: seq<Statement>, owner: string, id: string, first: Write): Write {
    if steps == [] then first
    else
      var st := steps[|steps| - 1];
      if st.PutBlob? && st.owner == owner && st.id == id then st.w
      else LastBlob(steps[..|steps| - 1], owner, id, first)
  }

  /** The secret's blob, and while it lives its key, are those of the given writes. */
  ghost predicate Holds(g: Gcm, master: Bytes, s: Store, owner: string, id: string, keyOf: Write, blobOf: Write)
    requires |master| == KEY_SIZE && Sized(keyOf) && Sized(blobOf)
  {
    && RowsOk(s.rows) && id in s.rows && s.rows[id].owner == owner
    && s.rows[id].storageKey in s.blobs && s.blobs[s.rows[id].storageKey] == Sealed(g, blobOf)
    && (!s.rows[id].deleted ==> s.rows[id].wrapped == Wrapped(g, master, keyOf))
  }

  lemma DoHolds(g: Gcm, master: Bytes, s: Store, st: Statement, owner: string, id: string, keyOf: Write, blobOf: Write)
    requires |master| == KEY_SIZE && Proper(st) && NoSlash(st.owner) && NoSlash(st.id) && Sized(keyOf) && Sized(blobOf) && Holds(g, master, s, owner, id, keyOf, blobOf)
    ensures var mine := st.owner == owner && st.id == id;
      Holds(g, master, Do(g, master, s, st), owner, id,
            if mine && st.SetKey? then st.w else keyOf, if mine && st.PutBlob? then st.w else blobOf)
  {
    if st.PutBlob? && StorageKey(st.owner, st.id) == StorageKey(owner, id) {
      StorageKeysDiffer(st.owner, st.id, owner, id);
    }
  }

  lemma {:induction false} RunHolds(g: Gcm, master: Bytes, s: Store, steps: seq<Statement>, owner: string, id: string, first: Write)
    requires |master| == KEY_SIZE && (forall st :: st in steps ==> Proper(st) && NoSlash(st.owner) && NoSlash(st.id)) && Sized(first)
    requires Holds(g, master, s, owner, id, first, first)
    ensures Sized(LastKey(steps, owner, id, first)) && Sized(LastBlob(steps, owner, id, first))
    ensures Holds(g, master, Run(g, master, s, steps), owner, id, LastKey(steps, owner, id, first), LastBlob(steps, owner, id, first))
  {
    if steps != [] {
      var init := steps[..|steps| - 1];
      RunHolds(g, master, s, init, owner, id, first);
      DoHolds(g, master, Run(g, master, s, init), steps[|steps| - 1], owner, id,
              LastKey(init, owner, id, first), LastBlob(init, owner, id, first));
    }
  }

  // ---- Names -----------------------------------------------------------------------

  datatype Label = Label(owner: string, name: string, version: int)

  /** The reference: a secret is called what the row that made it said, and then what each later update by its owner said, which counts its version on. */
  function Called(steps: seq<Statement>, id: string, first: Option<Label>): Option<Label> {
    if steps == [] then first
    else
      var before, st := Called(steps[..|steps| - 1], id, first), steps[|steps| - 1];
      if st.id != id then before
      else if st.AddRow? && before.None? then Some(Label(st.owner, st.name, 1))
      else if (st.SetKey? || st.SetName?) && before.Some? && before.value.owner == st.owner
      then Some(Label(st.owner, st.name, before.value.version + 1))
      else before
  }

  /** The row has the label; a deleted one has only its owner. */
  predicate Labelled(rows: map<string, Row>, id: string, called: Option<Label>) {
    && (id in rows <==> called.Some?)
    && (id in rows ==> rows[id].owner == called.value.owner)
    && (id in rows && !rows[id].deleted ==> rows[id].name == called.value.name && rows[id].version == called.value.version)
  }

  /** After any run a living secret has the name and the version its updates gave it. */
  lemma {:induction false} NameIsLastSet(g: Gcm, master: Bytes, s: Store, steps: seq<Statement>, id: string, first: Option<Label>)
    requires |master| == KEY_SIZE && (forall st :: st in steps ==> Proper(st)) && Labelled(s.rows, id, first)
    ensures Labelled(Run(g, master, s, steps).rows, id, Called(steps, id, first))
  {
    if steps != [] {
      var before, st := steps[..|steps| - 1], steps[|steps| - 1];
      NameIsLastSet(g, master, s, before, id, first);
      StepLabels(g, master, Run(g, master, s, before), st, id, Called(before, id, first));
      assert Called(steps, id, first) == Called([st], id, Called(before, id, first)) by {
        assert [st][..0] == [];
      }
    }
  }

  lemma StepLabels(g: Gcm, master: Bytes, s: Store, st: Statement, id: string, called: Option<Label>)
    requires |master| == KEY_SIZE && Proper(st) && Labelled(s.rows, id, called)
    ensures Labelled(Do(g, master, s, st).rows, id, Called([st], id, called))
  {
    assert [st][..0] == [];
  }

  /** No data key opens a value sealed under another. */
  ghost predicate KeysApart(g: Gcm, v: Write, w: Write)
    requires Sized(v) && Sized(w)
  {
    v.dek != w.dek ==> Decrypt(g, v.dek, Sealed(g, w)).Err?
  }

  /**
   However the statements of any number of creations, updates and deletions of any secrets interleave,
   and whichever Puts are lost, a secret that still lives reads as the value last put if its
   key was last set by that write, and is unreadable if it was not.
   */
  lemma ReadableIffSameWrite(g: Gcm, master: Bytes, s: Store, steps: seq<Statement>, owner: string, id: string, first: Write)
    requires g.Valid() && |master| == KEY_SIZE && (forall st :: st in steps ==> Proper(st) && NoSlash(st.owner) && NoSlash(st.id)) && Sized(first)
    requires Holds(g, master, s, owner, id, first, first)
    requires Sized(LastKey(steps, owner, id, first)) && Sized(LastBlob(steps, owner, id, first))
    requires KeysApart(g, LastKey(steps, owner, id, first), LastBlob(steps, owner, id, first))
    ensures var n := Run(g, master, s, steps);
      Value(g, master, n.rows, n.blobs, id)
      == if !Owns(n.rows, owner, id) || LastKey(steps, owner, id, first).dek != LastBlob(steps, owner, id, first).dek then None
         else Some(LastBlob(steps, owner, id, first).value)
  {
    RunHolds(g, master, s, steps, owner, id, first);
    OpensTo(g, master, LastKey(steps, owner, id, first), LastBlob(steps, owner, id, first));
  }

  /** A delivery reads the row after n steps and the blob after m. */
  function Delivered(g: Gcm, master: Bytes, s: Store, steps: seq<Statement>, n: nat, m: nat, id: string): Option<Bytes>
    requires |master| == KEY_SIZE && (forall st :: st in steps ==> Proper(st)) && n <= m <= |steps|
  {
    var row, blobs := Run(g, master, s, steps[..n]).rows, Run(g, master, s, steps[..m]).blobs;
    if id !in row || row[id].deleted || row[id].storageKey !in blobs then None
    else Opened(g, master, row[id].wrapped, blobs[row[id].storageKey])
  }

  /**
   A delivery that overlaps updates gives the value last put before it reads the blob, if that
   write also set the last key before it read the row; otherwise it gives nothing.
   */
  lemma DeliveryOpensIff(g: Gcm, master: Bytes, s: Store, steps: seq<Statement>, n: nat, m: nat, owner: string, id: string, first: Write)
    requires g.Valid() && |master| == KEY_SIZE && (forall st :: st in steps ==> Proper(st) && NoSlash(st.owner) && NoSlash(st.id))
    requires Sized(first) && Holds(g, master, s, owner, id, first, first) && n <= m <= |steps|
    requires Sized(LastKey(steps[..n], owner, id, first)) && Sized(LastBlob(steps[..m], owner, id, first))
    requires KeysApart(g, LastKey(steps[..n], owner, id, first), LastBlob(steps[..m], owner, id, first))
    ensures var keyOf, blobOf := LastKey(steps[..n], owner, id, first), LastBlob(steps[..m], owner, id, first);
      Delivered(g, master, s, steps, n, m, id)
      == if !Owns(Run(g, master, s, steps[..n]).rows, owner, id) || keyOf.dek != blobOf.dek then None else Some(blobOf.value)
  {
    RunHolds(g, master, s, steps[..n], owner, id, first);
    RunHolds(g, master, s, steps[..m], owner, id, first);
    OpensTo(g, master, LastKey(steps[..n], owner, id, first), LastBlob(steps[..m], owner, id, first));
  }

  /** So a delivery with a whole update between its two reads fails, though the secret is readable before and after. */
  lemma UpdateBetweenReads(g: Gcm, master: Bytes, s: Store, owner: string, id: string, name: string, first: Write, second: Write)
    requires g.Valid() && |master| == KEY_SIZE && NoSlash(owner) && NoSlash(id) && Sized(first) && Sized(second)
    requires Holds(g, master, s, owner, id, first, first) && Owns(s.rows, owner, id)
    requires first.dek != second.dek && KeysApart(g, first, second)
    ensures var steps := [SetKey(owner, id, name, second), PutBlob(owner, id, second)];
      && Delivered(g, master, s, steps, 0, 2, id) == None
      && Delivered(g, master, s, steps, 0, 0, id) == Some(first.value) && Delivered(g, master, s, steps, 2, 2, id) == Some(second.value)
  {
    var key, put := SetKey(owner, id, name, second), PutBlob(owner, id, second);
    var steps := [key, put];
    assert steps[..2] == steps && steps[..0] == [] && steps[..1] == [key] && [key][..0] == [];
    assert LastKey([key], owner, id, first) == second && LastKey(steps, owner, id, first) == second;
    assert LastBlob(steps, owner, id, first) == second;
    DeliveryOpensIff(g, master, s, steps, 0, 2, owner, id, first);
    DeliveryOpensIff(g, master, s, steps, 0, 0, owner, id, first);
    DeliveryOpensIff(g, master, s, steps, 2, 2, owner, id, first);
    SetKeyRun(g, master, s, owner, id, name, second);
  }

  /** One Put that is lost after the key was replaced makes the secret unreadable until it is next written. */
  lemma FailedPutStrands(g: Gcm, master: Bytes, s: Store, owner: string, id: string, name: string, first: Write, second: Write)
    requires g.Valid() && |master| == KEY_SIZE && NoSlash(owner) && NoSlash(id) && Sized(first) && Sized(second)
    requires Holds(g, master, s, owner, id, first, first)
    requires first.dek != second.dek && KeysApart(g, second, first)
    ensures var n := Run(g, master, s, [SetKey(owner, id, name, second)]); Value(g, master, n.rows, n.blobs, id) == None
  {
    var steps := [SetKey(owner, id, name, second)];
    assert steps[..0] == [];
    ReadableIffSameWrite(g, master, s, steps, owner, id, first);
  }

  lemma PutThenAdd(g: Gcm, master: Bytes, s: Store, owner: string, id: string, name: string, w: Write)
    requires |master| == KEY_SIZE && Sized(w) && id !in s.rows
    ensures var n := s.(blobs := s.blobs[StorageKey(owner, id) := Sealed(g, w)]);
      && Run(g, master, s, [PutBlob(owner, id, w)] + []) == n
      && Run(g, master, s, [PutBlob(owner, id, w)] + [AddRow(owner, id, name, w)])
         == n.(rows := n.rows[id := NewRow(g, master, owner, id, name, w)])
  {
    var one, two := [PutBlob(owner, id, w)], [PutBlob(owner, id, w)] + [AddRow(owner, id, name, w)];
    assert one + [] == one && one[..0] == [] && two[..1] == one;
  }

  lemma SetKeyRun(g: Gcm, master: Bytes, s: Store, owner: string, id: string, name: string, w: Write)
    requires |master| == KEY_SIZE && Sized(w) && Owns(s.rows, owner, id)
    ensures var n := s.(rows := s.rows[id := Updated(s.rows[id], name, Wrapped(g, master, w))]);
      && Run(g, master, s, [SetKey(owner, id, name, w)]) == n
      && Run(g, master, s, [SetKey(owner, id, name, w), PutBlob(owner, id, w)])
         == n.(blobs := n.blobs[StorageKey(owner, id) := Sealed(g, w)])
  {
    var one, two := [SetKey(owner, id, name, w)], [SetKey(owner, id, name, w), PutBlob(owner, id, w)];
    assert one[..0] == [] && two[..1] == one;
  }

  /** One row has a new name and the next version; its owner, storage key and deletion stay, and so does every other row. */
  predicate Relabelled(before: map<string, Row>, after: map<string, Row>, id: string, name: string) {
    && after.Keys == before.Keys && id in after
    && after[id].name == name && after[id].version == before[id].version + 1
    && after[id].owner == before[id].owner && after[id].storageKey == before[id].storageKey && after[id].deleted == before[id].deleted
    && forall other :: other in before && other != id ==> after[other] == before[other]
  }

  class VaultStore {
    const g: Gcm
    const master: Bytes
    var rows: map<string, Row>
    var blobs: map<string, Bytes>

    ghost predicate Valid()
      reads this
    {
      g.Valid() && |master| == KEY_SIZE && RowsOk(rows)
    }

    ghost function Contents(): map<string, Bytes>
      reads this
    {
      Readable(g, master, rows, blobs)
    }

    function Now(): Store
      reads this
    {
      Store(rows, blobs)
    }

    predicate Owned(owner: string, id: string)
      reads this
    {
      Owns(rows, owner, id)
    }

    constructor (g: Gcm, master: Bytes)
      requires g.Valid() && |master| == KEY_SIZE
      ensures Valid() && Contents() == map[] && rows == map[]
    {
      this.g, this.master, rows, blobs := g, master, map[], map[];
    }

    /** A create that fails leaves no row and every secret as it was, unless it was the commit's answer that was lost. */
    method CreateSecret(owner: string, id: string, name: string, w: Write, put: PutResult, commit: Commit) returns (ok: bool)
      requires Valid() && Sized(w) && NoSlash(owner) && NoSlash(id) && id !in rows
      modifies this
      ensures Valid() && ok == (put == PutOk && commit.Done?)
      ensures var added := put == PutOk && !commit.Lost?;
        && Contents() == (if added then old(Contents())[id := w.value] else old(Contents()))
        && Now() == Run(g, master, old(Now()),
                        (if put == PutLost then [] else [PutBlob(owner, id, w)]) + if added then [AddRow(owner, id, name, w)] else [])
        && (if added then
              rows.Keys == old(rows).Keys + {id} && rows[id].owner == owner && rows[id].name == name && rows[id].version == 1
              && !rows[id].deleted && rows[id].storageKey == "secrets/" + owner + "/" + id
              && forall other :: other in old(rows) ==> rows[other] == old(rows)[other]
            else rows == old(rows))
    {
      ghost var was := Now();
      var before := rows;
      var row := Row(owner, name, StorageKey(owner, "tmp"), Wrapped(g, master, w), 1, false);
      rows := rows[id := row];
      row := row.(storageKey := StorageKey(owner, id));
      rows := rows[id := row];
      OrphanUnseen(g, master, before, blobs, owner, id, Sealed(g, w));
      WriteAdds(g, master, before, blobs, id, row, w);
      PutThenAdd(g, master, was, owner, id, name, w);
      assert rows == before[id := row];
      if put != PutLost {
        blobs := blobs[StorageKey(owner, id) := Sealed(g, w)];
      }
      ok := put == PutOk && commit.Done?;
      if put != PutOk || commit.Lost? {
        rows := before;
      }
    }

    /** Without a new value an update renames and keeps the value. */
    method RenameSecret(owner: string, id: string, name: string) returns (ok: bool)
      requires Valid()
      modifies this
      ensures Valid() && ok == old(id in rows && rows[id].owner == owner && !rows[id].deleted)
      ensures Contents() == old(Contents()) && blobs == old(blobs)
      ensures if ok then Relabelled(old(rows), rows, id, name) && rows[id].wrapped == old(rows)[id].wrapped else rows == old(rows)
      ensures Now() == Run(g, master, old(Now()), [SetName(owner, id, name)])
    {
      ok := Owned(owner, id);
      if ok {
        var row := Updated(rows[id], name, rows[id].wrapped);
        OtherColumns(g, master, rows, blobs, id, row);
        rows := rows[id := row];
      }
    }

    /**
     With a new value: the key's statement, then the Put's. Stored, the value is the new one;
     lost, the secret reads as whatever the new key makes of the old blob. No other secret's value changes.
     */
    method UpdateSecret(owner: string, id: string, name: string, w: Write, put: PutResult) returns (ok: bool)
      requires Valid() && Sized(w)
      modifies this
      ensures Valid() && ok == (old(id in rows && rows[id].owner == owner && !rows[id].deleted) && put == PutOk)
      ensures old(Owned(owner, id)) == old(id in rows && rows[id].owner == owner && !rows[id].deleted)
      ensures if old(Owned(owner, id)) then Relabelled(old(rows), rows, id, name) else Now() == old(Now())
      ensures old(Owned(owner, id)) ==>
        Now() == Run(g, master, old(Now()),
                     [SetKey(owner, id, name, w)] + if put == PutLost then [] else [PutBlob(owner, id, w)])
      ensures old(Owned(owner, id)) ==>
        Contents() ==
        if put != PutLost then old(Contents())[id := w.value]
        else
          var read := Reopened(g, w, old(blobs), StorageKey(owner, id));
          if read.Some? then old(Contents())[id := read.value] else old(Contents()) - {id}
    {
      if !Owned(owner, id) {
        return false;
      }
      var row := Updated(rows[id], name, Wrapped(g, master, w));
      ghost var before := Now();
      WriteAdds(g, master, rows, blobs, id, row, w);
      KeyReplaced(g, master, rows, blobs, id, row, w);
      rows := rows[id := row];
      SetKeyRun(g, master, before, owner, id, name, w);
      if put != PutLost {
        blobs := blobs[row.storageKey := Sealed(g, w)];
      }
      ok := put == PutOk;
    }

    method DeleteSecret(owner: string, id: string) returns (ok: bool)
      requires Valid()
      modifies this
      ensures Valid() && ok == old(id in rows && rows[id].owner == owner && !rows[id].deleted) && blobs == old(blobs)
      ensures rows.Keys == old(rows).Keys && forall other :: other in rows && (other != id || !ok) ==> rows[other] == old(rows)[other]
      ensures ok ==> rows[id].deleted
      ensures Contents() == if ok then old(Contents()) - {id} else old(Contents())
      ensures Now() == Run(g, master, old(Now()), [SetDeleted(owner, id)])
    {
      ok := Owned(owner, id);
      if ok {
        var row := rows[id].(deleted := true);
        RowChange(g, master, rows, blobs, id, row);
        assert Value(g, master, rows[id := row], blobs, id) == None;
        rows := rows[id := row];
      }
    }

    method GetValue(id: string) returns (value: Option<Bytes>)
      requires Valid()
      ensures value == if id in Contents() then Some(Contents()[id]) else None
    {
      if id !in rows || rows[id].deleted || rows[id].storageKey !in blobs {
        return None;
      }
      value := Opened(g, master, rows[id].wrapped, blobs[rows[id].storageKey]);
    }
  }
}
