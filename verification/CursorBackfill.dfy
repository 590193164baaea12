/** The title-hash backfill: a primary-key cursor walks the rows without a hash in batches, each batch its own
 *  transaction, while the application keeps inserting rows that have theirs.
 *
 * Ids appear as their ranks in the key order; rank 0 is the empty string, where the cursor starts. The digest of a
 * row is an arbitrary function, and the empty string for a title that normalises to nothing.
 */
module CursorBackfill {
  import opened Options
  import opened Ordering

  type Id = nat

  datatype Row = Row(content: nat, hash: Option<string>)

  type Rows = map<Id, Row>

  function Pending(rows: Rows, after: Id): set<Id> { set id | id in rows && rows[id].hash == None && id > after }

  /** What the whole backfill means for one row. */
  function Hashed(id: Id, row: Row, digest: Row -> string): Row {
    if row.hash == None && id != 0 && digest(row) != "" then row.(hash := Some(digest(row))) else row
  }

  /** The old rows up to the cursor are hashed, those behind it are as they were; what is new came with a hash. */
  ghost predicate Reached(before: Rows, rows: Rows, digest: Row -> string, cursor: Id) {
    && (forall id | id in before ::
      id in rows && rows[id] == if id <= cursor then Hashed(id, before[id], digest) else before[id])
    && (forall id | id in rows && id !in before :: rows[id].hash.Some?)
  }

  /** The whole table is done: the map of `Hashed` over the old rows, and the new rows as they came. */
  ghost predicate Finished(before: Rows, rows: Rows, digest: Row -> string) {
    && (forall id | id in before :: id in rows && rows[id] == Hashed(id, before[id], digest))
    && (forall id | id in rows && id !in before :: rows[id].hash.Some?)
  }

  predicate Increasing(s: seq<Id>) { forall i, j | 0 <= i < j < |s| :: s[i] < s[j] }

  function CountNonEmpty(s: seq<Id>, rows: Rows, digest: Row -> string): nat {
    if s == [] then 0
    else
      CountNonEmpty(s[..|s| - 1], rows, digest) +
      (if s[|s| - 1] in rows && digest(rows[s[|s| - 1]]) != "" then 1 else 0)
  }

  /** The digest is a function of the title and its owner, not of the hash column. */
  ghost predicate IgnoresHash(digest: Row -> string) { forall row: Row, h :: digest(row.(hash := h)) == digest(row) }

  /** Going on from where earlier attempts stopped: together they have come as far as the further one. */
  lemma AttemptsCompose(start: Rows, mid: Rows, final: Rows, digest: Row -> string, c: Id, d: Id)
    requires IgnoresHash(digest) && Reached(start, mid, digest, c)
    ensures Reached(mid, final, digest, d) ==> Reached(start, final, digest, if c <= d then d else c)
    ensures Finished(mid, final, digest) ==> Finished(start, final, digest)
  {
  }

  /** On a finished table the backfill has nothing to do, rows that hash to nothing aside. */
  lemma FinishedIsStable(start: Rows, mid: Rows, final: Rows, digest: Row -> string)
    requires IgnoresHash(digest) && Finished(start, mid, digest)
      && Finished(mid, final, digest) && mid.Keys == final.Keys
    ensures final == mid
  {
  }

  /** SELECT ... WHERE hash IS NULL AND id > after ORDER BY id LIMIT n: the n least, in order. */
  method SelectBatch(rows: Rows, after: Id, n: nat) returns (batch: seq<Id>)
    ensures Increasing(batch) && |batch| <= n
    ensures forall id | id in batch :: id in Pending(rows, after)
    ensures forall id | id in Pending(rows, after) && id !in batch :: |batch| == n && forall b | b in batch :: b < id
  {
    batch := [];
    var rest := Pending(rows, after);
    while |batch| < n && rest != {}
      invariant Increasing(batch) && |batch| <= n
      invariant rest <= Pending(rows, after)
      invariant forall id | id in batch :: id in Pending(rows, after)
      invariant forall id | id in Pending(rows, after) :: id in batch || id in rest
      invariant forall id, b | id in rest && b in batch :: b < id
      decreases n - |batch|
    {
      var next := Least(rest);
      assert forall i | 0 <= i < |batch| :: batch[i] in batch;
      batch := batch + [next];
      rest := rest - {next};
    }
  }

  function AfterBatch(rows: Rows, batch: seq<Id>, digest: Row -> string, dryRun: bool): Rows {
    if dryRun then rows else map id | id in rows :: if id in batch then Hashed(id, rows[id], digest) else rows[id]
  }

  lemma AfterBatchOneMore(rows: Rows, batch: seq<Id>, id: Id, digest: Row -> string, dryRun: bool)
    requires id in rows && id !in batch
    ensures AfterBatch(rows, batch + [id], digest, dryRun) ==
      if dryRun then rows else AfterBatch(rows, batch, digest, dryRun)[id := Hashed(id, rows[id], digest)]
    ensures AfterBatch(rows, batch, digest, dryRun)[id] == rows[id]
  {
  }

  lemma CountOneMore(batch: seq<Id>, i: nat, rows: Rows, digest: Row -> string)
    requires i < |batch| && Increasing(batch)
    ensures batch[..i + 1] == batch[..i] + [batch[i]] && batch[i] !in batch[..i] && batch[i] in batch
    ensures CountNonEmpty(batch[..i + 1], rows, digest) ==
      CountNonEmpty(batch[..i], rows, digest) + if batch[i] in rows && digest(rows[batch[i]]) != "" then 1 else 0
  {
  }

  predicate Hashes(rows: Rows, digest: Row -> string, id: Id) { id in rows && digest(rows[id]) != "" }

  function HashingOf(s: seq<Id>, rows: Rows, digest: Row -> string): set<Id> {
    set id | id in s && Hashes(rows, digest, id)
  }

  /** The counter is the number of rows that hash to something. */
  lemma {:induction false} CountIsTheNumber(s: seq<Id>, rows: Rows, digest: Row -> string)
    requires Increasing(s)
    ensures CountNonEmpty(s, rows, digest) == |HashingOf(s, rows, digest)|
    decreases |s|
  {
    if s == [] {
      assert HashingOf(s, rows, digest) == {};
    } else {
      CountIsTheNumber(s[..|s| - 1], rows, digest);
      OneMoreHashing(s[..|s| - 1], s[|s| - 1], rows, digest);
      assert s == s[..|s| - 1] + [s[|s| - 1]];
    }
  }

  lemma OneMoreHashing(init: seq<Id>, last: Id, rows: Rows, digest: Row -> string)
    requires Increasing(init + [last])
    ensures |HashingOf(init + [last], rows, digest)| ==
      |HashingOf(init, rows, digest)| + if Hashes(rows, digest, last) then 1 else 0
  {
    var s := init + [last];
    forall i | 0 <= i < |init| ensures init[i] != last {
      assert s[i] == init[i] && s[|init|] == last;
    }
    assert HashingOf(s, rows, digest) ==
      if Hashes(rows, digest, last) then HashingOf(init, rows, digest) + {last} else HashingOf(init, rows, digest);
  }

  class Table {
    var rows: Rows

    constructor (rows: Rows)
      ensures this.rows == rows
    {
      this.rows := rows;
    }

    /** The application inserts new rows; its write path has hashed them. */
    method ConcurrentInserts()
      modifies this
      ensures forall id | id in old(rows) :: id in rows && rows[id] == old(rows)[id]
      ensures forall id | id in rows && id !in old(rows) :: rows[id].hash.Some?
    {
      var n: nat := *;
      while n > 0
        invariant forall id | id in old(rows) :: id in rows && rows[id] == old(rows)[id]
        invariant forall id | id in rows && id !in old(rows) :: rows[id].hash.Some?
      {
        var id: Id, row: Row := *, *;
        if id !in rows && row.hash.Some? { rows := rows[id := row]; }
        n := n - 1;
      }
    }

    /** One batch, in its own transaction: counted either way, written unless dry. */
    method RunBatch(batch: seq<Id>, digest: Row -> string, dryRun: bool) returns (filled: nat, skipped: nat)
      requires Increasing(batch) && forall id | id in batch :: id in rows && rows[id].hash == None && id != 0
      modifies this
      ensures filled + skipped == |batch| && filled == CountNonEmpty(batch, old(rows), digest)
      ensures rows == AfterBatch(old(rows), batch, digest, dryRun)
    {
      filled, skipped := 0, 0;
      var working := rows;
      for i := 0 to |batch|
        invariant filled + skipped == i && filled == CountNonEmpty(batch[..i], old(rows), digest)
        invariant working == AfterBatch(old(rows), batch[..i], digest, dryRun)
      {
        CountOneMore(batch, i, old(rows), digest);
        AfterBatchOneMore(old(rows), batch[..i], batch[i], digest, dryRun);
        var h := digest(working[batch[i]]);
        if h != "" {
          if !dryRun { working := working[batch[i] := working[batch[i]].(hash := Some(h))]; }
          filled := filled + 1;
        } else {
          skipped := skipped + 1;
        }
      }
      assert batch[..|batch|] == batch;
      rows := working;
    }

    /** One run over the table. `crashed` runs stop after an arbitrary batch; the one in progress is rolled back.
     *  `visited` are the rows looked at, in order. */
    method BackfillTable(batchSize: nat, digest: Row -> string, dryRun: bool, mayCrash: bool)
      returns (filled: nat, skipped: nat, scanned: nat, crashed: bool, ghost visited: seq<Id>, ghost cursor: Id)
      modifies this
      ensures crashed ==> mayCrash
      ensures filled + skipped == scanned == |visited| && filled == CountNonEmpty(visited, old(rows), digest)
      ensures Walked(old(rows), visited, cursor)
      ensures !crashed && batchSize >= 1 ==> forall id | id in Pending(old(rows), 0) :: id in visited
      ensures batchSize == 0 ==> scanned == 0
      ensures Written(old(rows), rows, digest, dryRun, cursor)
      ensures !dryRun && !crashed && batchSize >= 1 ==> Finished(old(rows), rows, digest)
    {
      filled, skipped, scanned, crashed, visited := 0, 0, 0, false, [];
      var lastId: Id := 0;
      cursor := 0;
      if forall id | id in rows :: rows[id].hash.Some? {
        NothingPendingMeansFinished(rows, rows, digest, 0);
        return;
      }
      while true
        invariant cursor == lastId && !crashed
        invariant filled + skipped == scanned == |visited| && filled == CountNonEmpty(visited, old(rows), digest)
        invariant Walked(old(rows), visited, lastId) && (batchSize == 0 ==> scanned == 0)
        invariant Written(old(rows), rows, digest, dryRun, lastId)
        decreases |Pending(old(rows), lastId)|
      {
        ghost var was := rows;
        ConcurrentInserts();
        InsertsKeepWritten(old(rows), was, rows, digest, dryRun, lastId);
        PendingIsOld(old(rows), rows, digest, dryRun, lastId);
        var batch := SelectBatch(rows, lastId, batchSize);
        if batch == [] {
          assert batchSize >= 1 ==> Pending(old(rows), lastId) == {};
          if !dryRun && batchSize >= 1 { NothingPendingMeansFinished(old(rows), rows, digest, lastId); }
          break;
        }
        var stop: bool := *;
        if stop && mayCrash { crashed := true; break; }
        ghost var before := rows;
        var f, k := RunBatch(batch, digest, dryRun);
        CountAppends(visited, batch, old(rows), before, digest);
        filled, skipped, scanned := filled + f, skipped + k, scanned + |batch|;
        WalkOn(old(rows), visited, lastId, batch);
        BatchWrites(old(rows), before, rows, digest, dryRun, lastId, batch);
        visited := visited + batch;
        lastId := batch[|batch| - 1];
        cursor := lastId;
      }
    }
  }

  /** The rows visited so far, each once and in order, are the pending ones up to the cursor. */
  ghost predicate Walked(start: Rows, visited: seq<Id>, cursor: Id) {
    && Increasing(visited)
    && (forall id | id in visited :: id in Pending(start, 0) && id <= cursor)
    && (forall id | id in Pending(start, 0) && id <= cursor :: id in visited)
  }

  /** A dry run changes no row; a real one has written everything up to the cursor. */
  ghost predicate Written(start: Rows, rows: Rows, digest: Row -> string, dryRun: bool, cursor: Id) {
    if dryRun then
      (forall id | id in start :: id in rows && rows[id] == start[id]) && forall id | id in rows && id !in start ::
        rows[id].hash.Some?
    else Reached(start, rows, digest, cursor)
  }

  lemma PendingIsOld(start: Rows, rows: Rows, digest: Row -> string, dryRun: bool, cursor: Id)
    requires Written(start, rows, digest, dryRun, cursor)
    ensures Pending(rows, cursor) == Pending(start, cursor)
    ensures forall id | id in Pending(start, cursor) :: rows[id] == start[id]
  {
  }

  lemma NothingPendingMeansFinished(start: Rows, rows: Rows, digest: Row -> string, cursor: Id)
    requires Reached(start, rows, digest, cursor) && Pending(start, cursor) == {}
    ensures Finished(start, rows, digest)
  {
    assert forall id | id in start && id > cursor && start[id].hash == None :: id in Pending(start, cursor);
  }

  lemma InsertsKeepWritten(start: Rows, a: Rows, b: Rows, digest: Row -> string, dryRun: bool, cursor: Id)
    requires Written(start, a, digest, dryRun, cursor)
    requires forall id | id in a :: id in b && b[id] == a[id]
    requires forall id | id in b && id !in a :: b[id].hash.Some?
    ensures Written(start, b, digest, dryRun, cursor)
  {
  }

  lemma BatchWrites(start: Rows, a: Rows, b: Rows, digest: Row -> string, dryRun: bool, cursor: Id, batch: seq<Id>)
    requires Written(start, a, digest, dryRun, cursor) && b == AfterBatch(a, batch, digest, dryRun) && batch != []
    requires forall id | id in batch :: id in Pending(start, cursor) && id <= batch[|batch| - 1]
    requires forall id | id in Pending(start, cursor) && id <= batch[|batch| - 1] :: id in batch
    requires cursor < batch[|batch| - 1]
    ensures Written(start, b, digest, dryRun, batch[|batch| - 1])
  {
  }

  lemma WalkOn(start: Rows, visited: seq<Id>, cursor: Id, batch: seq<Id>)
    requires Walked(start, visited, cursor) && Increasing(batch) && batch != []
    requires forall id | id in batch :: id in Pending(start, cursor)
    requires forall id | id in Pending(start, cursor) && id !in batch :: forall b | b in batch :: b < id
    ensures Walked(start, visited + batch, batch[|batch| - 1]) && cursor < batch[|batch| - 1]
    ensures |Pending(start, batch[|batch| - 1])| < |Pending(start, cursor)|
    ensures forall id | id in Pending(start, cursor) && id <= batch[|batch| - 1] :: id in batch
    ensures forall id | id in batch :: id <= batch[|batch| - 1]
  {
    CursorAdvances(Pending(start, cursor), batch);
    IncreasingConcat(visited, batch, cursor);
    FewerPending(start, cursor, batch[|batch| - 1]);
  }

  lemma {:induction false} CountAppends(visited: seq<Id>, batch: seq<Id>, start: Rows, rows: Rows,
                                        digest: Row -> string)
    requires forall id | id in batch :: id in start && id in rows && rows[id] == start[id]
    ensures CountNonEmpty(visited + batch, start, digest) ==
      CountNonEmpty(visited, start, digest) + CountNonEmpty(batch, rows, digest)
  {
    if batch == [] {
      assert visited + batch == visited;
    } else {
      var init := batch[..|batch| - 1];
      assert (visited + batch)[..|visited + batch| - 1] == visited + init;
      assert batch[|batch| - 1] in batch && forall id | id in init :: id in batch;
      CountAppends(visited, init, start, rows, digest);
    }
  }

  lemma IncreasingConcat(a: seq<Id>, b: seq<Id>, bound: Id)
    requires Increasing(a) && Increasing(b)
    requires (forall id | id in a :: id <= bound) && forall id | id in b :: bound < id
    ensures Increasing(a + b)
  {
    assert forall i | 0 <= i < |a| :: a[i] in a;
    assert forall i | 0 <= i < |b| :: b[i] in b;
  }

  lemma FewerPending(rows: Rows, low: Id, high: Id)
    requires low < high && high in Pending(rows, low)
    ensures |Pending(rows, high)| < |Pending(rows, low)|
  {
    var rest := Pending(rows, low) - Pending(rows, high);
    assert high in rest;
    assert Pending(rows, low) == Pending(rows, high) + rest;
  }

  /** The last of a batch bounds it, and everything pending up to there is in it. */
  lemma CursorAdvances(pending: set<Id>, batch: seq<Id>)
    requires Increasing(batch) && batch != [] && forall id | id in batch :: id in pending
    requires forall id | id in pending && id !in batch :: forall b | b in batch :: b < id
    ensures batch[|batch| - 1] in batch && forall id | id in batch :: id <= batch[|batch| - 1]
    ensures forall id | id in pending && id <= batch[|batch| - 1] :: id in batch
  {
  }

  /** Any number of crashed attempts, with any batch sizes, then one that runs through: the table is as after a
   *  single uninterrupted run. */
  method BackfillUntilDone(rows: Rows, digest: Row -> string, crashes: seq<nat>, batchSize: nat) returns (final: Rows)
    requires IgnoresHash(digest) && batchSize >= 1 && forall n | n in crashes :: n >= 1
    ensures Finished(rows, final, digest)
    ensures forall id | id in rows && rows[id].hash == None && id != 0 && digest(rows[id]) != "" ::
      id in final && final[id] == Row(rows[id].content, Some(digest(rows[id])))
    ensures forall id | id in rows && (rows[id].hash.Some? || id == 0 || digest(rows[id]) == "") ::
      id in final && final[id] == rows[id]
  {
    var t := new Table(rows);
    ghost var reached: Id := 0;
    assert Reached(rows, t.rows, digest, reached);
    for i := 0 to |crashes|
      invariant fresh(t) && Reached(rows, t.rows, digest, reached)
    {
      assert crashes[i] in crashes;
      ghost var before := t.rows;
      var _, _, _, _, _, c := t.BackfillTable(crashes[i], digest, false, true);
      AttemptsCompose(rows, before, t.rows, digest, reached, c);
      reached := if reached <= c then c else reached;
    }
    ghost var before := t.rows;
    var _, _, _, _, _, c := t.BackfillTable(batchSize, digest, false, false);
    AttemptsCompose(rows, before, t.rows, digest, reached, c);
    final := t.rows;
  }

  /** A row whose id is the empty string is never looked at. */
  method EmptyIdIsSkipped(digest: Row -> string) returns (final: Rows)
    ensures final[0 := Row(0, None)] == final && 0 in final
  {
    var t := new Table(map[0 := Row(0, None)]);
    var _, _, _, _, _, _ := t.BackfillTable(500, digest, false, false);
    final := t.rows;
  }
}
