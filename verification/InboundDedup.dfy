/** Migration 0048: duplicate inbound messages are collapsed before their key becomes unique.
 *
 * Message ids are totally ordered by the database; they appear here as their ranks. All statements run in one
 * transaction under a table lock, so no writer interleaves.
 */
module InboundDedup {
  import opened Options
  import opened Ordering

  type Id = nat
  type RunId = nat

  /** The bot key "sreda", and the others; channels and update ids are only compared. */
  datatype BotKey = Sreda | Bot(n: nat)
  datatype Text = Text(n: nat)

  datatype Message = Message(channel: Option<Text>, bot: Option<BotKey>, update: Option<Text>, body: nat)

  type Messages = map<Id, Message>
  type Runs = map<RunId, Option<Id>>

  // ---------------------------------------------------------------- keys and groups

  /** SQL equality on the three key columns: true only when none is NULL. */
  predicate SameKey(a: Message, b: Message) {
    && a.channel.Some? && a.channel == b.channel
    && a.bot.Some? && a.bot == b.bot
    && a.update.Some? && a.update == b.update
  }

  predicate FullKey(m: Message) { m.channel.Some? && m.bot.Some? && m.update.Some? }

  function Group(rows: Messages, id: Id): set<Id>
    requires id in rows
  {
    set o | o in rows && SameKey(rows[o], rows[id])
  }

  /** The predicate that archives and deletes: an update id, and a sibling with a smaller id. */
  predicate Doomed(rows: Messages, id: Id)
    requires id in rows
  {
    rows[id].update.Some? && exists o | o in rows :: SameKey(rows[o], rows[id]) && o < id
  }

  function Kept(rows: Messages): Messages { map id | id in rows && !Doomed(rows, id) :: rows[id] }

  function Collapsed(rows: Messages): Messages { map id | id in rows && Doomed(rows, id) :: rows[id] }

  function Repointed(rows: Messages, runs: Runs): Runs {
    map r | r in runs ::
      if runs[r].Some? && runs[r].value in rows && Doomed(rows, runs[r].value)
      then (GroupNonEmpty(rows, runs[r].value); Some(Least(Group(rows, runs[r].value))))
      else runs[r]
  }

  lemma GroupNonEmpty(rows: Messages, id: Id)
    requires id in rows && Doomed(rows, id)
    ensures Group(rows, id) != {}
  {
    var o :| o in rows && SameKey(rows[o], rows[id]) && o < id;
    assert o in Group(rows, id);
  }

  ghost predicate UniqueKeys(rows: Messages) {
    forall i, j | i in rows && j in rows && SameKey(rows[i], rows[j]) :: i == j
  }

  ghost predicate Intact(rows: Messages, runs: Runs) {
    forall r | r in runs && runs[r].Some? :: runs[r].value in rows
  }

  // ---------------------------------------------------------------- what the collapse achieves

  /** In every group exactly the least id is kept; a row with a NULL in its key is always kept. */
  lemma KeptIsTheLeastOfItsGroup(rows: Messages, id: Id)
    requires id in rows
    ensures FullKey(rows[id]) ==> id in Group(rows, id) && (id in Kept(rows) <==> id == Least(Group(rows, id)))
    ensures !FullKey(rows[id]) ==> id in Kept(rows)
    ensures id in Kept(rows) ==> Kept(rows)[id] == rows[id]
  {
    if FullKey(rows[id]) {
      assert id in Group(rows, id);
      var m := Least(Group(rows, id));
      assert SameKey(rows[m], rows[id]) && (m < id ==> Doomed(rows, id));
      assert forall o | o in rows && SameKey(rows[o], rows[id]) :: o in Group(rows, id);
      assert Doomed(rows, id) ==> exists o :: o in Group(rows, id) && o < id;
    }
  }

  lemma KeptIsUnique(rows: Messages)
    ensures UniqueKeys(Kept(rows))
  {
  }

  lemma NothingDoomedWhenUnique(rows: Messages)
    ensures Collapsed(rows) == map[] <==> UniqueKeys(rows)
    ensures UniqueKeys(rows) ==> Kept(rows) == rows
  {
    if UniqueKeys(rows) {
      forall id | id in rows ensures !Doomed(rows, id) {}
    }
    if Collapsed(rows) == map[] {
      forall id | id in rows ensures id in Kept(rows) { assert id !in Collapsed(rows); }
      assert Kept(rows) == rows;
      KeptIsUnique(rows);
    }
  }

  /** The key is unique afterwards, kept and archived rows are exactly the old rows, and a second collapse finds
   *  nothing to do. */
  lemma CollapseIsExact(rows: Messages)
    ensures UniqueKeys(Kept(rows))
    ensures Kept(rows).Keys !! Collapsed(rows).Keys && Kept(rows) + Collapsed(rows) == rows
    ensures Kept(Kept(rows)) == Kept(rows) && Collapsed(Kept(rows)) == map[]
    ensures Collapsed(rows) == map[] <==> UniqueKeys(rows)
  {
    KeptIsUnique(rows);
    NothingDoomedWhenUnique(rows);
    NothingDoomedWhenUnique(Kept(rows));
  }

  ghost predicate HasElder(rows: Messages, id: Id, m: Message) {
    exists o | o in rows :: SameKey(rows[o], m) && o < id
  }

  lemma DeletedHaveAnElder(rows: Messages, id: Id)
    requires id in rows && id !in Kept(rows)
    ensures HasElder(Kept(rows), id, rows[id])
  {
    KeptIsTheLeastOfItsGroup(rows, id);
    var m := Least(Group(rows, id));
    KeptIsTheLeastOfItsGroup(rows, m);
    assert forall o | o in rows && SameKey(rows[o], rows[m]) :: o in Group(rows, id);
    assert !Doomed(rows, m);
    assert m in Kept(rows) && SameKey(Kept(rows)[m], rows[id]);
  }

  /** Every reference still has a target, in the group it pointed into. */
  lemma RepointKeepsReferences(rows: Messages, runs: Runs)
    requires Intact(rows, runs)
    ensures Intact(Kept(rows), Repointed(rows, runs)) && Repointed(rows, runs).Keys == runs.Keys
    ensures forall r | r in runs :: runs[r] == None <==> Repointed(rows, runs)[r] == None
    ensures forall r | r in runs && runs[r].Some? ::
      var was, now := runs[r].value, Repointed(rows, runs)[r].value;
      now == was || (SameKey(rows[now], rows[was]) && now < was)
    ensures forall r | r in runs && runs[r].Some? && runs[r].value in Kept(rows) :: Repointed(rows, runs)[r] == runs[r]
  {
    var after := Repointed(rows, runs);
    forall r | r in runs && runs[r].Some?
      ensures after[r].Some? && after[r].value in Kept(rows)
      ensures after[r].value == runs[r].value
        || (SameKey(rows[after[r].value], rows[runs[r].value]) && after[r].value < runs[r].value)
    {
      var was := runs[r].value;
      if Doomed(rows, was) {
        GroupNonEmpty(rows, was);
        var m := Least(Group(rows, was));
        var o :| o in rows && SameKey(rows[o], rows[was]) && o < was;
        assert o in Group(rows, was);
        assert forall p | p in rows && SameKey(rows[p], rows[m]) :: p in Group(rows, was);
        assert !Doomed(rows, m);
      }
    }
  }

  function WithBotKey(m: Message): Message { if m.bot == None then m.(bot := Some(Sreda)) else m }

  function WithBotKeys(rows: Messages): Messages { map id | id in rows :: WithBotKey(rows[id]) }

  // ---------------------------------------------------------------- what the upgrade means, column by column

  /** The same message after the backfill: channel and update id agree, and so do the bots, where NULL counts as
   *  "sreda". A NULL channel or update id agrees with nothing. */
  predicate SameMessage(a: Message, b: Message) {
    && a.channel.Some? && b.channel.Some? && a.channel.value == b.channel.value
    && a.update.Some? && b.update.Some? && a.update.value == b.update.value
    && (if a.bot.Some? then a.bot.value else Sreda) == (if b.bot.Some? then b.bot.value else Sreda)
  }

  /** A row stays as it is, save that a NULL bot becomes "sreda". */
  predicate Backfilled(was: Message, now: Message) {
    && now.channel == was.channel && now.update == was.update && now.body == was.body
    && now.bot == (if was.bot.Some? then was.bot else Some(Sreda))
  }

  /** Of the rows that are the same message the least id stays, and every other goes; nothing else goes. */
  ghost predicate RowsMigrated(was: Messages, now: Messages) {
    && (forall id | id in now :: id in was && Backfilled(was[id], now[id]))
    && (forall id | id in was :: id in now <==> !HasElderCopy(was, id))
  }

  predicate HasElderCopy(rows: Messages, id: Id)
    requires id in rows
  {
    exists o | o in rows :: o < id && SameMessage(rows[o], rows[id])
  }

  /** Every reference keeps its row, or moves to the one that stayed of the same message. */
  ghost predicate RunsMigrated(was: Messages, now: Messages, before: Runs, after: Runs) {
    && after.Keys == before.Keys
    && forall r | r in before ::
         && (before[r].Some? <==> after[r].Some?)
         && (before[r].Some? ==>
               && after[r].value in now && before[r].value in was && after[r].value in was
               && (if before[r].value in now then after[r] == before[r]
                   else SameMessage(was[after[r].value], was[before[r].value])))
  }

  /** The archive holds the rows that went, backfilled; where none went it is as it was. */
  ghost predicate ArchiveMigrated(was: Messages, now: Messages, before: Option<Messages>, after: Option<Messages>) {
    if was.Keys == now.Keys then after == before
    else before == None && after.Some? && after.value.Keys == was.Keys - now.Keys
         && forall id | id in after.value :: id in was && Backfilled(was[id], after.value[id])
  }

  lemma BackfillMakesSame(a: Message, b: Message)
    ensures SameMessage(a, b) <==> SameKey(WithBotKey(a), WithBotKey(b))
    ensures Backfilled(a, WithBotKey(a))
  {
  }

  lemma DoomedHasElderCopy(was: Messages, id: Id)
    requires id in was
    ensures Doomed(WithBotKeys(was), id) <==> HasElderCopy(was, id)
  {
    var filled := WithBotKeys(was);
    forall o | o in was ensures SameKey(filled[o], filled[id]) <==> SameMessage(was[o], was[id]) {
      BackfillMakesSame(was[o], was[id]);
    }
    if o :| o in was && o < id && SameMessage(was[o], was[id]) {
      assert o in filled && SameKey(filled[o], filled[id]);
    }
  }

  /** No two rows are the same message. */
  predicate NoCopies(rows: Messages) { forall id | id in rows :: !HasElderCopy(rows, id) }

  lemma CopiesAreDuplicates(was: Messages)
    ensures UniqueKeys(WithBotKeys(was)) <==> NoCopies(was)
  {
    var filled := WithBotKeys(was);
    NothingDoomedWhenUnique(filled);
    forall id | id in was ensures Doomed(filled, id) <==> HasElderCopy(was, id) { DoomedHasElderCopy(was, id); }
    if NoCopies(was) {
      assert forall id | id in filled :: !Doomed(filled, id);
      assert Collapsed(filled) == map[];
    } else {
      var id :| id in was && HasElderCopy(was, id);
      assert id in Collapsed(filled);
    }
  }

  lemma RowsAreMigrated(was: Messages)
    ensures RowsMigrated(was, Kept(WithBotKeys(was)))
  {
    forall id | id in was ensures Doomed(WithBotKeys(was), id) <==> HasElderCopy(was, id) {
      DoomedHasElderCopy(was, id);
    }
  }

  lemma RunsAreMigrated(was: Messages, runs: Runs)
    requires Intact(was, runs)
    ensures RunsMigrated(was, Kept(WithBotKeys(was)), runs, Repointed(WithBotKeys(was), runs))
  {
    var filled := WithBotKeys(was);
    RepointKeepsReferences(filled, runs);
    var after := Repointed(filled, runs);
    forall r | r in runs && runs[r].Some?
      ensures after[r].Some? && after[r].value in Kept(filled)
      ensures runs[r].value !in Kept(filled) ==> SameMessage(was[after[r].value], was[runs[r].value])
    {
      BackfillMakesSame(was[after[r].value], was[runs[r].value]);
    }
  }

  lemma ArchiveIsMigrated(was: Messages, before: Option<Messages>)
    requires UniqueKeys(WithBotKeys(was)) || before == None
    ensures ArchiveMigrated(was, Kept(WithBotKeys(was)), before,
                            if UniqueKeys(WithBotKeys(was)) then before else Some(Collapsed(WithBotKeys(was))))
  {
    var filled := WithBotKeys(was);
    NothingDoomedWhenUnique(filled);
    assert Collapsed(filled).Keys == was.Keys - Kept(filled).Keys;
    if was.Keys == Kept(filled).Keys {
      assert Collapsed(filled) == map[];
    }
  }

  /** Nothing is left to fill in, and nothing is there twice. */
  predicate Settled(rows: Messages) { NoCopies(rows) && forall id | id in rows :: rows[id].bot.Some? }

  lemma SettledStays(was: Messages, now: Messages, before: Runs, after: Runs)
    requires Settled(was) && RowsMigrated(was, now) && RunsMigrated(was, now, before, after)
    ensures now == was && after == before
  {
    forall id | id in was ensures id in now && now[id] == was[id] {
      assert !HasElderCopy(was, id) && Backfilled(was[id], now[id]);
    }
    forall r | r in before ensures after[r] == before[r] { }
  }

  // ---------------------------------------------------------------- the migration

  class Inbox {
    var rows: Messages
    var runs: Runs
    var archive: Option<Messages>
    var indexed: bool

    constructor (rows: Messages, runs: Runs)
      ensures this.rows == rows && this.runs == runs && archive == None && !indexed
    {
      this.rows, this.runs, archive, indexed := rows, runs, None, false;
    }

    /** What the server guards: references have targets, and an index on the key means the key is unique. */
    ghost predicate Valid() reads this { Intact(rows, runs) && (indexed ==> UniqueKeys(rows)) }

    /** CREATE TABLE AS: fails when an archive is there already. */
    method Archive() returns (ok: bool)
      modifies this`archive
      ensures ok <==> Collapsed(rows) == map[] || old(archive) == None
      ensures archive == if ok && Collapsed(rows) != map[] then Some(Collapsed(rows)) else old(archive)
    {
      var doomed := Collapsed(rows);
      if doomed == map[] { return true; }
      if archive.Some? { return false; }
      archive := Some(doomed);
      return true;
    }

    method Repoint()
      requires Intact(rows, runs)
      modifies this`runs
      ensures runs == Repointed(rows, old(runs)) && Intact(Kept(rows), runs)
    {
      RepointKeepsReferences(rows, runs);
      runs := Repointed(rows, runs);
    }

    /** DELETE: the foreign key of agent_runs refuses it while a doomed row is referenced. Every deleted row leaves a
     *  row with the same key and a smaller id behind, no reference loses its row, and the key is unique. */
    method DeleteDoomed() returns (ok: bool)
      modifies this`rows
      ensures ok ==> UniqueKeys(rows) && (Intact(old(rows), runs) ==> Intact(rows, runs))
      ensures forall id | id in rows :: id in old(rows) && rows[id] == old(rows)[id]
      ensures forall id | id in old(rows) && id !in rows :: HasElder(rows, id, old(rows)[id])
      ensures ok <==> forall r | r in runs && runs[r].Some? :: runs[r].value !in Collapsed(old(rows))
      ensures rows == if ok then Kept(old(rows)) else old(rows)
    {
      var doomed := Collapsed(rows);
      CollapseIsExact(rows);
      forall id | id in rows && id !in Kept(rows)
        ensures HasElder(Kept(rows), id, rows[id]) { DeletedHaveAnElder(rows, id); }
      ok := forall r | r in runs && runs[r].Some? :: runs[r].value !in doomed;
      if ok { rows := Kept(rows); }
    }

    method Dedup() returns (ok: bool)
      requires Intact(rows, runs)
      modifies this`rows, this`runs, this`archive
      ensures ok <==> UniqueKeys(old(rows)) || old(archive) == None
      ensures ok ==> rows == Kept(old(rows)) && runs == Repointed(old(rows), old(runs))
      ensures ok ==> archive == if UniqueKeys(old(rows)) then old(archive) else Some(Collapsed(old(rows)))
      ensures ok && UniqueKeys(old(rows)) ==> rows == old(rows) && runs == old(runs)
      ensures ok ==> Intact(rows, runs) && UniqueKeys(rows)
    {
      CollapseIsExact(rows);
      ok := Archive();
      if !ok { return; }
      Repoint();
      ok := DeleteDoomed();
      if UniqueKeys(old(rows)) {
        assert forall id | id in old(rows) :: !Doomed(old(rows), id);
        assert runs == old(runs) && rows == old(rows);
      }
    }

    /** The statements of the upgrade; what they leave behind on a failure is rolled back by the caller. */
    method Migrate() returns (ok: bool)
      requires Intact(rows, runs)
      modifies this
      ensures ok <==> !old(indexed) && (UniqueKeys(WithBotKeys(old(rows))) || old(archive) == None)
      ensures ok ==> indexed && Intact(rows, runs) && UniqueKeys(rows)
      ensures ok ==> rows == Kept(WithBotKeys(old(rows))) && runs == Repointed(WithBotKeys(old(rows)), old(runs))
      ensures ok ==>
        archive == if UniqueKeys(WithBotKeys(old(rows))) then old(archive) else Some(Collapsed(WithBotKeys(old(rows))))
    {
      rows := WithBotKeys(rows);
      ok := Dedup();
      if !ok { return; }
      if indexed { return false; }
      indexed := true;
    }

    /** The whole upgrade, one transaction: it fails, and changes nothing, exactly when the index is there already,
     *  or there are duplicates and an archive of an earlier run is still there. */
    method Upgrade() returns (ok: bool)
      requires Valid()
      modifies this
      ensures Valid()
      ensures !ok ==> rows == old(rows) && runs == old(runs) && archive == old(archive) && indexed == old(indexed)
      ensures ok ==> indexed
      ensures ok ==> RowsMigrated(old(rows), rows) && RunsMigrated(old(rows), rows, old(runs), runs)
      ensures ok ==> ArchiveMigrated(old(rows), rows, old(archive), archive)
      ensures ok <==> !old(indexed) && (NoCopies(old(rows)) || old(archive) == None)
      ensures Settled(old(rows)) ==> rows == old(rows) && runs == old(runs) && archive == old(archive)
    {
      var rows0, runs0, archive0, indexed0 := rows, runs, archive, indexed;
      CopiesAreDuplicates(rows);
      ok := Migrate();
      if ok {
        RowsAreMigrated(rows0);
        RunsAreMigrated(rows0, runs0);
        ArchiveIsMigrated(rows0, archive0);
        if Settled(rows0) { SettledStays(rows0, rows, runs0, runs); }
      }
      if !ok { rows, runs, archive, indexed := rows0, runs0, archive0, indexed0; }
    }

    method Downgrade()
      requires Valid()
      modifies this`indexed
      ensures Valid() && !indexed
    {
      indexed := false;
    }
  }

  function Hello(): Message { Message(Some(Text(0)), Some(Bot(0)), Some(Text(7)), 0) }

  lemma TwinsHaveACopy(i: Id, k: Id)
    requires i < k
    ensures var twins := map[i := Hello(), k := Hello()];
      HasElderCopy(twins, k) && !HasElderCopy(twins, i) && !NoCopies(twins)
  {
    var twins := map[i := Hello(), k := Hello()];
    assert SameMessage(twins[i], twins[k]);
  }

  lemma TheElderTwinStays(now: Messages)
    requires RowsMigrated(map[1 := Hello(), 2 := Hello()], now)
    ensures now == map[1 := Hello()]
  {
    TwinsHaveACopy(1, 2);
    assert forall id :: id in now <==> id == 1;
    assert Backfilled(Hello(), now[1]);
  }

  /** Two equal messages, the upgrade, the downgrade, and one new duplicate: the second upgrade is refused. */
  method ArchiveBlocksTheSecondUpgrade() returns (first: bool, second: bool)
    ensures first && !second
  {
    var inbox := new Inbox(map[1 := Hello(), 2 := Hello()], map[]);
    first := inbox.Upgrade();
    TheElderTwinStays(inbox.rows);
    assert inbox.archive.Some? by { assert 2 !in inbox.rows.Keys && 2 in (map[1 := Hello(), 2 := Hello()]).Keys; }
    inbox.Downgrade();
    inbox.rows := map[1 := Hello(), 3 := Hello()];
    TwinsHaveACopy(1, 3);
    second := inbox.Upgrade();
  }

  /** Two bots may see the same update id: neither message is a copy of the other, and both stay. */
  method BotsAreKeptApart() returns (ok: bool, rows: Messages)
    ensures ok && rows.Keys == {1, 2}
  {
    var start := map[1 := Message(Some(Text(0)), Some(Bot(0)), Some(Text(7)), 0),
                     2 := Message(Some(Text(0)), Some(Sreda), Some(Text(7)), 1)];
    var inbox := new Inbox(start, map[]);
    assert !SameMessage(start[1], start[2]) && !SameMessage(start[2], start[1]);
    assert NoCopies(start);
    ok := inbox.Upgrade();
    rows := inbox.rows;
    assert forall id :: id in rows <==> id in start;
  }
}
