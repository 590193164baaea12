/** Migration 0029: the listed text columns are rewritten in place into encrypted envelopes and back.
 *
 * The cipher is a pair of functions of which only this is known: encrypting under any nonce gives a value with the
 * "v2:" prefix that decrypts to the plaintext. Decrypting anything else may fail, and a failure undoes the migration.
 */
module EncryptionRewrite {
  import opened Options

  type Id = nat
  type Rows = map<Id, Option<string>>

  datatype Cipher = Cipher(enc: (nat, string) -> string, dec: string -> Option<string>)

  ghost predicate Sound(c: Cipher) {
    forall n: nat, s: string :: "v2:" <= c.enc(n, s) && c.dec(c.enc(n, s)) == Some(s)
  }

  predicate Prefixed(s: string) { "v1:" <= s || "v2:" <= s }

  /** WHERE column IS NOT NULL AND column != ''. */
  predicate Selected(v: Option<string>) { v.Some? && v.value != "" }

  predicate Plain(v: Option<string>) { Selected(v) && !Prefixed(v.value) }

  predicate Enveloped(v: Option<string>) { v.Some? && Prefixed(v.value) }

  function PlainIds(rows: Rows): set<Id> { set id | id in rows && Plain(rows[id]) }

  function EnvelopedIds(rows: Rows): set<Id> { set id | id in rows && Enveloped(rows[id]) }

  function SelectedIds(rows: Rows): set<Id> { set id | id in rows && Selected(rows[id]) }

  datatype Reading = Null | Text(s: string) | Unreadable

  /** What the application reads: envelopes are decrypted, values without a prefix are passed through. */
  function View(c: Cipher, v: Option<string>): Reading {
    match v
    case None => Null
    case Some(s) => if !Prefixed(s) then Text(s) else match c.dec(s) case None => Unreadable case Some(p) => Text(p)
  }

  /** A version 2 envelope of `s`. */
  predicate IsEnvelope(c: Cipher, v: Option<string>, s: string) {
    v.Some? && "v2:" <= v.value && c.dec(v.value) == Some(s)
  }

  /** Some of the plain rows of `a` have become envelopes of themselves in `b`. */
  ghost predicate PartlyRewritten(c: Cipher, a: Rows, b: Rows) {
    && a.Keys == b.Keys
    && forall id | id in a ::
      b[id] == a[id] || (Plain(a[id]) && IsEnvelope(c, b[id], a[id].value))
  }

  /** All of them have. */
  ghost predicate Rewritten(c: Cipher, a: Rows, b: Rows) {
    PartlyRewritten(c, a, b) && forall id | id in b :: !Plain(b[id])
  }

  /** Every envelope of `a` is its plaintext in `b`, and nothing else changed. */
  ghost predicate Restored(c: Cipher, a: Rows, b: Rows) {
    && a.Keys == b.Keys
    && forall id | id in a ::
      if Enveloped(a[id]) then c.dec(a[id].value) != None && b[id] == c.dec(a[id].value) else b[id] == a[id]
  }

  predicate AllReadable(c: Cipher, rows: Rows) {
    forall id | id in rows && Enveloped(rows[id]) :: c.dec(rows[id].value) != None
  }

  /** The application reads the same values before, during and after. */
  lemma ViewsKept(c: Cipher, a: Rows, b: Rows)
    requires PartlyRewritten(c, a, b)
    ensures forall id | id in a :: View(c, b[id]) == View(c, a[id])
    ensures forall id | id in a && a[id].Some? && (a[id].value == "" || !Untouched(a[id])) ::
      View(c, b[id]) == Text(a[id].value)
  {
  }

  /** What a rewrite leaves as it is: NULL, the empty string, and whatever carries either prefix. */
  predicate Untouched(v: Option<string>) {
    v == None || v.value == "" || "v1:" <= v.value || "v2:" <= v.value
  }

  /** A complete rewrite turns every other value into a version 2 envelope of itself, and touches nothing else. */
  lemma RewrittenMeans(c: Cipher, a: Rows, b: Rows)
    ensures Rewritten(c, a, b) <==>
      a.Keys == b.Keys && forall id | id in a ::
        if Untouched(a[id]) then b[id] == a[id] else IsEnvelope(c, b[id], a[id].value)
  {
    forall id | id in a ensures Plain(a[id]) <==> !Untouched(a[id]) { }
    forall id | id in b && b[id].Some? && "v2:" <= b[id].value ensures !Plain(b[id]) { }
  }

  /** A pass over a partly rewritten column completes the rewrite of the original one. */
  lemma PassesCompose(c: Cipher, a: Rows, m: Rows, b: Rows)
    requires PartlyRewritten(c, a, m) && PartlyRewritten(c, m, b)
    ensures PartlyRewritten(c, a, b)
    ensures Rewritten(c, m, b) ==> Rewritten(c, a, b)
    ensures Rewritten(c, a, m) ==> b == m
  {
  }

  /** Decrypting a rewritten column succeeds exactly when every value that had a prefix from the start decrypts, and
   *  then every row that began without a prefix is back as it was. */
  lemma RestoringARewrite(c: Cipher, a: Rows, b: Rows)
    requires Rewritten(c, a, b)
    ensures AllReadable(c, b) <==> AllReadable(c, a)
    ensures forall d | Restored(c, b, d) ::
      d.Keys == a.Keys && forall id | id in a :: d[id] == if Enveloped(a[id]) then c.dec(a[id].value) else a[id]
  {
  }

  /** A plaintext that happens to start with a prefix is taken for an envelope: it stays as it is, and cannot be
   *  read. */
  lemma PrefixedPlaintextIsSkipped(c: Cipher, a: Rows, b: Rows, id: Id, note: string)
    requires Rewritten(c, a, b) && id in a && a[id] == Some("v1:" + note) && c.dec("v1:" + note) == None
    ensures b[id] == a[id] && View(c, b[id]) == Unreadable && !AllReadable(c, b)
  {
  }

  /** A sound cipher that decrypts nothing but its own envelopes. */
  function Tagging(): Cipher {
    Cipher((_, s) => "v2:" + s, s => if "v2:" <= s then Some(s[3..]) else None)
  }

  /** Such a note, under such a cipher: the rewrite leaves the row and the downgrade is refused. */
  method NoteBlocksTheDowngrade() returns (ok: bool)
    ensures Sound(Tagging()) && !ok
  {
    assert forall s: string :: ("v2:" + s)[3..] == s;
    var c := new Columns(Tagging(), map["name" := map[0 := Some("v1:note")]]);
    assert "v1:" <= "v1:note" && "v1:note"[1] == '1' && "v2:"[1] == '2';
    assert !("v2:" <= "v1:note");
    assert Enveloped(c.columns["name"][0]) && c.cipher.dec("v1:note") == None;
    assert !AllReadable(c.cipher, c.columns["name"]);
    ok := RoundTrip(c, ["name"]);
  }

  /** The loop has still to look at `todo` and has encrypted `done`, which holds every plain row seen. */
  ghost predicate Midway(rows: Rows, todo: set<Id>, done: set<Id>) {
    && todo !! done
    && (forall id | id in todo :: id in rows && Selected(rows[id]))
    && (forall id | id in done :: id in rows && Plain(rows[id]))
    && (forall id | id in rows && Plain(rows[id]) :: id in todo || id in done)
  }

  /** Exactly the rows in `done` are envelopes of what they were. */
  ghost predicate Written(c: Cipher, rows: Rows, now: Rows, done: set<Id>) {
    && now.Keys == rows.Keys
    && (forall id | id in rows && id in done :: rows[id].Some? && IsEnvelope(c, now[id], rows[id].value))
    && (forall id | id in rows && id !in done :: now[id] == rows[id])
  }

  lemma WriteOne(c: Cipher, rows: Rows, now: Rows, done: set<Id>, id: Id, envelope: string)
    requires Written(c, rows, now, done) && id in rows
    requires rows[id].Some? && IsEnvelope(c, Some(envelope), rows[id].value)
    ensures Written(c, rows, now[id := Some(envelope)], done + {id})
  {
  }

  lemma AllWritten(c: Cipher, rows: Rows, now: Rows, done: set<Id>)
    requires Midway(rows, {}, done) && Written(c, rows, now, done)
    ensures Rewritten(c, rows, now) && done == PlainIds(rows)
  {
  }

  ghost predicate MidwayBack(rows: Rows, todo: set<Id>, done: set<Id>) {
    && todo !! done
    && (forall id | id in todo :: id in rows && Selected(rows[id]))
    && (forall id | id in done :: id in rows && Enveloped(rows[id]))
    && (forall id | id in rows && Enveloped(rows[id]) :: id in todo || id in done)
  }

  /** Exactly the rows in `done` are decrypted. */
  ghost predicate Unwritten(c: Cipher, rows: Rows, now: Rows, done: set<Id>) {
    && now.Keys == rows.Keys
    && (forall id | id in rows && id in done ::
      rows[id].Some? && c.dec(rows[id].value) != None && now[id] == c.dec(rows[id].value))
    && (forall id | id in rows && id !in done :: now[id] == rows[id])
  }

  lemma UnwriteOne(c: Cipher, rows: Rows, now: Rows, done: set<Id>, id: Id)
    requires Unwritten(c, rows, now, done) && id in rows && rows[id].Some? && c.dec(rows[id].value) != None
    ensures Unwritten(c, rows, now[id := c.dec(rows[id].value)], done + {id})
  {
  }

  lemma AllUnwritten(c: Cipher, rows: Rows, now: Rows, done: set<Id>)
    requires MidwayBack(rows, {}, done) && Unwritten(c, rows, now, done)
    ensures Restored(c, rows, now) && AllReadable(c, rows) && done == EnvelopedIds(rows)
  {
  }

  lemma Overwrites(columns: map<string, Rows>, name: string, a: Rows, b: Rows)
    ensures columns[name := a][name := b] == columns[name := b]
  {
  }

  class Columns {
    const cipher: Cipher
    var columns: map<string, Rows>
    var nonce: nat

    constructor (cipher: Cipher, columns: map<string, Rows>)
      ensures this.cipher == cipher && this.columns == columns
    {
      this.cipher, this.columns, nonce := cipher, columns, 0;
    }

    /** The result counts exactly the plain rows; only this column changes. */
    method EncryptColumn(name: string) returns (processed: nat)
      requires Sound(cipher) && name in columns
      modifies this
      ensures name in columns && columns == old(columns)[name := columns[name]]
      ensures Rewritten(cipher, old(columns)[name], columns[name])
      ensures processed == |PlainIds(old(columns)[name])|
    {
      var rows := columns[name];
      var todo := SelectedIds(rows);
      var column := rows;
      ghost var done: set<Id> := {};
      assert columns == columns[name := column];
      processed := 0;
      while todo != {}
        invariant Midway(rows, todo, done)
        invariant processed == |done|
        invariant columns == old(columns)[name := column]
        invariant Written(cipher, rows, column, done)
        decreases |todo|
      {
        var id :| id in todo;
        todo := todo - {id};
        if !Prefixed(rows[id].value) {
          var envelope := cipher.enc(nonce, rows[id].value);
          WriteOne(cipher, rows, column, done, id, envelope);
          nonce := nonce + 1;
          Overwrites(old(columns), name, column, column[id := Some(envelope)]);
          column := column[id := Some(envelope)];
          columns := columns[name := column];
          done := done + {id};
          processed := processed + 1;
        }
      }
      AllWritten(cipher, rows, column, done);
    }

    /** Fails exactly at a value with a prefix that does not decrypt. */
    method DecryptColumn(name: string) returns (ok: bool, processed: nat)
      requires name in columns
      modifies this`columns
      ensures name in columns && columns == old(columns)[name := columns[name]]
      ensures ok <==> AllReadable(cipher, old(columns)[name])
      ensures ok ==> Restored(cipher, old(columns)[name], columns[name])
      ensures ok ==> processed == |EnvelopedIds(old(columns)[name])|
    {
      var rows := columns[name];
      var todo := SelectedIds(rows);
      var column := rows;
      ghost var done: set<Id> := {};
      assert columns == columns[name := column];
      processed := 0;
      while todo != {}
        invariant MidwayBack(rows, todo, done)
        invariant processed == |done|
        invariant columns == old(columns)[name := column]
        invariant Unwritten(cipher, rows, column, done)
        decreases |todo|
      {
        var id :| id in todo;
        todo := todo - {id};
        if Prefixed(rows[id].value) {
          var plaintext := cipher.dec(rows[id].value);
          if plaintext == None { return false, processed; }
          UnwriteOne(cipher, rows, column, done, id);
          Overwrites(old(columns), name, column, column[id := plaintext]);
          column := column[id := plaintext];
          columns := columns[name := column];
          done := done + {id};
          processed := processed + 1;
        }
      }
      AllUnwritten(cipher, rows, column, done);
      ok := true;
    }

    method Upgrade(targets: seq<string>)
      requires Sound(cipher) && Targets(targets, columns)
      modifies this
      ensures columns.Keys == old(columns).Keys
      ensures forall name | name in columns ::
        if name in targets then Rewritten(cipher, old(columns)[name], columns[name])
          else columns[name] == old(columns)[name]
    {
      for i := 0 to |targets|
        invariant columns.Keys == old(columns).Keys
        invariant forall name | name in columns ::
          if name in targets[..i] then Rewritten(cipher, old(columns)[name], columns[name])
            else columns[name] == old(columns)[name]
      {
        assert targets[i] !in targets[..i];
        assert targets[..i + 1] == targets[..i] + [targets[i]];
        var _ := EncryptColumn(targets[i]);
      }
      assert targets[..|targets|] == targets;
    }

    /** One transaction: the first value that does not decrypt takes every column back. */
    method Downgrade(targets: seq<string>) returns (ok: bool)
      requires Targets(targets, columns)
      modifies this`columns
      ensures columns.Keys == old(columns).Keys
      ensures ok <==> forall name | name in targets :: AllReadable(cipher, old(columns)[name])
      ensures !ok ==> columns == old(columns)
      ensures ok ==> forall name | name in columns ::
        if name in targets then Restored(cipher, old(columns)[name], columns[name])
          else columns[name] == old(columns)[name]
    {
      var start := columns;
      for i := 0 to |targets|
        invariant columns.Keys == old(columns).Keys
        invariant forall name | name in targets[..i] :: AllReadable(cipher, start[name])
        invariant forall name | name in columns ::
          if name in targets[..i] then Restored(cipher, start[name], columns[name]) else columns[name] == start[name]
      {
        assert targets[i] !in targets[..i];
        assert targets[..i + 1] == targets[..i] + [targets[i]];
        var fine, _ := DecryptColumn(targets[i]);
        if !fine {
          assert targets[i] in targets;
          columns := start;
          return false;
        }
      }
      assert targets[..|targets|] == targets;
      return true;
    }
  }

  ghost predicate Targets(targets: seq<string>, columns: map<string, Rows>) {
    && (forall i | 0 <= i < |targets| :: targets[i] in columns)
    && (forall i, j | 0 <= i < j < |targets| :: targets[i] != targets[j])
  }

  /** Upgrade and downgrade: succeeds exactly when every value that began with a prefix decrypts, and brings back every
   *  other row. */
  method RoundTrip(c: Columns, targets: seq<string>) returns (ok: bool)
    requires Sound(c.cipher) && Targets(targets, c.columns)
    modifies c
    ensures c.columns.Keys == old(c.columns).Keys
    ensures ok <==> forall name | name in targets :: AllReadable(c.cipher, old(c.columns)[name])
    ensures forall name | name in c.columns && (ok || name !in targets) ::
      c.columns[name].Keys == old(c.columns)[name].Keys
    ensures ok ==>
      forall name, id | name in c.columns && id in c.columns[name] && !Enveloped(old(c.columns)[name][id]) ::
      c.columns[name][id] == old(c.columns)[name][id]
  {
    ghost var start := c.columns;
    c.Upgrade(targets);
    ghost var middle := c.columns;
    forall name | name in targets
      ensures AllReadable(c.cipher, middle[name]) <==> AllReadable(c.cipher, start[name])
      ensures forall d | Restored(c.cipher, middle[name], d) ::
        d.Keys == start[name].Keys && forall id | id in d ::
          d[id] == if Enveloped(start[name][id]) then c.cipher.dec(start[name][id].value) else start[name][id]
    {
      RestoringARewrite(c.cipher, start[name], middle[name]);
    }
    ok := c.Downgrade(targets);
  }
}
