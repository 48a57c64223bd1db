/** The user table behind the server: a contract for the insert and the lookup it performs. */
module Accounts {
  import opened Bytes
  import opened Payloads

  /** `rowid` comes from AUTOINCREMENT; only its low 32 bits leave the database. */
  datatype Row = Row(rowid: nat, name: Text, password: Text)

  datatype Database = Database(rows: seq<Row>, nextRowid: nat)

  datatype User = User(id: u32, name: Text, password: Text)

  /** Whether the library refuses the calls made for one request. */
  datatype Faults = Faults(lookup: bool, insert: bool)

  function UserId(r: Row): u32 {
    r.rowid % U32_LIMIT
  }

  /** The rows a lookup compares: bound text ends at its first NUL. */
  predicate Matches(r: Row, key: Text) {
    Lower(r.name) == CText(key)
  }

  /** get_user_by_username: the first row whose lower-cased name is the key. */
  function Lookup(rows: seq<Row>, key: Text): (u: Option<User>)
    ensures u.None? <==> forall r | r in rows :: !Matches(r, key)
    ensures u.Some? ==> exists r :: r in rows && Matches(r, key) && u.value == User(UserId(r), r.name, r.password)
  {
    if rows == [] then None
    else if Matches(rows[0], key) then Some(User(UserId(rows[0]), rows[0].name, rows[0].password))
    else
      var u := Lookup(rows[1..], key);
      assert u.Some? ==>
          exists r :: r in rows[1..] && Matches(r, key) && u.value == User(UserId(r), r.name, r.password);
      u
  }

  /**
   * A lookup finds nothing just when no stored name equals the given one up to letter
   * case, and such a row otherwise.
   */
  lemma {:induction false} LookupExact(rows: seq<Row>, name: Text)
    ensures var u := Lookup(rows, Lower(name));
            && (u.None? <==> forall r | r in rows :: !EqualUpToCase(r.name, CText(name)))
            && (u.Some? ==> exists r :: && r in rows && EqualUpToCase(r.name, CText(name))
                                        && u.value == User(UserId(r), r.name, r.password))
  {
    forall r: Row ensures Matches(r, Lower(name)) <==> EqualUpToCase(r.name, CText(name)) {
      KeyExact(r.name, name);
    }
  }

  /** The column is UNIQUE; text is cut at its first NUL on the way in. */
  predicate Taken(db: Database, name: Text) {
    exists r | r in db.rows :: r.name == CText(name)
  }

  function NewRow(db: Database, name: Text, password: Text): Row {
    Row(db.nextRowid, CText(name), CText(password))
  }

  /** insert_user. */
  function Insert(db: Database, name: Text, password: Text, refused: bool): Option<Database> {
    if refused || Taken(db, name) then None
    else Some(Database(db.rows + [NewRow(db, name, password)], db.nextRowid + 1))
  }

  predicate RowOk(r: Row) {
    |r.name| <= MAX_NAME && |r.password| <= MAX_PASSWORD && 0 !in r.name && 0 !in r.password
  }

  /** No two accounts share a name up to letter case, nor a row id. */
  predicate AccountsOk(db: Database) {
    && (forall r | r in db.rows :: RowOk(r) && r.rowid < db.nextRowid)
    && (forall j, k | 0 <= j < k < |db.rows| ::
          !EqualUpToCase(db.rows[j].name, db.rows[k].name) && db.rows[j].rowid != db.rows[k].rowid)
  }

  /** After a lookup that found nothing, the UNIQUE constraint cannot fail. */
  lemma {:induction false} FreeNameNotTaken(db: Database, name: Text)
    requires Lookup(db.rows, Lower(name)).None?
    ensures !Taken(db, name)
  {
    LowerCut(name);
    forall r | r in db.rows ensures r.name != CText(name) {
      assert !Matches(r, Lower(name));
    }
  }

  /** Registering a name that is free up to letter case keeps the table in order. */
  lemma {:induction false} InsertKeeps(db: Database, name: Text, password: Text)
    requires AccountsOk(db)
    requires |name| <= MAX_NAME && |password| <= MAX_PASSWORD
    requires Lookup(db.rows, Lower(name)).None?
    ensures Insert(db, name, password, false).Some?
    ensures AccountsOk(Insert(db, name, password, false).value)
  {
    FreeNameNotTaken(db, name);
    LookupExact(db.rows, name);
    var row := NewRow(db, name, password);
    var rows := db.rows + [row];
    forall j | 0 <= j < |db.rows| ensures !EqualUpToCase(db.rows[j].name, row.name) {
      assert db.rows[j] in db.rows;
    }
    forall r | r in rows ensures RowOk(r) && r.rowid < db.nextRowid + 1 {
      assert r in db.rows || r == row;
    }
  }

  /** At most one row equals a name up to letter case, and a lookup finds it. */
  lemma {:induction false} LookupFinds(db: Database, k: nat, name: Text)
    requires AccountsOk(db) && k < |db.rows| && EqualUpToCase(db.rows[k].name, CText(name))
    ensures Lookup(db.rows, Lower(name)) == Some(User(UserId(db.rows[k]), db.rows[k].name, db.rows[k].password))
  {
    LookupExact(db.rows, name);
    assert db.rows[k] in db.rows;
    var u := Lookup(db.rows, Lower(name)).value;
    var r :| r in db.rows && EqualUpToCase(r.name, CText(name)) && u == User(UserId(r), r.name, r.password);
    OneRow(db, k, r, name);
  }

  lemma {:induction false} OneRow(db: Database, k: nat, r: Row, name: Text)
    requires AccountsOk(db) && k < |db.rows| && r in db.rows
    requires EqualUpToCase(db.rows[k].name, CText(name)) && EqualUpToCase(r.name, CText(name))
    ensures r == db.rows[k]
  {
    var j :| 0 <= j < |db.rows| && db.rows[j] == r;
    SharedCase(r.name, db.rows[k].name, CText(name));
    SharedCase(db.rows[k].name, r.name, CText(name));
    assert j == k;
  }

  lemma {:induction false} SharedCase(s: Text, t: Text, u: Text)
    requires EqualUpToCase(s, u) && EqualUpToCase(t, u)
    ensures EqualUpToCase(s, t)
  {
  }
}
