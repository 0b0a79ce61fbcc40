/** The proposal status store: a string-keyed database that behaves as a table over (source, destination, nonce). */
module PropStore {
  import opened Decimal

  datatype Triple = Triple(source: nat, destination: nat, nonce: nat)

  datatype PropStatus = Missing | Pending | Failed | Executed

  type Table = map<Triple, PropStatus>

  /** A proposal that was never written is missing. */
  function Status(table: Table, t: Triple): PropStatus {
    if t in table then table[t] else Missing
  }

  function Text(status: PropStatus): string {
    match status
    case Missing => "missing"
    case Pending => "pending"
    case Failed => "failed"
    case Executed => "executed"
  }

  function ParseText(text: string): PropStatus {
    if text == "executed" then Executed
    else if text == "pending" then Pending
    else if text == "failed" then Failed
    else Missing
  }

  lemma ParseTextInverts(status: PropStatus)
    ensures ParseText(Text(status)) == status
  { }

  function Key(t: Triple): string {
    "source:" + (Print(t.source) + (":destination:" + (Print(t.destination) + (":depositNonce:" + Print(t.nonce)))))
  }

  lemma SamePrefix(prefix: string, x: string, y: string)
    requires prefix + x == prefix + y
    ensures x == y
  {
    assert x == (prefix + x)[|prefix|..] && y == (prefix + y)[|prefix|..];
  }

  /** Different proposals never share a database key. */
  lemma KeyIsInjective(t: Triple, u: Triple)
    requires Key(t) == Key(u)
    ensures t == u
  {
    var nonceT, nonceU := ":depositNonce:" + Print(t.nonce), ":depositNonce:" + Print(u.nonce);
    var destT := ":destination:" + (Print(t.destination) + nonceT);
    var destU := ":destination:" + (Print(u.destination) + nonceU);
    SamePrefix("source:", Print(t.source) + destT, Print(u.source) + destU);
    NumeralEndsAtNonDigit(Print(t.source), destT, Print(u.source), destU);
    SamePrefix(":destination:", Print(t.destination) + nonceT, Print(u.destination) + nonceU);
    NumeralEndsAtNonDigit(Print(t.destination), nonceT, Print(u.destination), nonceU);
    SamePrefix(":depositNonce:", Print(t.nonce), Print(u.nonce));
    PrintIsInjective(t.source, u.source);
    PrintIsInjective(t.destination, u.destination);
    PrintIsInjective(t.nonce, u.nonce);
  }

  type Database = map<string, string>

  function Read(db: Database, t: Triple): PropStatus {
    if Key(t) in db then ParseText(db[Key(t)]) else Missing
  }

  ghost predicate Represents(db: Database, table: Table) {
    forall t :: Read(db, t) == Status(table, t)
  }

  lemma WriteRepresents(db: Database, table: Table, t: Triple, status: PropStatus)
    requires Represents(db, table)
    ensures Represents(db[Key(t) := Text(status)], table[t := status])
  {
    var db', table' := db[Key(t) := Text(status)], table[t := status];
    forall u ensures Read(db', u) == Status(table', u) {
      ParseTextInverts(status);
      assert Read(db, u) == Status(table, u);
      if Key(u) == Key(t) {
        KeyIsInjective(u, t);
      }
    }
  }

  datatype Op = Write(t: Triple, status: PropStatus) | Lookup(t: Triple)

  /** What a history of calls reads from the database. */
  function DatabaseReads(db: Database, ops: seq<Op>): seq<PropStatus>
    decreases |ops|
  {
    if ops == [] then []
    else match ops[0]
      case Write(t, status) => DatabaseReads(db[Key(t) := Text(status)], ops[1..])
      case Lookup(t) => [Read(db, t)] + DatabaseReads(db, ops[1..])
  }

  /** What the same history reads from a table. */
  function TableReads(table: Table, ops: seq<Op>): seq<PropStatus>
    decreases |ops|
  {
    if ops == [] then []
    else match ops[0]
      case Write(t, status) => TableReads(table[t := status], ops[1..])
      case Lookup(t) => [Status(table, t)] + TableReads(table, ops[1..])
  }

  /** No history of writes and reads can tell the database from the table. */
  lemma {:induction false} StoreRefinesTable(db: Database, table: Table, ops: seq<Op>)
    requires Represents(db, table)
    ensures DatabaseReads(db, ops) == TableReads(table, ops)
    decreases |ops|
  {
    if ops != [] {
      match ops[0] {
        case Write(t, status) =>
          WriteRepresents(db, table, t, status);
          StoreRefinesTable(db[Key(t) := Text(status)], table[t := status], ops[1..]);
        case Lookup(t) =>
          StoreRefinesTable(db, table, ops[1..]);
      }
    }
  }

  class Store {
    var db: Database
    ghost var table: Table

    ghost predicate Valid()
      reads this
    {
      Represents(db, table)
    }

    constructor ()
      ensures Valid() && table == map[]
    {
      db, table := map[], map[];
    }

    /** A failing database leaves everything as it was. */
    method StorePropStatus(t: Triple, status: PropStatus, dbFails: bool) returns (ok: bool)
      requires Valid()
      modifies this
      ensures Valid() && ok == !dbFails
      ensures table == if ok then old(table)[t := status] else old(table)
    {
      if dbFails {
        return false;
      }
      WriteRepresents(db, table, t, status);
      db := db[Key(t) := Text(status)];
      table := table[t := status];
      return true;
    }

    method GetPropStatus(t: Triple, dbFails: bool) returns (status: PropStatus, ok: bool)
      requires Valid()
      ensures ok == !dbFails
      ensures status == if ok then Status(table, t) else Missing
    {
      if dbFails {
        return Missing, false;
      }
      assert Read(db, t) == Status(table, t);
      if Key(t) !in db {
        return Missing, true;
      }
      return ParseText(db[Key(t)]), true;
    }
  }
}
