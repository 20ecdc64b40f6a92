/** The database bootstrap: the schema file is split into statements and
    run, followed by the seed, only when the database has no table; a
    module-level flag makes `ensureInitialized` run this at most once after
    it succeeds, and every `query` and `getConnection` goes through it first.

    The server's answers are inputs: `tableCount` is what `SHOW TABLES`
    returns, `failAt == Some(k)` makes the k-th schema statement raise and
    `seedFails` makes the seed raise. */
module Connection {
  import opened Base

  /** One piece trimmed, and kept when something is left. */
  function Kept(piece: string): (r: Option<string>)
    ensures r.Some? ==> r.value == Trim(piece) && r.value != ""
    ensures r.None? <==> Trim(piece) == ""
  {
    var t := Trim(piece);
    if t == "" then None else Some(t)
  }

  /** `.map(s => s.trim()).filter(s => s.length > 0)`: every piece trimmed,
      the empty results dropped, the order kept. */
  function Statements(parts: seq<string>): seq<string>
  {
    FilterMap(parts, Kept)
  }

  /** Every statement is non-empty and trimmed. */
  lemma StatementsClean(parts: seq<string>)
    ensures forall s :: s in Statements(parts) ==> s != "" && Trimmed(s)
  {
    FilterMapMembers(parts, Kept);
    forall s | s in Statements(parts) ensures s != "" && Trimmed(s) {
      var k :| 0 <= k < |parts| && Kept(parts[k]) == Some(s);
    }
  }

  /** `schema.split(';').map(s => s.trim()).filter(s => s.length > 0)` */
  function SplitStatements(schema: string): (r: seq<string>)
    ensures forall s :: s in r ==> s != "" && ';' !in s && Trimmed(s)
  {
    SplitPiecesFree(schema, ';');
    StatementsKeepOut(Split(schema, ';'), ';');
    StatementsClean(Split(schema, ';'));
    Statements(Split(schema, ';'))
  }

  /** A character absent from every piece is absent from every statement. */
  lemma StatementsKeepOut(parts: seq<string>, c: char)
    requires forall p :: p in parts ==> c !in p
    ensures forall s :: s in Statements(parts) ==> c !in s
  {
    FilterMapMembers(parts, Kept);
    forall s | s in Statements(parts) ensures c !in s {
      var k :| 0 <= k < |parts| && Kept(parts[k]) == Some(s);
      assert parts[k] in parts;
      if c in s {
        TrimKeeps(parts[k], c);
      }
    }
  }

  /** Pieces that are already trimmed and non-empty pass through unchanged. */
  lemma StatementsOfClean(parts: seq<string>)
    requires forall k :: 0 <= k < |parts| ==> parts[k] != "" && Trimmed(parts[k])
    ensures Statements(parts) == parts
  {
    forall k | 0 <= k < |parts| ensures Kept(parts[k]) == Some(parts[k]) {
      TrimStable(parts[k]);
    }
    FilterMapEach(parts, Kept, parts);
  }

  /** The pieces are handled one by one, so a split list can be handled in
      two halves. */
  lemma StatementsAppend(a: seq<string>, b: seq<string>)
    ensures Statements(a + b) == Statements(a) + Statements(b)
  {
    FilterMapAppend(a, b, Kept);
  }

  /** Statements that are already trimmed, non-empty and free of `;` come
      back, in order, from splitting the text that joins them with `;`. */
  lemma SplitJoinedStatements(stmts: seq<string>)
    requires |stmts| >= 1
    requires forall s :: s in stmts ==> s != "" && ';' !in s && Trimmed(s)
    ensures SplitStatements(Join(stmts, ';')) == stmts
  {
    SplitJoin(stmts, ';');
    assert forall k :: 0 <= k < |stmts| ==> stmts[k] in stmts;
    StatementsOfClean(stmts);
  }

  /** Blank pieces, such as the one after a final `;`, are dropped. */
  lemma BlankPiecesDropped(schema: string)
    ensures SplitStatements(schema + ";") == SplitStatements(schema)
  {
    var pieces := Split(schema, ';');
    SplitSnoc(schema);
    StatementsAppend(pieces, [""]);
    BlankPiece();
    assert Statements(pieces + [""]) == Statements(pieces);
  }

  lemma BlankPiece()
    ensures Statements([""]) == []
  {
    assert Trim("") == "";
    assert [""][1..] == [];
  }

  /** Appending the separator adds one empty piece. */
  lemma {:induction false} SplitSnoc(s: string)
    ensures Split(s + ";", ';') == Split(s, ';') + [""]
  {
    if s == [] {
      assert s + ";" == [';'];
      assert Split([';'][1..], ';') == [""];
    } else {
      SplitSnoc(s[1..]);
      assert (s + ";")[1..] == s[1..] + ";";
    }
  }

  /** The bootstrap state of the server process. `schema` is the text of
      `schema.sql` and `statements` what `initDatabase` splits it into; the
      file does not change while the process runs, so both are fixed when
      the object is made.

      `initDatabase` loads `seed.ts` with `await import('./seed')`. As
      written, that module ends with a top-level `seedDatabase()` whose
      settling calls `process.exit`, so the import starts a seed run of its
      own beside the awaited one and then ends the server process.
      `seedGuarded` is the intended module, whose top-level run does not
      happen on import. */
  class Database {
    const statements: seq<string>
    /** Whether `seed.ts` keeps its top-level run from happening on import. */
    const seedGuarded: bool
    /** `isInitialized` */
    var isInitialized: bool
    /** The statements the bootstrap has sent, in order. */
    var executed: seq<string>
    /** How many seed runs have been started. */
    var seedRuns: nat
    /** The statements handed to the pool, in order. */
    var poolLog: seq<string>
    /** `process.exit` has been called; no later call runs. */
    var exited: bool

    constructor (schema: string, seedGuarded: bool)
      ensures statements == SplitStatements(schema) && this.seedGuarded == seedGuarded
      ensures !isInitialized && executed == [] && seedRuns == 0 && poolLog == [] && !exited
    {
      statements := SplitStatements(schema);
      this.seedGuarded := seedGuarded;
      isInitialized, executed, seedRuns, poolLog, exited := false, [], 0, [], false;
    }

    /** Does one of the schema statements raise? */
    predicate SchemaFails(failAt: Option<nat>) {
      failAt.Some? && failAt.value < |statements|
    }

    /** The loop over the split schema: the statements before the failing
        one are sent, in order. */
    method RunStatements(failAt: Option<nat>) returns (ok: bool)
      modifies this
      ensures ok <==> !SchemaFails(failAt)
      ensures ok ==> executed == old(executed) + statements
      ensures !ok ==> executed == old(executed) + statements[..failAt.value]
      ensures isInitialized == old(isInitialized) && seedRuns == old(seedRuns) && poolLog == old(poolLog)
      ensures exited == old(exited)
    {
      var i := 0;
      while i < |statements|
        invariant 0 <= i <= |statements|
        invariant !(failAt.Some? && failAt.value < i)
        invariant executed == old(executed) + statements[..i]
        invariant isInitialized == old(isInitialized) && seedRuns == old(seedRuns) && poolLog == old(poolLog)
        invariant exited == old(exited)
      {
        if failAt == Some(i) {
          return false;
        }
        assert statements[..i + 1] == statements[..i] + [statements[i]];
        executed := executed + [statements[i]];
        i := i + 1;
      }
      assert statements[..i] == statements;
      ok := true;
    }

    /** `initDatabase`: the schema and the seed run only on a database with
        no table. `false` means it raised or did not return. `seedFails`
        makes the awaited seed raise; `importSettlesFirst` says the seed run
        the import started settles, and so ends the process, before the
        awaited one returns. */
    method InitDatabase(tableCount: nat, failAt: Option<nat>, seedFails: bool, importSettlesFirst: bool)
      returns (ok: bool)
      modifies this
      ensures tableCount > 0 ==> ok && executed == old(executed) && seedRuns == old(seedRuns) && exited == old(exited)
      ensures tableCount == 0 && SchemaFails(failAt) ==>
        && !ok && executed == old(executed) + statements[..failAt.value]
        && seedRuns == old(seedRuns) && exited == old(exited)
      ensures tableCount == 0 && !SchemaFails(failAt) ==>
        && executed == old(executed) + statements
        && seedRuns == old(seedRuns) + (if seedGuarded then 1 else 2)
        && exited == (old(exited) || !seedGuarded)
        && (ok <==> !seedFails && (seedGuarded || !importSettlesFirst))
      ensures isInitialized == old(isInitialized) && poolLog == old(poolLog)
    {
      if tableCount != 0 {
        return true;
      }
      ok := RunStatements(failAt);
      if !ok {
        return false;
      }
      if !seedGuarded {
        seedRuns := seedRuns + 1;
        exited := true;
      }
      seedRuns := seedRuns + 1;
      ok := !seedFails && (seedGuarded || !importSettlesFirst);
    }

    /** `ensureInitialized`. `false` means the initialisation raised or the
        process ended; the flag then stays down. */
    method EnsureInitialized(production: bool, tableCount: nat, failAt: Option<nat>, seedFails: bool,
                             importSettlesFirst: bool)
      returns (ok: bool)
      modifies this
      ensures old(exited) ==> !ok && exited && isInitialized == old(isInitialized)
      ensures old(exited) || old(isInitialized) || production ==> executed == old(executed) && seedRuns == old(seedRuns)
      ensures !old(exited) && (old(isInitialized) || production) ==> ok && isInitialized && exited == old(exited)
      ensures ok ==> isInitialized
      ensures !old(exited) ==> (ok <==> isInitialized)
      ensures old(seedRuns) <= seedRuns <= old(seedRuns) + (if seedGuarded then 1 else 2)
      ensures seedRuns > old(seedRuns) ==> !old(exited) && !old(isInitialized) && !production && tableCount == 0
      ensures seedRuns > old(seedRuns) ==> (exited <==> !seedGuarded)
      ensures seedRuns == old(seedRuns) || seedGuarded ==> exited == old(exited)
      ensures old(FirstBoot(production, tableCount, failAt)) ==>
        && seedRuns == old(seedRuns) + (if seedGuarded then 1 else 2) && exited == !seedGuarded
        && (ok <==> !seedFails && (seedGuarded || !importSettlesFirst))
      ensures poolLog == old(poolLog)
    {
      if exited {
        return false;
      }
      if !isInitialized {
        if !production {
          ok := InitDatabase(tableCount, failAt, seedFails, importSettlesFirst);
          if !ok {
            return false;
          }
        }
        isInitialized := true;
      }
      ok := true;
    }

    /** A call that finds the flag down, outside production, on a database
        with no table, and whose schema runs through. */
    predicate FirstBoot(production: bool, tableCount: nat, failAt: Option<nat>)
      reads this
    {
      !exited && !isInitialized && !production && tableCount == 0 && !SchemaFails(failAt)
    }

    /** `query`: the statement reaches the pool only after the bootstrap
        has succeeded. */
    method Query(sql: string, production: bool, tableCount: nat, failAt: Option<nat>, seedFails: bool,
                 importSettlesFirst: bool)
      returns (reached: bool)
      modifies this
      ensures reached ==> isInitialized
      ensures !old(exited) ==> (reached <==> isInitialized)
      ensures old(seedRuns) <= seedRuns <= old(seedRuns) + (if seedGuarded then 1 else 2)
      ensures seedRuns > old(seedRuns) ==> !old(exited) && !old(isInitialized) && !production && tableCount == 0
      ensures seedRuns > old(seedRuns) ==> (exited <==> !seedGuarded)
      ensures seedRuns == old(seedRuns) || seedGuarded ==> exited == old(exited)
      ensures old(FirstBoot(production, tableCount, failAt)) ==>
        && seedRuns == old(seedRuns) + (if seedGuarded then 1 else 2) && exited == !seedGuarded
        && (reached <==> !seedFails && (seedGuarded || !importSettlesFirst))
      ensures reached ==> poolLog == old(poolLog) + [sql]
      ensures !reached ==> poolLog == old(poolLog)
      ensures old(exited) ==> !reached && executed == old(executed) && seedRuns == old(seedRuns)
      ensures !old(exited) && old(isInitialized) ==> reached && executed == old(executed) && seedRuns == old(seedRuns)
    {
      reached := EnsureInitialized(production, tableCount, failAt, seedFails, importSettlesFirst);
      if reached {
        poolLog := poolLog + [sql];
      }
    }

    /** `getConnection`: the same gate in front of the pool. */
    method GetConnection(production: bool, tableCount: nat, failAt: Option<nat>, seedFails: bool,
                         importSettlesFirst: bool)
      returns (reached: bool)
      modifies this
      ensures reached ==> isInitialized
      ensures !old(exited) ==> (reached <==> isInitialized)
      ensures poolLog == old(poolLog)
      ensures old(exited) ==> !reached && executed == old(executed) && seedRuns == old(seedRuns)
      ensures !old(exited) && old(isInitialized) ==> reached && executed == old(executed) && seedRuns == old(seedRuns)
    {
      reached := EnsureInitialized(production, tableCount, failAt, seedFails, importSettlesFirst);
    }
  }

  /** Two queries in a row. Once the first has gone through without a seed,
      the second runs no bootstrap statement and no seed, whatever the
      database says. A first query that seeded has, as written, ended the
      process, so the second never runs. */
  method TwoQueries(db: Database, a: string, b: string, production: bool, tables1: nat, tables2: nat,
                    fail1: Option<nat>, fail2: Option<nat>, seed1: bool, seed2: bool, settle1: bool, settle2: bool)
    returns (first: bool, second: bool)
    modifies db
    ensures first && db.seedRuns == old(db.seedRuns) ==> second && db.poolLog == old(db.poolLog) + [a, b]
    ensures first && db.seedRuns > old(db.seedRuns) ==> (second <==> db.seedGuarded)
    ensures first && db.seedGuarded ==> second && db.seedRuns <= old(db.seedRuns) + 1
  {
    first := db.Query(a, production, tables1, fail1, seed1, settle1);
    ghost var runs := db.seedRuns;
    second := db.Query(b, production, tables2, fail2, seed2, settle2);
    if first {
      assert db.seedRuns == runs;
    }
  }

  /** On a first boot outside production against an empty database, as
      written, the seed runs twice and the process ends: the second request
      gets no answer. */
  method FirstBootExits(schema: string, a: string, b: string, seedFails: bool, settles: bool)
    returns (db: Database, first: bool, second: bool)
    ensures fresh(db) && !db.seedGuarded
    ensures db.seedRuns == 2 && db.exited
    ensures !second && db.poolLog == (if first then [a] else [])
  {
    db := new Database(schema, false);
    first := db.Query(a, false, 0, None, seedFails, settles);
    second := db.Query(b, false, 1, None, seedFails, settles);
  }

  /** The same boot with the intended `seed.ts`: the seed runs once, the
      process stays up, and once the first request has gone through the
      second one, which finds the tables in place, is served. */
  method FirstBootServes(schema: string, a: string, b: string, seedFails: bool, settles: bool)
    returns (db: Database, first: bool, second: bool)
    ensures fresh(db) && db.seedGuarded
    ensures db.seedRuns == 1 && !db.exited
    ensures first <==> !seedFails
    ensures first ==> second && db.poolLog == [a, b]
  {
    db := new Database(schema, true);
    first := db.Query(a, false, 0, None, seedFails, settles);
    second := db.Query(b, false, 1, None, seedFails, settles);
  }
}
