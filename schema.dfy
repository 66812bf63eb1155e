/**
 * The schema installer of `src/schema.rs`: inside one transaction, count the
 * tables; if there are none, execute the non-blank `;`-separated pieces of
 * `schema.sql` in order and commit.
 *
 * What a statement does is SQLite's business; the installer sees only whether
 * it succeeded, so the engine is given as the answers the driver returns.
 */
module Schema {
  import opened Wrappers
  import Sqlx
  import RustStr

  /** What executing one statement does: create some tables, or fail. */
  datatype Outcome = Executed(tablesCreated: nat) | Rejected(error: Sqlx.Error)

  /** The driver's answers to `begin`, the table count query, each statement and `commit`. */
  datatype Engine = Engine(
    begin: Option<Sqlx.Error>,
    countQuery: Option<Sqlx.Error>,
    execute: string -> Outcome,
    commit: Option<Sqlx.Error>)

  /** A piece of the script that `trim` leaves empty. */
  predicate Blank(piece: string) {
    RustStr.Trim(piece) == []
  }

  /** The pieces that are not blank, untrimmed and in their order. */
  function NonBlank(pieces: seq<string>): (kept: seq<string>)
    decreases |pieces|
  {
    if pieces == [] then []
    else
      var last := pieces[|pieces| - 1];
      NonBlank(pieces[..|pieces| - 1]) + (if Blank(last) then [] else [last])
  }

  /** The statements the installer executes for `script`. */
  function Commands(script: string): seq<string> {
    NonBlank(RustStr.Split(script, ';'))
  }

  /** The error of the first rejected statement, if any is rejected. */
  function FirstRejection(engine: Engine, cmds: seq<string>): Option<Sqlx.Error>
    decreases |cmds|
  {
    if cmds == [] then None
    else
      match FirstRejection(engine, cmds[..|cmds| - 1])
      case Some(e) => Some(e)
      case None =>
        match engine.execute(cmds[|cmds| - 1])
        case Rejected(e) => Some(e)
        case Executed(_) => None
  }

  /** The number of tables the statements create. */
  function TablesCreated(engine: Engine, cmds: seq<string>): nat
    decreases |cmds|
  {
    if cmds == [] then 0
    else
      TablesCreated(engine, cmds[..|cmds| - 1]) +
      match engine.execute(cmds[|cmds| - 1])
      case Executed(n) => n
      case Rejected(_) => 0
  }

  lemma {:induction false} NonBlankAppend(a: seq<string>, b: seq<string>)
    ensures NonBlank(a + b) == NonBlank(a) + NonBlank(b)
    decreases |b|
  {
    if b != [] {
      var b' := b[..|b| - 1];
      assert (a + b)[..|a + b| - 1] == a + b';
      NonBlankAppend(a, b');
    } else {
      assert a + b == a;
    }
  }

  /** Exactly the non-blank pieces are kept. */
  lemma {:induction false} NonBlankKeeps(pieces: seq<string>, c: string)
    ensures c in NonBlank(pieces) <==> c in pieces && !Blank(c)
    decreases |pieces|
  {
    if pieces != [] {
      var init := pieces[..|pieces| - 1];
      NonBlankKeeps(init, c);
      assert pieces == init + [pieces[|pieces| - 1]];
    }
  }

  lemma {:induction false} FirstRejectionAppend(engine: Engine, a: seq<string>, b: seq<string>)
    ensures FirstRejection(engine, a + b) ==
      if FirstRejection(engine, a).Some? then FirstRejection(engine, a) else FirstRejection(engine, b)
    decreases |b|
  {
    if b != [] {
      var b' := b[..|b| - 1];
      assert (a + b)[..|a + b| - 1] == a + b';
      FirstRejectionAppend(engine, a, b');
    } else {
      assert a + b == a;
    }
  }

  /** One more piece: it is kept exactly when it is not blank. */
  lemma NonBlankStep(pieces: seq<string>, i: nat)
    requires i < |pieces|
    ensures NonBlank(pieces[..i + 1]) == NonBlank(pieces[..i]) + (if Blank(pieces[i]) then [] else [pieces[i]])
  {
    assert pieces[..i + 1][..i] == pieces[..i];
  }

  /** A rejected statement makes it the first rejection of the whole script. */
  lemma RejectionAborts(engine: Engine, pieces: seq<string>, i: nat, e: Sqlx.Error)
    requires i < |pieces| && !Blank(pieces[i]) && engine.execute(pieces[i]) == Rejected(e)
    requires FirstRejection(engine, NonBlank(pieces[..i])) == None
    ensures FirstRejection(engine, NonBlank(pieces)) == Some(e)
  {
    var done := NonBlank(pieces[..i]) + [pieces[i]];
    NonBlankStep(pieces, i);
    assert done[..|done| - 1] == NonBlank(pieces[..i]);
    assert FirstRejection(engine, done) == Some(e);
    assert pieces == pieces[..i + 1] + pieces[i + 1..];
    NonBlankAppend(pieces[..i + 1], pieces[i + 1..]);
    FirstRejectionAppend(engine, done, NonBlank(pieces[i + 1..]));
  }

  /**
   * A script with a blank piece and a trailing `;`: the blank piece and the
   * empty last piece are skipped, and the second statement keeps its leading
   * newline.
   */
  lemma CommandsOfSmallScript()
    ensures Commands("a; ;\nb;") == ["a", "\nb"]
  {
    SmallScriptPieces();
    SmallScriptKept();
  }

  lemma SmallScriptPieces()
    ensures RustStr.Split("a; ;\nb;", ';') == ["a", " ", "\nb", ""]
  {
    assert "a; ;\nb;" == "a" + [';'] + (" " + [';'] + ("\nb" + [';'] + ""));
    ThreeTerminated("a", " ", "\nb");
  }

  lemma ThreeTerminated(p0: string, p1: string, p2: string)
    requires ';' !in p0 && ';' !in p1 && ';' !in p2
    ensures RustStr.Split(p0 + [';'] + (p1 + [';'] + (p2 + [';'] + "")), ';') == [p0, p1, p2, ""]
  {
    RustStr.SplitPrefix(p2, "", ';');
    RustStr.SplitPrefix(p1, p2 + [';'] + "", ';');
    RustStr.SplitPrefix(p0, p1 + [';'] + (p2 + [';'] + ""), ';');
  }

  lemma SmallScriptBlanks()
    ensures !Blank("a") && Blank(" ") && !Blank("\nb") && Blank("")
  {
    RustStr.TrimEmptyIffWhitespace("a");
    RustStr.TrimEmptyIffWhitespace(" ");
    RustStr.TrimEmptyIffWhitespace("\nb");
    assert !RustStr.IsWhitespace("a"[0]) && !RustStr.IsWhitespace("\nb"[1]);
  }

  lemma SmallScriptKept()
    ensures NonBlank(["a", " ", "\nb", ""]) == ["a", "\nb"]
  {
    SmallScriptBlanks();
    KeepFirstAndThird("a", " ", "\nb", "");
  }

  lemma KeepFirstAndThird(p0: string, p1: string, p2: string, p3: string)
    requires !Blank(p0) && Blank(p1) && !Blank(p2) && Blank(p3)
    ensures NonBlank([p0, p1, p2, p3]) == [p0, p2]
  {
    NonBlankSnoc([], p0);
    assert [] + [p0] == [p0];
    NonBlankSnoc([p0], p1);
    assert [p0] + [p1] == [p0, p1];
    NonBlankSnoc([p0, p1], p2);
    assert [p0, p1] + [p2] == [p0, p1, p2];
    NonBlankSnoc([p0, p1, p2], p3);
    assert [p0, p1, p2] + [p3] == [p0, p1, p2, p3];
  }

  lemma NonBlankSnoc(pieces: seq<string>, p: string)
    ensures NonBlank(pieces + [p]) == NonBlank(pieces) + (if Blank(p) then [] else [p])
  {
    assert (pieces + [p])[..|pieces|] == pieces;
  }

  /** The database: its table count, and the statements committed to it so far. */
  class Database {
    /** `select count(*) from sqlite_schema where type = 'table'`. */
    var tableCount: nat
    var applied: seq<string>

    constructor ()
      ensures tableCount == 0 && applied == []
    {
      tableCount, applied := 0, [];
    }
  }

  /**
   * `install_schema`. Nothing reaches the database unless every statement
   * succeeded and the commit did: an early return drops the transaction,
   * which rolls it back.
   */
  method InstallSchema(db: Database, script: string, engine: Engine) returns (r: Result<Unit, Sqlx.Error>)
    modifies db
    ensures engine.begin.Some? ==> r == Err(engine.begin.value)
    ensures engine.begin.None? && engine.countQuery.Some? ==> r == Err(engine.countQuery.value)
    ensures engine.begin.None? && engine.countQuery.None? && old(db.tableCount) > 0 ==> r == Ok(Unit)
    ensures (engine.begin.Some? || engine.countQuery.Some? || old(db.tableCount) > 0) ==> unchanged(db)
    ensures engine.begin.None? && engine.countQuery.None? && old(db.tableCount) == 0 ==>
      var cmds := Commands(script);
      match FirstRejection(engine, cmds)
      case Some(e) => r == Err(e) && unchanged(db)
      case None =>
        if engine.commit.Some? then r == Err(engine.commit.value) && unchanged(db)
        else
          && r == Ok(Unit)
          && db.applied == old(db.applied) + cmds
          && db.tableCount == old(db.tableCount) + TablesCreated(engine, cmds)
    ensures r.Err? ==> unchanged(db)
  {
    var commands := RustStr.Split(script, ';');
    if engine.begin.Some? {
      return Err(engine.begin.value);
    }
    if engine.countQuery.Some? {
      return Err(engine.countQuery.value);
    }
    var tablesCount := db.tableCount;
    if tablesCount > 0 {
      return Ok(Unit);
    }
    var executed, pending, created := ExecuteCommands(commands, engine);
    if executed.Err? {
      return executed;
    }
    if engine.commit.Some? {
      return Err(engine.commit.value);
    }
    db.applied := db.applied + pending;
    db.tableCount := db.tableCount + created;
    r := Ok(Unit);
  }

  /**
   * The `for` loop of `install_schema`: executes each non-blank piece, as it
   * is and not trimmed, inside the transaction, stopping at the first error.
   * `pending` is the work the transaction holds when the loop ends.
   */
  method ExecuteCommands(commands: seq<string>, engine: Engine) returns (r: Result<Unit, Sqlx.Error>, pending: seq<string>, created: nat)
    ensures r == match FirstRejection(engine, NonBlank(commands)) case Some(e) => Err(e) case None => Ok(Unit)
    ensures r.Ok? ==> pending == NonBlank(commands) && created == TablesCreated(engine, pending)
  {
    pending, created := [], 0;
    for i := 0 to |commands|
      invariant pending == NonBlank(commands[..i])
      invariant FirstRejection(engine, pending) == None
      invariant created == TablesCreated(engine, pending)
    {
      var command := commands[i];
      var commandTrimmed := RustStr.Trim(command);
      NonBlankStep(commands, i);
      if commandTrimmed != [] {
        match engine.execute(command) {
          case Rejected(e) =>
            RejectionAborts(engine, commands, i, e);
            return Err(e), pending, created;
          case Executed(n) =>
            pending := pending + [command];
            created := created + n;
        }
      }
    }
    assert commands[..|commands|] == commands;
    r := Ok(Unit);
  }

  /**
   * Installing twice: once a run has committed a schema that creates a table,
   * the second run executes nothing and changes nothing.
   */
  method InstallTwice(db: Database, script: string, engine: Engine) returns (first: Result<Unit, Sqlx.Error>, second: Result<Unit, Sqlx.Error>)
    requires db.tableCount == 0
    requires engine.begin.None? && engine.countQuery.None? && engine.commit.None?
    requires FirstRejection(engine, Commands(script)).None? && TablesCreated(engine, Commands(script)) > 0
    modifies db
    ensures first == Ok(Unit) && second == Ok(Unit)
    ensures db.applied == old(db.applied) + Commands(script)
    ensures db.tableCount == TablesCreated(engine, Commands(script))
  {
    first := InstallSchema(db, script, engine);
    second := InstallSchema(db, script, engine);
  }
}
