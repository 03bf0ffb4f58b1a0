/** The session: one connection and a depth counter, with savepoints for nested blocks. */
module Session {
  import opened Wrappers
  import opened TransactionSemantics

  class Engine {
    var durable: Store

    constructor (durable: Store)
      ensures this.durable == durable
    {
      this.durable := durable;
    }
  }

  /**
   * A database connection: what its transaction sees, whether the server has aborted it, and its
   * savepoints in the order they were set.
   */
  class Connection {
    var working: Store
    var aborted: bool
    var savepoints: seq<Store>

    constructor (engine: Engine)
      ensures working == engine.durable && !aborted && savepoints == []
    {
      working := engine.durable;
      aborted := false;
      savepoints := [];
    }

    /** Set a savepoint, which its place names. */
    method BeginNested() returns (ok: bool)
      modifies this
      ensures ok == !old(aborted) && working == old(working) && aborted == old(aborted)
      ensures savepoints == if ok then old(savepoints) + [old(working)] else old(savepoints)
    {
      ok := !aborted;
      if ok { savepoints := savepoints + [working]; }
    }

    /** Release the savepoint and all that were set after it. */
    method Release(place: nat) returns (ok: bool)
      requires place < |savepoints|
      modifies this
      ensures ok == !old(aborted) && working == old(working) && aborted == old(aborted)
      ensures savepoints == if ok then old(savepoints)[..place] else old(savepoints)
    {
      ok := !aborted;
      if ok { savepoints := savepoints[..place]; }
    }

    /** Go back to the savepoint, which stays set; those set after it are gone. */
    method RollbackTo(place: nat)
      requires place < |savepoints|
      modifies this
      ensures working == old(savepoints)[place] && !aborted && savepoints == old(savepoints)[..place + 1]
    {
      working := savepoints[place];
      aborted := false;
      savepoints := savepoints[..place + 1];
    }
  }

  class PostgresSession {
    const engine: Engine
    var connection: Connection?
    var explicitDepth: nat

    constructor (engine: Engine)
      ensures this.engine == engine && connection == null && explicitDepth == 0
    {
      this.engine := engine;
      connection := null;
      explicitDepth := 0;
    }

    ghost predicate Valid()
      reads this
    {
      explicitDepth > 0 ==> connection != null
    }

    ghost function CurrentView(): View
      reads this, engine, connection
    {
      View(engine.durable,
           if connection == null then None else Some(if connection.aborted then Aborted else Alive(connection.working)),
           explicitDepth)
    }

    /** A write: without a connection it opens one and keeps it; an aborted transaction refuses it. */
    method ExecuteWrite(key: string, value: string) returns (normal: bool)
      requires Valid()
      modifies this`connection, connection
      ensures Valid() && Done(CurrentView(), normal) == AfterWrite(old(CurrentView()), key, value)
      ensures connection == old(connection) || connection == null || fresh(connection)
      ensures explicitDepth > 0 ==> connection == old(connection) && connection.savepoints == old(connection.savepoints)
    {
      if connection == null { connection := new Connection(engine); }
      if connection.aborted {
        DiscardFailedImplicitConnection(connection);
        return false;
      }
      connection.working := connection.working[key := value];
      normal := true;
    }

    /** A write the server rejects: its transaction is aborted, and an implicit connection is given up. */
    method ExecuteRejected()
      requires Valid()
      modifies this`connection, connection
      ensures Valid() && CurrentView() == Refused(old(CurrentView()))
      ensures connection == old(connection) || connection == null
      ensures explicitDepth > 0 ==> connection == old(connection) && connection.savepoints == old(connection.savepoints)
    {
      if connection == null { connection := new Connection(engine); }
      connection.aborted := true;
      DiscardFailedImplicitConnection(connection);
    }

    method DiscardFailedImplicitConnection(failed: Connection)
      modifies this`connection
      ensures connection == if explicitDepth != 0 || old(connection) != failed then old(connection) else null
    {
      if explicitDepth != 0 || connection != failed { return; }
      connection := null;
    }

    /** Run a program; the result says whether it ended normally or with an exception. */
    method Run(p: Program) returns (normal: bool)
      requires Valid()
      modifies this, engine, connection
      ensures Valid() && Done(CurrentView(), normal) == Exec(p, old(CurrentView()))
      ensures connection == old(connection) || connection == null || fresh(connection)
      ensures old(explicitDepth) > 0 ==>
                connection == old(connection) && old(connection.savepoints) <= connection.savepoints
      decreases p, 0
    {
      match p
      case Skip =>
        normal := true;
      case Write(key, value) =>
        normal := ExecuteWrite(key, value);
      case RejectedWrite =>
        ExecuteRejected();
        normal := false;
      case Raise =>
        normal := false;
      case Then(a, b) =>
        DepthIsRestored(a, CurrentView());
        normal := Run(a);
        if normal { normal := Run(b); }
      case Catch(a, h) =>
        DepthIsRestored(a, CurrentView());
        normal := Run(a);
        if !normal { normal := Run(h); }
      case Block(b) =>
        normal := Transaction(b);
    }

    /** `with transaction(): inner`. */
    method Transaction(inner: Program) returns (normal: bool)
      requires Valid()
      modifies this, engine, connection
      ensures Valid() && Done(CurrentView(), normal) == Exec(Block(inner), old(CurrentView()))
      ensures connection == old(connection)
      ensures old(connection) != null ==> old(connection.savepoints) <= connection.savepoints
      decreases inner, 1
    {
      var outermost, place := connection == null, 0;
      if outermost {
        connection := new Connection(engine);
      } else {
        place := |connection.savepoints|;
        var entered := connection.BeginNested();
        if !entered { return false; }
      }
      explicitDepth := explicitDepth + 1;
      InsideABlock(inner, CurrentView());
      label inside:
      normal := Run(inner);
      assert connection == old@inside(connection) && old@inside(connection.savepoints) <= connection.savepoints;
      if outermost {
        if normal && !connection.aborted { engine.durable := connection.working; }
      } else if normal {
        normal := connection.Release(place);
      } else {
        connection.RollbackTo(place);
      }
      explicitDepth := explicitDepth - 1;
      if outermost { connection := null; }
    }
  }

  /**
   * A session that starts idle gives every program without writes outside blocks, whose blocks let
   * rejections out, its plain meaning, and ends idle.
   */
  method RunFromIdle(session: PostgresSession, p: Program) returns (normal: bool)
    requires session.connection == null && session.explicitDepth == 0
    requires !WritesOutside(p) && BlocksLetRejectionsOut(p)
    modifies session, session.engine
    ensures normal == Normal(p)
    ensures session.engine.durable == Snapshot(p, old(session.engine.durable))
    ensures session.connection == null && session.explicitDepth == 0
  {
    IdleSessionRefinesSnapshots(p, session.engine.durable);
    normal := session.Run(p);
  }
}
