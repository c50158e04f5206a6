/**
  LOCK, UNLOCK and state PUT on a Terraform plan.  Each request is a sequence of separate
  database transactions.  `Advance` is one such transaction of one request; the three handlers
  below run it to an answer while other requests change the table in between.
 */
module TerraformLock {
  import opened Wrappers
  import opened ConfigTable

  datatype Lock = Lock(
    ID: string, Operation: string, Info: string, Who: string,
    Version: string, Created: string, Path: string)

  const EMPTY_LOCK := Lock("", "", "", "", "", "", "")

  /** The JSON encoding of locks. */
  datatype Codec = Codec(marshal: Lock -> string, unmarshal: string -> Option<Lock>) {
    ghost predicate Faithful() {
      forall l: Lock :: unmarshal(marshal(l)) == Some(l)
    }
  }

  predicate SameHolder(a: Lock, b: Lock) {
    a.ID == b.ID && a.Operation == b.Operation && a.Who == b.Who
  }

  function LockKey(plan: string): string { "tflock-" + plan }

  function StateKey(plan: string): string { "tfstate-" + plan }

  /** The lock and state rows of all plans are pairwise different rows. */
  lemma KeysAreDistinct(p: string, q: string)
    ensures LockKey(p) == LockKey(q) <==> p == q
    ensures StateKey(p) == StateKey(q) <==> p == q
    ensures LockKey(p) != StateKey(q)
    ensures LockKey(p) == "tflock-" + p && StateKey(p) == "tfstate-" + p
  {
    assert LockKey(p)[2] == 'l' && StateKey(q)[2] == 's';
    assert LockKey(p)[7..] == p && LockKey(q)[7..] == q;
    assert StateKey(p)[8..] == p && StateKey(q)[8..] == q;
  }

  datatype Request =
    | LockPut(plan: string, lock: Lock)
    | UnlockPut(plan: string, lock: Lock)
    | StatePut(plan: string, lockId: string, state: string)
  {
    /** The lock ID that the request speaks for. */
    function ID(): string {
      if StatePut? then lockId else lock.ID
    }
  }

  /** What a handler returns: the lock of the answer, and the status when there is an error. */
  datatype Reply = Fine(dbLock: Lock) | Failed(dbLock: Lock, status: Status)

  /** How far a request has come. */
  datatype Stage =
    | Received
    | LockMissing                    // LOCK read no row and is about to create one
    | LockContested                  // LOCK failed to create and is about to read again
    | UnlockMatched(read: Lock)      // UNLOCK read its own lock and is about to delete
    | WriteAllowed(read: Lock)       // PUT read its own lock ID and is about to write
    | Answered(reply: Reply)

  type Rows = map<string, string>

  /** The stored lock is somebody's: the answer that LOCK gives. */
  function Refusal(c: Codec, reqLock: Lock, lockInDb: string): Stage {
    match c.unmarshal(lockInDb)
    case None => Answered(Failed(EMPTY_LOCK, Internal))
    case Some(dbLock) => Answered(Failed(dbLock, if SameHolder(dbLock, reqLock) then Locked else Conflict))
  }

  function LockStep(c: Codec, req: Request, stage: Stage, rows: Rows): (Stage, Rows)
    requires req.LockPut?
  {
    var key := LockKey(req.plan);
    match stage
    case Received =>
      if key in rows then (Refusal(c, req.lock, rows[key]), rows) else (LockMissing, rows)
    case LockMissing =>
      if key in rows then (LockContested, rows)
      else (Answered(Fine(EMPTY_LOCK)), rows[key := c.marshal(req.lock)])
    case LockContested =>
      if key in rows then (Refusal(c, req.lock, rows[key]), rows)
      else (Answered(Failed(EMPTY_LOCK, NotFound)), rows)
    case _ => (stage, rows)
  }

  function UnlockStep(c: Codec, req: Request, stage: Stage, rows: Rows): (Stage, Rows)
    requires req.UnlockPut?
  {
    var key := LockKey(req.plan);
    match stage
    case Received =>
      if key !in rows then (Answered(Fine(EMPTY_LOCK)), rows)
      else (match c.unmarshal(rows[key])
            case None => (Answered(Failed(EMPTY_LOCK, Internal)), rows)
            case Some(dbLock) =>
              if SameHolder(dbLock, req.lock) then (UnlockMatched(dbLock), rows)
              else (Answered(Failed(dbLock, Conflict)), rows))
    case UnlockMatched(dbLock) =>
      if key in rows then (Answered(Fine(dbLock)), rows - {key})
      else (Answered(Failed(dbLock, NotFound)), rows)
    case _ => (stage, rows)
  }

  function StateStep(c: Codec, req: Request, stage: Stage, rows: Rows): (Stage, Rows)
    requires req.StatePut?
  {
    var key := LockKey(req.plan);
    match stage
    case Received =>
      if key !in rows then (Answered(Failed(EMPTY_LOCK, NotFound)), rows)
      else (match c.unmarshal(rows[key])
            case None => (Answered(Failed(EMPTY_LOCK, Internal)), rows)
            case Some(dbLock) =>
              if req.lockId != dbLock.ID then (Answered(Failed(dbLock, Conflict)), rows)
              else (WriteAllowed(dbLock), rows))
    case WriteAllowed(dbLock) =>
      (Answered(Fine(dbLock)), rows[StateKey(req.plan) := req.state])
    case _ => (stage, rows)
  }

  /** The lock that a handler returns next to the error of a failed transaction. */
  function LockSoFar(stage: Stage): Lock {
    if stage.UnlockMatched? || stage.WriteAllowed? then stage.read else EMPTY_LOCK
  }

  /** One transaction of a request; a faulted transaction answers with an internal error. */
  function Advance(c: Codec, req: Request, stage: Stage, rows: Rows, fault: bool): (Stage, Rows)
    requires !stage.Answered?
  {
    if fault then (Answered(Failed(LockSoFar(stage), Internal)), rows)
    else match req
      case LockPut(_, _) => LockStep(c, req, stage, rows)
      case UnlockPut(_, _) => UnlockStep(c, req, stage, rows)
      case StatePut(_, _, _) => StateStep(c, req, stage, rows)
  }

  /** A request that runs without faults and without others in between. */
  function Alone(c: Codec, req: Request, stage: Stage, rows: Rows, steps: nat): (Stage, Rows)
    decreases steps
  {
    if steps == 0 || stage.Answered? then (stage, rows)
    else
      var (stage', rows') := Advance(c, req, stage, rows, false);
      Alone(c, req, stage', rows', steps - 1)
  }

  /** LOCK alone: it takes a free lock, and otherwise names the one that is stored. */
  lemma LockAlone(c: Codec, p: string, l: Lock, rows: Rows)
    ensures var (stage, rows') := Alone(c, LockPut(p, l), Received, rows, 3);
            var key := "tflock-" + p;
            && (key !in rows ==> stage == Answered(Fine(EMPTY_LOCK)) && rows' == rows[key := c.marshal(l)])
            && (key in rows ==> rows' == rows && match c.unmarshal(rows[key])
                  case None => stage == Answered(Failed(EMPTY_LOCK, Internal))
                  case Some(db) =>
                    stage == Answered(Failed(db,
                      if db.ID == l.ID && db.Operation == l.Operation && db.Who == l.Who then Locked else Conflict)))
  {
    KeysAreDistinct(p, p);
    var (stage1, rows1) := Advance(c, LockPut(p, l), Received, rows, false);
    assert Alone(c, LockPut(p, l), Received, rows, 3) == Alone(c, LockPut(p, l), stage1, rows1, 2);
  }

  /** UNLOCK alone: it deletes its own lock, refuses another's, and is content with none. */
  lemma UnlockAlone(c: Codec, p: string, l: Lock, rows: Rows)
    ensures var (stage, rows') := Alone(c, UnlockPut(p, l), Received, rows, 2);
            var key := "tflock-" + p;
            && (key !in rows ==> stage == Answered(Fine(EMPTY_LOCK)) && rows' == rows)
            && (key in rows ==> match c.unmarshal(rows[key])
                  case None => stage == Answered(Failed(EMPTY_LOCK, Internal)) && rows' == rows
                  case Some(db) =>
                    if db.ID == l.ID && db.Operation == l.Operation && db.Who == l.Who
                    then stage == Answered(Fine(db)) && rows' == rows - {key}
                    else stage == Answered(Failed(db, Conflict)) && rows' == rows)
  {
    KeysAreDistinct(p, p);
    var (stage1, rows1) := Advance(c, UnlockPut(p, l), Received, rows, false);
    assert Alone(c, UnlockPut(p, l), Received, rows, 2) == Alone(c, UnlockPut(p, l), stage1, rows1, 1);
  }

  /** PUT alone: it stores its state, new or not, when the stored lock has its ID. */
  lemma StatePutAlone(c: Codec, p: string, id: string, state: string, rows: Rows)
    ensures var (stage, rows') := Alone(c, StatePut(p, id, state), Received, rows, 2);
            var key := "tflock-" + p;
            && (key !in rows ==> stage == Answered(Failed(EMPTY_LOCK, NotFound)) && rows' == rows)
            && (key in rows ==> match c.unmarshal(rows[key])
                  case None => stage == Answered(Failed(EMPTY_LOCK, Internal)) && rows' == rows
                  case Some(db) =>
                    if db.ID == id then stage == Answered(Fine(db)) && rows' == rows["tfstate-" + p := state]
                    else stage == Answered(Failed(db, Conflict)) && rows' == rows)
  {
    KeysAreDistinct(p, p);
    var (stage1, rows1) := Advance(c, StatePut(p, id, state), Received, rows, false);
    assert Alone(c, StatePut(p, id, state), Received, rows, 2) == Alone(c, StatePut(p, id, state), stage1, rows1, 1);
  }

  // ------------------------------------------------------------------ the handlers

  /** One transaction as it met the table, and the table it left. */
  datatype Tx = Tx(before: Rows, fault: bool, after: Rows)

  /** The stage that these transactions bring a request to; None when they are not its own. */
  ghost function StageAfter(c: Codec, req: Request, txs: seq<Tx>): Option<Stage> {
    if txs == [] then Some(Received)
    else
      var tx := txs[|txs| - 1];
      match StageAfter(c, req, txs[..|txs| - 1])
      case None => None
      case Some(stage) =>
        if stage.Answered? then None
        else
          var (stage', rows') := Advance(c, req, stage, tx.before, tx.fault);
          if rows' == tx.after then Some(stage') else None
  }

  lemma OneMoreTransaction(c: Codec, req: Request, txs: seq<Tx>, tx: Tx, stage: Stage)
    requires StageAfter(c, req, txs) == Some(stage) && !stage.Answered?
    requires Advance(c, req, stage, tx.before, tx.fault).1 == tx.after
    ensures StageAfter(c, req, txs + [tx]) == Some(Advance(c, req, stage, tx.before, tx.fault).0)
  {
    assert (txs + [tx])[..|txs|] == txs;
  }

  /** The transactions bring the request to this answer, and the last of them left the table as it is. */
  ghost predicate Ran(c: Codec, req: Request, txs: seq<Tx>, reply: Reply, rows: Rows) {
    Reached(c, req, txs, Answered(reply), rows)
  }

  /** The transactions bring the request to this stage, and the last of them left the table as it is. */
  ghost predicate Reached(c: Codec, req: Request, txs: seq<Tx>, stage: Stage, rows: Rows) {
    txs != [] && StageAfter(c, req, txs) == Some(stage) && txs[|txs| - 1].after == rows
  }

  /** The transaction that reads the stored lock, which the first and the third stage of LOCK begin with. */
  method ReadLock(c: Codec, db: Table, ghost req: Request, name: string, ghost stage: Stage, ghost met: seq<Tx>)
    returns (lockInDb: Result<string>, ghost met': seq<Tx>)
    requires db.Valid() && req.plan == name && StageAfter(c, req, met) == Some(stage)
    requires stage.Received? || (stage.LockContested? && req.LockPut?)
    modifies db
    ensures db.Valid() && (lockInDb.Ok? ==> LockKey(name) in db.View() && lockInDb.value == db.View()[LockKey(name)])
    ensures lockInDb == Err(NotFound) ==> LockKey(name) !in db.View()
    ensures lockInDb.Err? ==> lockInDb.status == NotFound || lockInDb.status == Internal
    ensures Reached(c, req, met', Advance(c, req, stage, db.View(), lockInDb == Err(Internal)).0, db.View())
    ensures lockInDb == Err(Internal) <==> met'[|met'| - 1].fault
  {
    db.OtherRequests();
    var fault;
    lockInDb, fault := db.GetConfig(LockKey(name));
    ghost var tx := Tx(db.View(), fault, db.View());
    OneMoreTransaction(c, req, met, tx, stage);
    met' := met + [tx];
  }

  method CreateLock(c: Codec, db: Table, ghost req: Request, name: string, lock: Lock, ghost met: seq<Tx>)
    returns (created: Result<()>, ghost met': seq<Tx>)
    requires db.Valid() && req == LockPut(name, lock) && StageAfter(c, req, met) == Some(LockMissing)
    modifies db
    ensures db.Valid()
    ensures match created
            case Ok(_) => Reached(c, req, met', Answered(Fine(EMPTY_LOCK)), db.View())
            case Err(Conflict) => Reached(c, req, met', LockContested, db.View())
            case Err(status) => Reached(c, req, met', Answered(Failed(EMPTY_LOCK, status)), db.View())
    ensures created.Ok? ==> LockKey(name) in db.View() && db.View()[LockKey(name)] == c.marshal(lock)
    ensures created.Err? ==> created.status == Conflict || (created.status == Internal && met' != [] && met'[|met'| - 1].fault)
  {
    db.OtherRequests();
    ghost var before := db.View();
    var fault;
    created, fault := db.CreateConfig(LockKey(name), c.marshal(lock));
    ghost var tx := Tx(before, fault, db.View());
    OneMoreTransaction(c, req, met, tx, LockMissing);
    met' := met + [tx];
  }

  method RemoveLock(c: Codec, db: Table, ghost req: Request, name: string, dbLock: Lock, ghost met: seq<Tx>)
    returns (deleted: Result<()>, ghost met': seq<Tx>)
    requires db.Valid() && req.UnlockPut? && req.plan == name && StageAfter(c, req, met) == Some(UnlockMatched(dbLock))
    modifies db
    ensures db.Valid()
    ensures Reached(c, req, met', Answered(if deleted.Ok? then Fine(dbLock) else Failed(dbLock, deleted.status)), db.View())
    ensures deleted.Ok? || deleted == Err(NotFound) ==> LockKey(name) !in db.View()
    ensures deleted.Err? ==> deleted.status == NotFound || (deleted.status == Internal && met'[|met'| - 1].fault)
  {
    db.OtherRequests();
    ghost var before := db.View();
    var fault;
    deleted, fault := db.DeleteConfig(LockKey(name));
    ghost var tx := Tx(before, fault, db.View());
    OneMoreTransaction(c, req, met, tx, UnlockMatched(dbLock));
    met' := met + [tx];
  }

  method WriteState(c: Codec, db: Table, ghost req: Request, name: string, state: string, ghost dbLock: Lock, ghost met: seq<Tx>)
    returns (written: Result<()>, ghost met': seq<Tx>)
    requires db.Valid() && req.StatePut? && req.plan == name && req.state == state
    requires StageAfter(c, req, met) == Some(WriteAllowed(dbLock))
    modifies db
    ensures db.Valid()
    ensures Reached(c, req, met', Answered(if written.Ok? then Fine(dbLock) else Failed(dbLock, written.status)), db.View())
    ensures written.Ok? ==> StateKey(name) in db.View() && db.View()[StateKey(name)] == state
    ensures written.Err? ==> written.status == Internal && met'[|met'| - 1].fault
  {
    db.OtherRequests();
    ghost var before := db.View();
    var fault;
    written, fault := db.UpdateConfig(StateKey(name), state);
    ghost var tx := Tx(before, fault, db.View());
    OneMoreTransaction(c, req, met, tx, WriteAllowed(dbLock));
    met' := met + [tx];
  }

  /** What went wrong when the answer is an internal error: the last transaction, or the stored lock is unreadable. */
  ghost predicate Broken(c: Codec, met: seq<Tx>, rows: Rows, key: string) {
    met != [] && (met[|met| - 1].fault || (key in rows && c.unmarshal(rows[key]).None?))
  }

  /** PUT terraformlock/{name} */
  method UpdateTerraformLock(c: Codec, db: Table, name: string, lock: string)
    returns (reply: Reply, ghost met: seq<Tx>)
    requires db.Valid()
    modifies db
    ensures db.Valid()
    ensures c.unmarshal(lock).None? ==> reply == Failed(EMPTY_LOCK, Internal) && db.View() == old(db.View())
    ensures c.unmarshal(lock).Some? ==>
              Ran(c, LockPut(name, c.unmarshal(lock).value), met, reply, db.View())
    ensures c.unmarshal(lock).Some? ==>
              var key, mine := "tflock-" + name, c.unmarshal(lock).value;
              match reply
              case Fine(_) => key in db.View() && db.View()[key] == c.marshal(mine)
              case Failed(_, NotFound) => key !in db.View()
              case Failed(_, Internal) => Broken(c, met, db.View(), key)
              case Failed(theirs, status) =>
                && key in db.View() && c.unmarshal(db.View()[key]) == Some(theirs)
                && (status == Locked <==> theirs.ID == mine.ID && theirs.Operation == mine.Operation && theirs.Who == mine.Who)
  {
    KeysAreDistinct(name, name);
    met := [];
    var parsed := c.unmarshal(lock);
    if parsed.None? {
      return Failed(EMPTY_LOCK, Internal), met;
    }
    var reqLock := parsed.value;
    ghost var req := LockPut(name, reqLock);

    var lockInDb;
    lockInDb, met := ReadLock(c, db, req, name, Received, met);
    if lockInDb.Err? {
      if lockInDb.status != NotFound {
        return Failed(EMPTY_LOCK, Internal), met;
      }
      var created;
      created, met := CreateLock(c, db, req, name, reqLock, met);
      if created.Ok? {
        return Fine(EMPTY_LOCK), met;
      }
      if created.status != Conflict {
        return Failed(EMPTY_LOCK, created.status), met;
      }
      lockInDb, met := ReadLock(c, db, req, name, LockContested, met);
      if lockInDb.Err? {
        return Failed(EMPTY_LOCK, lockInDb.status), met;
      }
    }

    var stored := c.unmarshal(lockInDb.value);
    if stored.None? {
      return Failed(EMPTY_LOCK, Internal), met;
    }
    var dbLock := stored.value;
    if dbLock.ID == reqLock.ID && dbLock.Operation == reqLock.Operation && dbLock.Who == reqLock.Who {
      return Failed(dbLock, Locked), met;
    }
    return Failed(dbLock, Conflict), met;
  }

  /** PUT terraformunlock/{name} */
  method DeleteTerraformLock(c: Codec, db: Table, name: string, lock: string)
    returns (reply: Reply, ghost met: seq<Tx>)
    requires db.Valid()
    modifies db
    ensures db.Valid()
    ensures c.unmarshal(lock).None? ==> reply == Failed(EMPTY_LOCK, Internal) && db.View() == old(db.View())
    ensures c.unmarshal(lock).Some? ==>
              Ran(c, UnlockPut(name, c.unmarshal(lock).value), met, reply, db.View())
    ensures c.unmarshal(lock).Some? ==>
              var key, mine := "tflock-" + name, c.unmarshal(lock).value;
              match reply
              case Fine(_) => key !in db.View()
              case Failed(_, NotFound) => key !in db.View()
              case Failed(_, Internal) => Broken(c, met, db.View(), key)
              case Failed(theirs, status) =>
                && status == Conflict && key in db.View() && c.unmarshal(db.View()[key]) == Some(theirs)
                && !(theirs.ID == mine.ID && theirs.Operation == mine.Operation && theirs.Who == mine.Who)
  {
    KeysAreDistinct(name, name);
    met := [];
    var parsed := c.unmarshal(lock);
    if parsed.None? {
      return Failed(EMPTY_LOCK, Internal), met;
    }
    var reqLock := parsed.value;
    ghost var req := UnlockPut(name, reqLock);

    var lockInDb;
    lockInDb, met := ReadLock(c, db, req, name, Received, met);
    if lockInDb.Err? {
      if lockInDb.status == NotFound {
        return Fine(EMPTY_LOCK), met;
      }
      return Failed(EMPTY_LOCK, lockInDb.status), met;
    }
    var stored := c.unmarshal(lockInDb.value);
    if stored.None? {
      return Failed(EMPTY_LOCK, Internal), met;
    }
    var dbLock := stored.value;
    if dbLock.ID == reqLock.ID && dbLock.Operation == reqLock.Operation && dbLock.Who == reqLock.Who {
      var deleted;
      deleted, met := RemoveLock(c, db, req, name, dbLock, met);
      return if deleted.Ok? then Fine(dbLock) else Failed(dbLock, deleted.status), met;
    }
    return Failed(dbLock, Conflict), met;
  }

  /** PUT terraformstate/{name}?ID={lockID} */
  method UpdateTerraformState(c: Codec, db: Table, name: string, lockID: string, state: string)
    returns (reply: Reply, ghost met: seq<Tx>)
    requires db.Valid()
    modifies db
    ensures db.Valid()
    ensures Ran(c, StatePut(name, lockID, state), met, reply, db.View())
    ensures var key := "tflock-" + name;
            match reply
            case Fine(mine) => mine.ID == lockID && "tfstate-" + name in db.View() && db.View()["tfstate-" + name] == state
            case Failed(_, NotFound) => key !in db.View()
            case Failed(_, Internal) => Broken(c, met, db.View(), key)
            case Failed(theirs, status) =>
              && status == Conflict && key in db.View() && c.unmarshal(db.View()[key]) == Some(theirs) && theirs.ID != lockID
  {
    KeysAreDistinct(name, name);
    met := [];
    ghost var req := StatePut(name, lockID, state);

    var lockInDb;
    lockInDb, met := ReadLock(c, db, req, name, Received, met);
    if lockInDb.Err? {
      return Failed(EMPTY_LOCK, lockInDb.status), met;
    }
    var stored := c.unmarshal(lockInDb.value);
    if stored.None? {
      return Failed(EMPTY_LOCK, Internal), met;
    }
    var dbLock := stored.value;
    if lockID != dbLock.ID {
      return Failed(dbLock, Conflict), met;
    }

    var written;
    written, met := WriteState(c, db, req, name, state, dbLock, met);
    return if written.Ok? then Fine(dbLock) else Failed(dbLock, written.status), met;
  }
}
