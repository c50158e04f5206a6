/**
  Any number of clients talking to the lock service: a schedule issues requests and runs their
  transactions one at a time, in any order.  Every schedule is one interleaving.
 */
module LockProtocol {
  import opened Wrappers
  import opened ConfigTable
  import opened TerraformLock

  datatype Flight = Flight(req: Request, stage: Stage)

  /** The config table, and every request issued so far in the order of issue. */
  datatype State = State(rows: Rows, flights: seq<Flight>)

  /**
    A client issues a request, or the next transaction of request `r` runs.  A transaction may
    fault, and its answer may be lost: the client then sees an error although it committed.
   */
  datatype Action =
    | Issue(req: Request)
    | Transact(r: nat, fault: bool, lost: bool)

  ghost predicate Pending(s: State, r: nat) {
    r < |s.flights| && !s.flights[r].stage.Answered?
  }

  ghost predicate Enabled(s: State, a: Action) {
    a.Transact? ==> Pending(s, a.r)
  }

  /** What the transaction would do if its answer were not lost. */
  ghost function Outcome(c: Codec, s: State, a: Action): (Stage, Rows)
    requires a.Transact? && Enabled(s, a)
  {
    Advance(c, s.flights[a.r].req, s.flights[a.r].stage, s.rows, a.fault)
  }

  ghost function Apply(c: Codec, s: State, a: Action): State
    requires Enabled(s, a)
  {
    match a
    case Issue(req) => s.(flights := s.flights + [Flight(req, Received)])
    case Transact(r, fault, lost) =>
      var (stage, rows) := Outcome(c, s, a);
      var seen := if lost then Answered(Failed(EMPTY_LOCK, Internal)) else stage;
      State(rows, s.flights[r := s.flights[r].(stage := seen)])
  }

  /** A schedule whose actions are all possible when they are taken. */
  ghost predicate Legal(c: Codec, s: State, acts: seq<Action>)
    decreases |acts|
  {
    acts == [] || (Enabled(s, acts[0]) && Legal(c, Apply(c, s, acts[0]), acts[1..]))
  }

  /** The state after the first `n` actions. */
  ghost function After(c: Codec, s: State, acts: seq<Action>, n: nat): State
    requires Legal(c, s, acts) && n <= |acts|
    decreases n
  {
    if n == 0 then s else After(c, Apply(c, s, acts[0]), acts[1..], n - 1)
  }

  lemma {:induction false} AfterStep(c: Codec, s: State, acts: seq<Action>, n: nat)
    requires Legal(c, s, acts) && n < |acts|
    ensures Enabled(After(c, s, acts, n), acts[n])
    ensures After(c, s, acts, n + 1) == Apply(c, After(c, s, acts, n), acts[n])
    decreases n
  {
    if n > 0 {
      AfterStep(c, Apply(c, s, acts[0]), acts[1..], n - 1);
    }
  }

  // ------------------------------------------------------------------ with any clients at all

  /** LOCK request `a.r` takes the lock of plan `p`: its handler returns without an error. */
  ghost predicate Acquires(c: Codec, s: State, a: Action, p: string) {
    && a.Transact? && Enabled(s, a)
    && s.flights[a.r].req.LockPut? && s.flights[a.r].req.plan == p
    && Outcome(c, s, a).0 == Answered(Fine(EMPTY_LOCK))
  }

  /** UNLOCK request `a.r` commits the deletion of the lock row of plan `p`. */
  ghost predicate Releases(c: Codec, s: State, a: Action, p: string) {
    && a.Transact? && Enabled(s, a)
    && s.flights[a.r].req.UnlockPut? && s.flights[a.r].req.plan == p
    && s.flights[a.r].stage.UnlockMatched?
    && LockKey(p) in s.rows && !a.fault
  }

  /** PUT request `a.r` commits its write of the state of plan `p`. */
  ghost predicate Writes(c: Codec, s: State, a: Action, p: string) {
    && a.Transact? && Enabled(s, a)
    && s.flights[a.r].req.StatePut? && s.flights[a.r].req.plan == p
    && s.flights[a.r].stage.WriteAllowed? && !a.fault
  }

  /** Only these three kinds of transaction change rows, and each changes its own row of its own plan. */
  lemma RowChanges(c: Codec, s: State, a: Action, p: string)
    requires Enabled(s, a)
    ensures var s' := Apply(c, s, a);
            && (LockKey(p) !in s.rows && LockKey(p) in s'.rows <==> Acquires(c, s, a, p))
            && (LockKey(p) in s.rows && LockKey(p) !in s'.rows <==> Releases(c, s, a, p))
            && (LockKey(p) in s.rows && LockKey(p) in s'.rows ==> s'.rows[LockKey(p)] == s.rows[LockKey(p)])
            && (StateKey(p) in s.rows ==> StateKey(p) in s'.rows)
            && (!Writes(c, s, a, p) && StateKey(p) in s'.rows ==>
                  StateKey(p) in s.rows && s'.rows[StateKey(p)] == s.rows[StateKey(p)])
            && (Writes(c, s, a, p) ==> StateKey(p) in s'.rows && s'.rows[StateKey(p)] == s.flights[a.r].req.state)
            && (Acquires(c, s, a, p) ==> s'.rows[LockKey(p)] == c.marshal(s.flights[a.r].req.lock))
  {
    if a.Transact? {
      var q := s.flights[a.r].req.plan;
      KeysAreDistinct(p, q);
      KeysAreDistinct(q, p);
    }
  }

  lemma {:induction false} LossNeedsRelease(c: Codec, s: State, acts: seq<Action>, i: nat, j: nat, p: string)
    requires Legal(c, s, acts) && i <= j <= |acts|
    requires LockKey(p) in After(c, s, acts, i).rows && LockKey(p) !in After(c, s, acts, j).rows
    ensures exists k :: i <= k < j && Releases(c, After(c, s, acts, k), acts[k], p)
  {
    var k := j - 1;
    AfterStep(c, s, acts, k);
    RowChanges(c, After(c, s, acts, k), acts[k], p);
    if LockKey(p) !in After(c, s, acts, k).rows {
      LossNeedsRelease(c, s, acts, i, k, p);
    }
  }

  lemma AcquisitionAddsRow(c: Codec, s: State, acts: seq<Action>, i: nat, p: string)
    requires Legal(c, s, acts) && i < |acts| && Acquires(c, After(c, s, acts, i), acts[i], p)
    ensures LockKey(p) !in After(c, s, acts, i).rows && LockKey(p) in After(c, s, acts, i + 1).rows
  {
    AfterStep(c, s, acts, i);
    RowChanges(c, After(c, s, acts, i), acts[i], p);
  }

  /** At most one LOCK on a plan succeeds between two committed deletions of its lock row. */
  lemma OneAcquisitionPerRelease(c: Codec, s: State, acts: seq<Action>, i: nat, j: nat, p: string)
    requires Legal(c, s, acts) && i < j < |acts|
    requires Acquires(c, After(c, s, acts, i), acts[i], p)
    requires Acquires(c, After(c, s, acts, j), acts[j], p)
    ensures exists k :: i < k < j && Releases(c, After(c, s, acts, k), acts[k], p)
  {
    AcquisitionAddsRow(c, s, acts, i, p);
    AcquisitionAddsRow(c, s, acts, j, p);
    LossNeedsRelease(c, s, acts, i + 1, j, p);
  }

  /** With any clients, a stored lock stays as it is up to a moment exactly when no UNLOCK deletes it before. */
  lemma {:induction false} RowStaysIffNoRelease(c: Codec, s: State, acts: seq<Action>, i: nat, n: nat, p: string)
    requires Legal(c, s, acts) && i <= n <= |acts| && LockKey(p) in After(c, s, acts, i).rows
    ensures (forall m :: i <= m <= n ==> SameRow(After(c, s, acts, i).rows, After(c, s, acts, m).rows, LockKey(p))) <==>
            (forall k :: i <= k < n ==> !Releases(c, After(c, s, acts, k), acts[k], p))
  {
    if n > i {
      RowStaysIffNoRelease(c, s, acts, i, n - 1, p);
      AfterStep(c, s, acts, n - 1);
      RowChanges(c, After(c, s, acts, n - 1), acts[n - 1], p);
      if forall m :: i <= m <= n ==> SameRow(After(c, s, acts, i).rows, After(c, s, acts, m).rows, LockKey(p)) {
        assert SameRow(After(c, s, acts, i).rows, After(c, s, acts, n).rows, LockKey(p));
      }
      if forall k :: i <= k < n ==> !Releases(c, After(c, s, acts, k), acts[k], p) {
        assert SameRow(After(c, s, acts, i).rows, After(c, s, acts, n - 1).rows, LockKey(p));
      }
    }
  }

  ghost predicate SameRow(rows: Rows, rows': Rows, key: string) {
    key in rows && key in rows' && rows[key] == rows'[key]
  }

  /** LOCK request `r` was answered 423 or 409, naming the lock `db`. */
  ghost predicate Refused(s: State, r: nat, db: Lock, status: Status) {
    && r < |s.flights| && s.flights[r].req.LockPut?
    && s.flights[r].stage == Answered(Failed(db, status))
    && (status == Locked || status == Conflict)
  }

  /** While request `r` was being served, `db` was the stored lock of its plan. */
  ghost predicate SawStored(c: Codec, s: State, r: nat, db: Lock) {
    && Pending(s, r)
    && LockKey(s.flights[r].req.plan) in s.rows
    && c.unmarshal(s.rows[LockKey(s.flights[r].req.plan)]) == Some(db)
  }

  /**
    A refused LOCK names a record that was stored at some moment during the request, and it is
    refused with 423 exactly when that record has the request's ID, Operation and Who.
   */
  lemma {:induction false} RefusalNamesStoredLock(
    c: Codec, s: State, acts: seq<Action>, n: nat, r: nat, db: Lock, status: Status)
    requires Legal(c, s, acts) && n <= |acts| && s.flights == []
    requires Refused(After(c, s, acts, n), r, db, status)
    ensures exists m :: 0 <= m < n && SawStored(c, After(c, s, acts, m), r, db)
    ensures status == Locked <==> SameHolder(db, After(c, s, acts, n).flights[r].req.lock)
  {
    AfterStep(c, s, acts, n - 1);
    var before := After(c, s, acts, n - 1);
    if Refused(before, r, db, status) {
      RefusalNamesStoredLock(c, s, acts, n - 1, r, db, status);
    } else {
      assert SawStored(c, before, r, db);
    }
  }

  /** A PUT only ever writes after it has found its own lock ID stored. */
  lemma {:induction false} WriteWasAllowed(c: Codec, s: State, acts: seq<Action>, n: nat, r: nat, db: Lock)
    requires Legal(c, s, acts) && n <= |acts| && s.flights == []
    requires Pending(After(c, s, acts, n), r) && After(c, s, acts, n).flights[r] == Flight(After(c, s, acts, n).flights[r].req, WriteAllowed(db))
    requires After(c, s, acts, n).flights[r].req.StatePut?
    ensures exists m :: 0 <= m < n && SawStored(c, After(c, s, acts, m), r, db)
    ensures db.ID == After(c, s, acts, n).flights[r].req.lockId
  {
    AfterStep(c, s, acts, n - 1);
    var before := After(c, s, acts, n - 1);
    if Pending(before, r) && before.flights[r].stage == WriteAllowed(db) {
      WriteWasAllowed(c, s, acts, n - 1, r, db);
    } else {
      assert SawStored(c, before, r, db);
    }
  }

  // ------------------------------------------------------------------ with well-behaved clients

  /** The client was told that it has the lock: 200, or 423, which the client library takes as success. */
  ghost predicate Granted(s: State, r: nat) {
    && r < |s.flights| && s.flights[r].req.LockPut? && s.flights[r].stage.Answered?
    && var reply := s.flights[r].stage.reply;
       reply.Fine? || reply.status == Locked
  }

  ghost predicate UnlockIssued(s: State, p: string, id: string) {
    exists u :: 0 <= u < |s.flights| && s.flights[u].req.UnlockPut? && s.flights[u].req.plan == p && s.flights[u].req.ID() == id
  }

  ghost predicate PendingFor(s: State, r: nat, p: string, id: string) {
    Pending(s, r) && s.flights[r].req.plan == p && s.flights[r].req.ID() == id
  }

  /**
    Well-behaved clients.  A lock ID is used for one lock only (its LOCK may be sent again); an
    UNLOCK carries the client's own triple, after the lock was granted, when none of its UNLOCKs
    and none of its PUTs is still unanswered; a PUT is sent between the grant and the UNLOCK.
   */
  ghost predicate Proper(s: State, req: Request) {
    match req
    case LockPut(p, l) =>
      forall r :: 0 <= r < |s.flights| && s.flights[r].req.LockPut? && s.flights[r].req.ID() == l.ID ==>
        s.flights[r].req == req
    case UnlockPut(p, l) =>
      && (exists r: nat :: Granted(s, r) && s.flights[r].req.plan == p && SameHolder(s.flights[r].req.lock, l))
      && (forall r: nat :: PendingFor(s, r, p, l.ID) ==> s.flights[r].req.LockPut?)
    case StatePut(p, id, _) =>
      && (exists r: nat :: Granted(s, r) && s.flights[r].req.plan == p && s.flights[r].req.ID() == id)
      && !UnlockIssued(s, p, id)
  }

  ghost predicate WellBehaved(c: Codec, s: State, acts: seq<Action>)
    requires Legal(c, s, acts)
  {
    forall n :: 0 <= n < |acts| && acts[n].Issue? ==> Proper(After(c, s, acts, n), acts[n].req)
  }

  ghost predicate Initial(s: State) {
    s.flights == [] && forall p :: LockKey(p) !in s.rows
  }

  /** The stored lock of plan `p` is `l`. */
  ghost predicate Stored(c: Codec, s: State, p: string, l: Lock) {
    LockKey(p) in s.rows && s.rows[LockKey(p)] == c.marshal(l)
  }

  /** Two requests of one kind that speak for the same lock ID. */
  ghost predicate SameId(f: Flight, g: Flight) {
    f.req.ID() == g.req.ID() && (f.req.LockPut? <==> g.req.LockPut?) && (f.req.UnlockPut? <==> g.req.UnlockPut?)
  }

  ghost predicate IdsAreFresh(s: State) {
    forall i, j | 0 <= i < |s.flights| && 0 <= j < |s.flights| ::
      s.flights[i].req.LockPut? && SameId(s.flights[i], s.flights[j]) ==> s.flights[i].req == s.flights[j].req
  }

  /** Every stored lock was asked for by a LOCK. */
  ghost predicate RowsAreLocks(c: Codec, s: State) {
    forall p :: LockKey(p) in s.rows ==>
      exists r :: 0 <= r < |s.flights| && s.flights[r].req.LockPut? && s.flights[r].req.plan == p
        && s.rows[LockKey(p)] == c.marshal(s.flights[r].req.lock)
  }

  ghost predicate GrantsAreStored(c: Codec, s: State) {
    forall r: nat :: Granted(s, r) ==>
      Stored(c, s, s.flights[r].req.plan, s.flights[r].req.lock) || UnlockIssued(s, s.flights[r].req.plan, s.flights[r].req.ID())
  }

  /** An UNLOCK that is about to delete, or a PUT that is about to write, has its own lock still stored. */
  ghost predicate ReadsStillHold(c: Codec, s: State) {
    forall r: nat :: Pending(s, r) && (s.flights[r].stage.UnlockMatched? || s.flights[r].stage.WriteAllowed?) ==>
      var db := s.flights[r].stage.read;
      Stored(c, s, s.flights[r].req.plan, db) && db.ID == s.flights[r].req.ID()
  }

  ghost predicate UnlocksAreAlone(s: State) {
    && (forall i: nat, j: nat | Pending(s, i) && Pending(s, j) ::
          s.flights[i].req.UnlockPut? && SameId(s.flights[i], s.flights[j]) && s.flights[i].req.plan == s.flights[j].req.plan
          ==> i == j)
    && (forall r: nat | Pending(s, r) ::
          s.flights[r].req.StatePut? ==> !UnlockIssued(s, s.flights[r].req.plan, s.flights[r].req.ID()))
  }

  ghost predicate StagesFit(s: State) {
    forall r: nat :: Pending(s, r) ==>
      var f := s.flights[r];
      (f.stage.UnlockMatched? ==> f.req.UnlockPut?) && (f.stage.WriteAllowed? ==> f.req.StatePut?)
  }

  ghost predicate Inv(c: Codec, s: State) {
    && IdsAreFresh(s) && StagesFit(s) && UnlocksAreAlone(s)
    && RowsAreLocks(c, s) && GrantsAreStored(c, s) && ReadsStillHold(c, s)
  }

  lemma UnlocksOnlyAccumulate(c: Codec, s: State, a: Action)
    requires Enabled(s, a)
    ensures forall p, id :: UnlockIssued(s, p, id) ==> UnlockIssued(Apply(c, s, a), p, id)
    ensures forall p, id :: UnlockIssued(Apply(c, s, a), p, id) ==>
              UnlockIssued(s, p, id) || (a.Issue? && a.req.UnlockPut? && a.req.plan == p && a.req.ID() == id)
  {
    var s' := Apply(c, s, a);
    assert forall r :: 0 <= r < |s.flights| ==> s'.flights[r].req == s.flights[r].req;
    forall p, id | UnlockIssued(s, p, id) ensures UnlockIssued(s', p, id) {
      var u :| 0 <= u < |s.flights| && s.flights[u].req.UnlockPut? && s.flights[u].req.plan == p && s.flights[u].req.ID() == id;
      assert s'.flights[u].req == s.flights[u].req;
    }
  }

  lemma IssueKeepsIds(c: Codec, s: State, a: Action)
    requires IdsAreFresh(s) && StagesFit(s) && a.Issue? && Proper(s, a.req)
    ensures IdsAreFresh(Apply(c, s, a)) && StagesFit(Apply(c, s, a))
  {
  }

  lemma IssueKeepsUnlocks(c: Codec, s: State, a: Action)
    requires UnlocksAreAlone(s) && a.Issue? && Proper(s, a.req)
    ensures UnlocksAreAlone(Apply(c, s, a))
  {
    var s', n := Apply(c, s, a), |s.flights|;
    UnlocksOnlyAccumulate(c, s, a);
    forall r: nat | Pending(s', r) && s'.flights[r].req.StatePut?
      ensures !UnlockIssued(s', s'.flights[r].req.plan, s'.flights[r].req.ID())
    {
      if r < n {
        assert PendingFor(s, r, s.flights[r].req.plan, s.flights[r].req.ID());
      }
    }
    forall i: nat, j: nat | Pending(s', i) && Pending(s', j) && s'.flights[i].req.UnlockPut?
        && SameId(s'.flights[i], s'.flights[j]) && s'.flights[i].req.plan == s'.flights[j].req.plan
      ensures i == j
    {
      if i < n {
        assert PendingFor(s, i, s.flights[i].req.plan, s.flights[i].req.ID());
      }
      if j < n {
        assert PendingFor(s, j, s.flights[j].req.plan, s.flights[j].req.ID());
      }
    }
  }

  lemma IssueKeepsRows(c: Codec, s: State, a: Action)
    requires RowsAreLocks(c, s) && GrantsAreStored(c, s) && ReadsStillHold(c, s) && a.Issue?
    ensures RowsAreLocks(c, Apply(c, s, a)) && GrantsAreStored(c, Apply(c, s, a)) && ReadsStillHold(c, Apply(c, s, a))
  {
    var s' := Apply(c, s, a);
    UnlocksOnlyAccumulate(c, s, a);
    forall p | LockKey(p) in s'.rows
      ensures exists r :: 0 <= r < |s'.flights| && s'.flights[r].req.LockPut? && s'.flights[r].req.plan == p
                && s'.rows[LockKey(p)] == c.marshal(s'.flights[r].req.lock)
    {
      var r :| 0 <= r < |s.flights| && s.flights[r].req.LockPut? && s.flights[r].req.plan == p
        && s.rows[LockKey(p)] == c.marshal(s.flights[r].req.lock);
      assert s'.flights[r] == s.flights[r];
    }
    forall r: nat | Granted(s', r)
      ensures Stored(c, s', s'.flights[r].req.plan, s'.flights[r].req.lock)
           || UnlockIssued(s', s'.flights[r].req.plan, s'.flights[r].req.ID())
    {
      assert Granted(s, r);
    }
    forall r: nat | Pending(s', r) && (s'.flights[r].stage.UnlockMatched? || s'.flights[r].stage.WriteAllowed?)
      ensures Stored(c, s', s'.flights[r].req.plan, s'.flights[r].stage.read) && s'.flights[r].stage.read.ID == s'.flights[r].req.ID()
    {
      assert Pending(s, r);
    }
  }

  lemma TransactKeepsIds(c: Codec, s: State, a: Action)
    requires IdsAreFresh(s) && StagesFit(s) && UnlocksAreAlone(s) && a.Transact? && Enabled(s, a)
    ensures IdsAreFresh(Apply(c, s, a)) && StagesFit(Apply(c, s, a)) && UnlocksAreAlone(Apply(c, s, a))
  {
    var s' := Apply(c, s, a);
    UnlocksOnlyAccumulate(c, s, a);
    assert forall r :: 0 <= r < |s.flights| ==> s'.flights[r].req == s.flights[r].req;
    assert forall r: nat :: Pending(s', r) ==> Pending(s, r);
  }

  lemma TransactKeepsRows(c: Codec, s: State, a: Action)
    requires RowsAreLocks(c, s) && a.Transact? && Enabled(s, a)
    ensures RowsAreLocks(c, Apply(c, s, a))
  {
    var s' := Apply(c, s, a);
    assert forall r :: 0 <= r < |s.flights| ==> s'.flights[r].req == s.flights[r].req;
    forall p | LockKey(p) in s'.rows
      ensures exists r :: 0 <= r < |s'.flights| && s'.flights[r].req.LockPut? && s'.flights[r].req.plan == p
                && s'.rows[LockKey(p)] == c.marshal(s'.flights[r].req.lock)
    {
      RowChanges(c, s, a, p);
      var r :| 0 <= r < |s.flights| && s.flights[r].req.LockPut? && s.flights[r].req.plan == p
        && s'.rows[LockKey(p)] == c.marshal(s.flights[r].req.lock);
      assert s'.flights[r].req == s.flights[r].req;
    }
  }

  /** A deletion takes away the very record that the UNLOCK read, which carries its ID. */
  lemma ReleaseTakesOwnLock(c: Codec, s: State, a: Action, p: string, l: Lock)
    requires c.Faithful() && ReadsStillHold(c, s)
    requires Releases(c, s, a, p) && Stored(c, s, p, l)
    ensures s.flights[a.r].stage.read == l && l.ID == s.flights[a.r].req.ID()
  {
    var read := s.flights[a.r].stage.read;
    assert c.unmarshal(c.marshal(read)) == Some(read) && c.unmarshal(c.marshal(l)) == Some(l);
  }

  lemma TransactKeepsStored(c: Codec, s: State, a: Action, p: string, l: Lock)
    requires c.Faithful() && ReadsStillHold(c, s) && a.Transact? && Enabled(s, a)
    requires Stored(c, s, p, l)
    ensures Stored(c, Apply(c, s, a), p, l) || (Releases(c, s, a, p) && UnlockIssued(s, p, l.ID))
  {
    RowChanges(c, s, a, p);
    if Releases(c, s, a, p) {
      ReleaseTakesOwnLock(c, s, a, p, l);
    }
  }

  lemma TransactKeepsGrants(c: Codec, s: State, a: Action)
    requires c.Faithful() && Inv(c, s) && a.Transact? && Enabled(s, a)
    ensures GrantsAreStored(c, Apply(c, s, a))
  {
    var s' := Apply(c, s, a);
    UnlocksOnlyAccumulate(c, s, a);
    forall r: nat | Granted(s', r)
      ensures Stored(c, s', s'.flights[r].req.plan, s'.flights[r].req.lock)
           || UnlockIssued(s', s'.flights[r].req.plan, s'.flights[r].req.ID())
    {
      var p, l := s.flights[r].req.plan, s.flights[r].req.lock;
      if Granted(s, r) {
        if Stored(c, s, p, l) {
          TransactKeepsStored(c, s, a, p, l);
        }
      } else {
        assert r == a.r;
        RowChanges(c, s, a, p);
        if LockKey(p) in s.rows {
          RefusedByOwnLock(c, s, a);
        }
      }
    }
  }

  /** A LOCK that finds a record of its own triple finds its own lock. */
  lemma RefusedByOwnLock(c: Codec, s: State, a: Action)
    requires c.Faithful() && IdsAreFresh(s) && RowsAreLocks(c, s) && a.Transact? && Enabled(s, a)
    requires Granted(Apply(c, s, a), a.r) && LockKey(s.flights[a.r].req.plan) in s.rows
    ensures Stored(c, s, s.flights[a.r].req.plan, s.flights[a.r].req.lock)
  {
    var p, l := s.flights[a.r].req.plan, s.flights[a.r].req.lock;
    var i :| 0 <= i < |s.flights| && s.flights[i].req.LockPut? && s.flights[i].req.plan == p
      && s.rows[LockKey(p)] == c.marshal(s.flights[i].req.lock);
    var found := s.flights[i].req.lock;
    assert c.unmarshal(c.marshal(found)) == Some(found);
    assert SameHolder(found, l);
    assert SameId(s.flights[i], s.flights[a.r]);
  }

  lemma TransactKeepsReads(c: Codec, s: State, a: Action)
    requires c.Faithful() && Inv(c, s) && a.Transact? && Enabled(s, a)
    ensures ReadsStillHold(c, Apply(c, s, a))
  {
    var s' := Apply(c, s, a);
    forall r: nat | Pending(s', r) && (s'.flights[r].stage.UnlockMatched? || s'.flights[r].stage.WriteAllowed?)
      ensures Stored(c, s', s'.flights[r].req.plan, s'.flights[r].stage.read) && s'.flights[r].stage.read.ID == s'.flights[r].req.ID()
    {
      var p, db := s'.flights[r].req.plan, s'.flights[r].stage.read;
      assert Pending(s, r);
      if r == a.r {
        ReadIsStored(c, s, a);
      } else {
        TransactKeepsStored(c, s, a, p, db);
        if Releases(c, s, a, p) {
          ReleaseTakesOwnLock(c, s, a, p, db);
          assert false;
        }
      }
    }
  }

  lemma ReadIsStored(c: Codec, s: State, a: Action)
    requires c.Faithful() && RowsAreLocks(c, s) && StagesFit(s) && a.Transact? && Enabled(s, a)
    requires var stage := Apply(c, s, a).flights[a.r].stage; stage.UnlockMatched? || stage.WriteAllowed?
    ensures var f := Apply(c, s, a).flights[a.r];
            Stored(c, Apply(c, s, a), f.req.plan, f.stage.read) && f.stage.read.ID == f.req.ID()
  {
    var p := s.flights[a.r].req.plan;
    var i :| 0 <= i < |s.flights| && s.flights[i].req.LockPut? && s.flights[i].req.plan == p
      && s.rows[LockKey(p)] == c.marshal(s.flights[i].req.lock);
    var found := s.flights[i].req.lock;
    assert c.unmarshal(c.marshal(found)) == Some(found);
  }

  lemma {:induction false} InvHolds(c: Codec, s: State, acts: seq<Action>, n: nat)
    requires c.Faithful() && Initial(s) && Legal(c, s, acts) && WellBehaved(c, s, acts) && n <= |acts|
    ensures Inv(c, After(c, s, acts, n))
  {
    if n > 0 {
      InvHolds(c, s, acts, n - 1);
      AfterStep(c, s, acts, n - 1);
      var before, a := After(c, s, acts, n - 1), acts[n - 1];
      if a.Issue? {
        IssueKeepsIds(c, before, a);
        IssueKeepsUnlocks(c, before, a);
        IssueKeepsRows(c, before, a);
      } else {
        TransactKeepsIds(c, before, a);
        TransactKeepsRows(c, before, a);
        TransactKeepsGrants(c, before, a);
        TransactKeepsReads(c, before, a);
      }
    }
  }

  /** LOCK `r` was granted and its client has not yet sent an UNLOCK. */
  ghost predicate Holds(s: State, r: nat) {
    Granted(s, r) && !UnlockIssued(s, s.flights[r].req.plan, s.flights[r].req.ID())
  }

  /** With any clients, of the LOCKs that found a lock stored exactly those of the same holder are granted. */
  lemma RefusedIsGrantedIffSameHolder(
    c: Codec, s: State, acts: seq<Action>, n: nat, r: nat, db: Lock, status: Status)
    requires Legal(c, s, acts) && n <= |acts| && s.flights == []
    requires Refused(After(c, s, acts, n), r, db, status)
    ensures exists m :: 0 <= m < n && SawStored(c, After(c, s, acts, m), r, db)
    ensures Granted(After(c, s, acts, n), r) <==> SameHolder(db, After(c, s, acts, n).flights[r].req.lock)
  {
    RefusalNamesStoredLock(c, s, acts, n, r, db, status);
  }

  /** At any moment at most one lock is held on a plan, and it is the one that is stored. */
  lemma MutualExclusion(c: Codec, s: State, acts: seq<Action>, n: nat, q: nat, r: nat)
    requires c.Faithful() && Initial(s) && Legal(c, s, acts) && WellBehaved(c, s, acts) && n <= |acts|
    requires var now := After(c, s, acts, n);
             Holds(now, q) && Holds(now, r) && now.flights[q].req.plan == now.flights[r].req.plan
    ensures var now := After(c, s, acts, n);
            now.flights[q].req == now.flights[r].req && Stored(c, now, now.flights[q].req.plan, now.flights[q].req.lock)
  {
    InvHolds(c, s, acts, n);
    var now := After(c, s, acts, n);
    var k, l := now.flights[q].req.lock, now.flights[r].req.lock;
    assert c.unmarshal(c.marshal(k)) == Some(k) && c.unmarshal(c.marshal(l)) == Some(l);
    assert SameId(now.flights[q], now.flights[r]);
  }

  /** An UNLOCK that gets to its deletion deletes the record that it read, and nothing else. */
  lemma UnlockDeletesWhatItRead(c: Codec, s: State, acts: seq<Action>, n: nat)
    requires c.Faithful() && Initial(s) && Legal(c, s, acts) && WellBehaved(c, s, acts) && n < |acts|
    requires var now := After(c, s, acts, n);
             acts[n].Transact? && !acts[n].fault && Pending(now, acts[n].r) && now.flights[acts[n].r].stage.UnlockMatched?
    ensures var now, then_ := After(c, s, acts, n), After(c, s, acts, n + 1);
            var f := now.flights[acts[n].r];
            && f.stage.read.ID == f.req.ID() && Stored(c, now, f.req.plan, f.stage.read)
            && then_.rows == now.rows - {LockKey(f.req.plan)}
  {
    InvHolds(c, s, acts, n);
    AfterStep(c, s, acts, n);
  }

  /** Every committed change of a plan's state is made by a PUT whose own lock is stored at that moment. */
  lemma StateWrittenUnderOwnLock(c: Codec, s: State, acts: seq<Action>, n: nat, p: string)
    requires c.Faithful() && Initial(s) && Legal(c, s, acts) && WellBehaved(c, s, acts) && n < |acts|
    requires var now, then_ := After(c, s, acts, n), After(c, s, acts, n + 1);
             StateKey(p) in then_.rows && !(StateKey(p) in now.rows && now.rows[StateKey(p)] == then_.rows[StateKey(p)])
    ensures var now, then_ := After(c, s, acts, n), After(c, s, acts, n + 1);
            && Writes(c, now, acts[n], p)
            && var f := now.flights[acts[n].r];
               then_.rows[StateKey(p)] == f.req.state
               && f.stage.read.ID == f.req.lockId && Stored(c, now, p, f.stage.read)
  {
    InvHolds(c, s, acts, n);
    AfterStep(c, s, acts, n);
    RowChanges(c, After(c, s, acts, n), acts[n], p);
  }

  // ------------------------------------------------------------------ why clients must behave

  lemma {:induction false} Extend(c: Codec, s: State, acts: seq<Action>, a: Action)
    requires Legal(c, s, acts) && Enabled(After(c, s, acts, |acts|), a)
    ensures Legal(c, s, acts + [a])
    ensures forall n :: 0 <= n <= |acts| ==> After(c, s, acts + [a], n) == After(c, s, acts, n)
    ensures After(c, s, acts + [a], |acts| + 1) == Apply(c, After(c, s, acts, |acts|), a)
    decreases |acts|
  {
    if acts == [] {
      assert (acts + [a])[1..] == [];
      assert After(c, Apply(c, s, a), [], 0) == Apply(c, s, a);
    } else {
      assert (acts + [a])[1..] == acts[1..] + [a];
      Extend(c, Apply(c, s, acts[0]), acts[1..], a);
    }
    AfterStep(c, s, acts + [a], |acts|);
  }

  ghost predicate Reaches(c: Codec, acts: seq<Action>, s: State) {
    Legal(c, State(map[], []), acts) && After(c, State(map[], []), acts, |acts|) == s
  }

  lemma Then(c: Codec, acts: seq<Action>, s: State, a: Action) returns (acts': seq<Action>, s': State)
    requires Reaches(c, acts, s) && Enabled(s, a)
    ensures Reaches(c, acts', s') && s' == Apply(c, s, a)
  {
    Extend(c, State(map[], []), acts, a);
    acts', s' := acts + [a], Apply(c, s, a);
  }

  lemma TakeLock(c: Codec, acts: seq<Action>, s: State, p: string, l: Lock) returns (acts': seq<Action>, s': State)
    requires Reaches(c, acts, s) && LockKey(p) !in s.rows
    ensures Reaches(c, acts', s')
    ensures s' == State(s.rows[LockKey(p) := c.marshal(l)], s.flights + [Flight(LockPut(p, l), Answered(Fine(EMPTY_LOCK)))])
  {
    acts', s' := Then(c, acts, s, Issue(LockPut(p, l)));
    acts', s' := Then(c, acts', s', Transact(|s.flights|, false, false));
    acts', s' := Then(c, acts', s', Transact(|s.flights|, false, false));
  }

  /** Whenever a PUT is past its check, an UNLOCK of the stored lock makes it write with no lock stored. */
  lemma EarlyUnlockLetsPutWriteUnlocked(c: Codec, acts: seq<Action>, s: State, r: nat, l: Lock)
      returns (acts': seq<Action>, s': State)
    requires c.Faithful() && Reaches(c, acts, s)
    requires Pending(s, r) && s.flights[r].req.StatePut? && s.flights[r].stage.WriteAllowed?
    requires Stored(c, s, s.flights[r].req.plan, l)
    ensures Reaches(c, acts', s') && r < |s'.flights| && s'.flights[r] == s.flights[r]
    ensures Writes(c, s', Transact(r, false, false), s.flights[r].req.plan) && LockKey(s.flights[r].req.plan) !in s'.rows
  {
    var p, u := s.flights[r].req.plan, |s.flights|;
    assert c.unmarshal(c.marshal(l)) == Some(l);
    acts', s' := Then(c, acts, s, Issue(UnlockPut(p, l)));
    acts', s' := Then(c, acts', s', Transact(u, false, false));
    acts', s' := Then(c, acts', s', Transact(u, false, false));
  }

  /** Whenever two UNLOCKs of a plan are about to delete, the second can delete any lock taken in between. */
  lemma DoubleUnlockDeletesOthersLock(c: Codec, acts: seq<Action>, s: State, u: nat, v: nat, theirs: Lock)
      returns (acts': seq<Action>, s': State)
    requires Reaches(c, acts, s) && u != v && Pending(s, u) && Pending(s, v)
    requires s.flights[u].req.UnlockPut? && s.flights[u].stage.UnlockMatched?
    requires s.flights[v].req.UnlockPut? && s.flights[v].stage.UnlockMatched?
    requires s.flights[u].req.plan == s.flights[v].req.plan && LockKey(s.flights[u].req.plan) in s.rows
    ensures Reaches(c, acts', s') && v < |s'.flights| && s'.flights[v] == s.flights[v]
    ensures Releases(c, s', Transact(v, false, false), s.flights[v].req.plan)
    ensures Stored(c, s', s.flights[v].req.plan, theirs)
  {
    acts', s' := Then(c, acts, s, Transact(u, false, false));
    acts', s' := TakeLock(c, acts', s', s.flights[u].req.plan, theirs);
  }

  /**
    From every state with the lock free, a run in which a second LOCK finds the first one's lock; it
    is granted too exactly when the two have the same ID, Operation and Who.
   */
  lemma SecondLockIsGrantedIffSameHolder(c: Codec, acts: seq<Action>, s: State, p: string, k: Lock, l: Lock)
      returns (acts': seq<Action>, s': State)
    requires c.Faithful() && Reaches(c, acts, s) && LockKey(p) !in s.rows
    ensures var q, r := |s.flights|, |s.flights| + 1;
            && Reaches(c, acts', s') && |s'.flights| == r + 1
            && s'.flights[q].req == LockPut(p, k) && s'.flights[r].req == LockPut(p, l)
            && Granted(s', q) && Stored(c, s', p, k)
            && (Granted(s', r) <==> SameHolder(k, l))
            && (Holds(s', q) && Holds(s', r) <==> SameHolder(k, l) && !UnlockIssued(s, p, k.ID))
  {
    acts', s' := TakeLock(c, acts, s, p, k);
    assert c.unmarshal(c.marshal(k)) == Some(k);
    acts', s' := Then(c, acts', s', Issue(LockPut(p, l)));
    acts', s' := Then(c, acts', s', Transact(|s.flights| + 1, false, false));
    assert forall u :: 0 <= u < |s.flights| ==> s'.flights[u] == s.flights[u];
    assert UnlockIssued(s', p, k.ID) <==> UnlockIssued(s, p, k.ID);
  }

  // ------------------------------------------------------------------ runs of two clients on one plan

  const PLAN := "openstack-plan"
  const MINE := Lock("1", "apply", "", "a", "", "", "")
  const MINE_AGAIN := Lock("1", "apply", "again", "a", "", "", "")
  const THEIRS := Lock("2", "apply", "", "b", "", "", "")

  lemma UnlockedWriteIsReachable(c: Codec)
    requires c.Faithful()
    ensures exists acts, s, a :: Reaches(c, acts, s) && Writes(c, s, a, PLAN) && LockKey(PLAN) !in s.rows
  {
    var acts, s := TakeLock(c, [], State(map[], []), PLAN, MINE);
    assert c.unmarshal(c.marshal(MINE)) == Some(MINE);
    acts, s := Then(c, acts, s, Issue(StatePut(PLAN, "1", "{}")));
    acts, s := Then(c, acts, s, Transact(1, false, false));
    acts, s := EarlyUnlockLetsPutWriteUnlocked(c, acts, s, 1, MINE);
    assert Writes(c, s, Transact(1, false, false), PLAN);
  }

  lemma LossOfOthersLockIsReachable(c: Codec)
    requires c.Faithful()
    ensures exists acts, s, a ::
              && Reaches(c, acts, s) && Releases(c, s, a, PLAN)
              && Stored(c, s, PLAN, THEIRS) && s.flights[a.r].req == UnlockPut(PLAN, MINE)
  {
    var acts, s := TakeLock(c, [], State(map[], []), PLAN, MINE);
    assert c.unmarshal(c.marshal(MINE)) == Some(MINE);
    acts, s := Then(c, acts, s, Issue(UnlockPut(PLAN, MINE)));
    acts, s := Then(c, acts, s, Issue(UnlockPut(PLAN, MINE)));
    acts, s := Then(c, acts, s, Transact(1, false, false));
    acts, s := Then(c, acts, s, Transact(2, false, false));
    acts, s := DoubleUnlockDeletesOthersLock(c, acts, s, 1, 2, THEIRS);
    assert Releases(c, s, Transact(2, false, false), PLAN);
  }

  lemma TwoHoldersAreReachable(c: Codec)
    requires c.Faithful()
    ensures exists acts, s :: Reaches(c, acts, s) && Holds(s, 0) && Holds(s, 1)
              && s.flights[0].req == LockPut(PLAN, MINE) && s.flights[1].req == LockPut(PLAN, MINE_AGAIN)
  {
    var acts, s := SecondLockIsGrantedIffSameHolder(c, [], State(map[], []), PLAN, MINE, MINE_AGAIN);
  }

  // ------------------------------------------------------------------ is a stored lock held?

  /** A lock just acquired is held unless the answer is lost or its UNLOCK was sent before. */
  lemma AcquiredIsHeldIff(c: Codec, s: State, a: Action, p: string)
    requires Acquires(c, s, a, p)
    ensures Holds(Apply(c, s, a), a.r) <==> !a.lost && !UnlockIssued(s, p, s.flights[a.r].req.ID())
  {
    var s' := Apply(c, s, a);
    UnlocksOnlyAccumulate(c, s, a);
    assert s'.flights[a.r].req == s.flights[a.r].req;
  }

  /** Unless an acquisition's answer was lost, a stored lock was granted, so that it is held until its UNLOCK is sent. */
  lemma {:induction false} StoredLockWasGranted(c: Codec, s: State, acts: seq<Action>, n: nat, p: string)
    requires Initial(s) && Legal(c, s, acts) && n <= |acts|
    requires forall m :: 0 <= m < n && Acquires(c, After(c, s, acts, m), acts[m], p) ==> !acts[m].lost
    requires LockKey(p) in After(c, s, acts, n).rows
    ensures var now := After(c, s, acts, n);
            exists r: nat :: Granted(now, r) && now.flights[r].req.plan == p && Stored(c, now, p, now.flights[r].req.lock)
  {
    var before, a, now := After(c, s, acts, n - 1), acts[n - 1], After(c, s, acts, n);
    AfterStep(c, s, acts, n - 1);
    RowChanges(c, before, a, p);
    if LockKey(p) in before.rows {
      StoredLockWasGranted(c, s, acts, n - 1, p);
      var r: nat :| Granted(before, r) && before.flights[r].req.plan == p && Stored(c, before, p, before.flights[r].req.lock);
      assert now.flights[r] == before.flights[r];
    } else {
      assert Granted(now, a.r);
    }
  }
}
