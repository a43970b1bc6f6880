/** The store as a state machine over its table: the writes of
    storage_oauth2.go as steps, and what any sequence of them preserves.
    Gets are left out of the steps because they never change the table. */
module Lifecycle {
  import opened Wrappers
  import opened Requests
  import opened Library
  import opened Storage
  import opened Codec
  import opened TokenStore

  datatype Op =
    | CreateAuthorizeCode(signature: string, request: Requester)
    | InvalidateAuthorizeCode(signature: string)
    | CreateAccessToken(signature: string, request: Requester)
    | DeleteAccessToken(signature: string)
    | CreateRefreshToken(signature: string, request: Requester)
    | DeleteRefreshToken(signature: string)

  /** The table after one write, whether it succeeded or not. */
  function Step(lib: Library, p: PgStorage, t: Table, op: Op): Table {
    match op
    case CreateAuthorizeCode(s, r) => CreateAuthorizeCodeSession(lib, p, t, s, r).table
    case InvalidateAuthorizeCode(s) => InvalidateAuthorizeCodeSession(p, t, s).table
    case CreateAccessToken(s, r) => CreateAccessTokenSession(lib, p, t, s, r).table
    case DeleteAccessToken(s) => DeleteAccessTokenSession(lib, p, t, s).table
    case CreateRefreshToken(s, r) => CreateRefreshTokenSession(lib, p, t, s, r).table
    case DeleteRefreshToken(s) => DeleteRefreshTokenSession(p, t, s).table
  }

  function Run(lib: Library, p: PgStorage, t: Table, ops: seq<Op>): Table
    decreases |ops|
  {
    if |ops| == 0 then t else Run(lib, p, Step(lib, p, t, ops[0]), ops[1..])
  }

  /** The key a step may remove, if any. */
  function RemovedKey(lib: Library, op: Op): Option<string> {
    match op
    case DeleteAccessToken(s) => Some(HashAccessTokenSignature(lib, s))
    case DeleteRefreshToken(s) => Some(s)
    case _ => None
  }

  /** The key a step may add, if any: the key of a Create, hashed for
      access tokens. */
  function AddedKey(lib: Library, op: Op): Option<string> {
    match op
    case CreateAuthorizeCode(s, _) => Some(s)
    case CreateAccessToken(s, _) => Some(HashAccessTokenSignature(lib, s))
    case CreateRefreshToken(s, _) => Some(s)
    case _ => None
  }

  /** Every row sits under its own signature. */
  ghost predicate WellKeyed(t: Table) {
    forall k | k in t :: t[k].signature == k
  }

  /** How a row may change in one step, and which write may change it: a
      row that stays is unchanged or just deactivated (an inactive row is
      never reactivated), and only an Invalidate of its own key changes it;
      a row that goes was removed by a Delete of its key; a new row was
      added by a Create of its key and is active with the zero type. */
  ghost predicate Evolves(lib: Library, op: Op, t: Table, t': Table) {
    && (forall k | k in t && k in t' :: t'[k] == t[k] || t'[k] == t[k].(active := false))
    && (forall k | k in t && k in t' && t'[k] != t[k] :: op == InvalidateAuthorizeCode(k))
    && (forall k | k in t && k !in t' :: RemovedKey(lib, op) == Some(k))
    && (forall k | k in t' && k !in t :: AddedKey(lib, op) == Some(k))
    && (forall k | k in t' && k !in t :: t'[k].active && t'[k].authType == NoAuthType)
  }

  lemma StepEvolves(lib: Library, p: PgStorage, t: Table, op: Op)
    ensures Evolves(lib, op, t, Step(lib, p, t, op))
  {
  }

  lemma StepPreservesWellKeyed(lib: Library, p: PgStorage, t: Table, op: Op)
    requires WellKeyed(t)
    ensures WellKeyed(Step(lib, p, t, op))
  {
  }

  lemma {:induction false} RunPreservesWellKeyed(lib: Library, p: PgStorage, t: Table, ops: seq<Op>)
    requires WellKeyed(t)
    ensures WellKeyed(Run(lib, p, t, ops))
    decreases |ops|
  {
    if |ops| > 0 {
      StepPreservesWellKeyed(lib, p, t, ops[0]);
      RunPreservesWellKeyed(lib, p, Step(lib, p, t, ops[0]), ops[1..]);
    }
  }

  /** Running `a` and then `b` is running `a + b`. */
  lemma {:induction false} RunAppend(lib: Library, p: PgStorage, t: Table, a: seq<Op>, b: seq<Op>)
    ensures Run(lib, p, t, a + b) == Run(lib, p, Run(lib, p, t, a), b)
    decreases |a|
  {
    if |a| > 0 {
      assert (a + b)[0] == a[0];
      assert (a + b)[1..] == a[1..] + b;
      RunAppend(lib, p, Step(lib, p, t, a[0]), a[1..], b);
    } else {
      assert a + b == b;
    }
  }

  /** Along any run that deletes no key `k`, the row at `k` stays, keeps
      every field but `active`, and once inactive stays exactly as it is:
      activity only ever goes from true to false, and only an Invalidate of
      `k` in the run can change the row. */
  lemma {:induction false} ActiveIsOneWay(lib: Library, p: PgStorage, t: Table, ops: seq<Op>, k: string)
    requires k in t
    requires forall i | 0 <= i < |ops| :: RemovedKey(lib, ops[i]) != Some(k)
    ensures k in Run(lib, p, t, ops)
    ensures Run(lib, p, t, ops)[k] == t[k] || Run(lib, p, t, ops)[k] == t[k].(active := false)
    ensures !t[k].active ==> Run(lib, p, t, ops)[k] == t[k]
    ensures Run(lib, p, t, ops)[k] != t[k] ==>
      exists i | 0 <= i < |ops| :: ops[i] == InvalidateAuthorizeCode(k)
    decreases |ops|
  {
    if |ops| > 0 {
      var t1 := Step(lib, p, t, ops[0]);
      StepEvolves(lib, p, t, ops[0]);
      assert RemovedKey(lib, ops[0]) != Some(k);
      assert k in t1;
      forall i | 0 <= i < |ops[1..]|
        ensures RemovedKey(lib, ops[1..][i]) != Some(k)
      {
        assert ops[1..][i] == ops[i + 1];
      }
      ActiveIsOneWay(lib, p, t1, ops[1..], k);
      if Run(lib, p, t, ops)[k] != t[k] {
        if t1[k] != t[k] {
          assert ops[0] == InvalidateAuthorizeCode(k);
        } else {
          var j :| 0 <= j < |ops[1..]| && ops[1..][j] == InvalidateAuthorizeCode(k);
          assert ops[j + 1] == InvalidateAuthorizeCode(k);
        }
      }
    }
  }
}
