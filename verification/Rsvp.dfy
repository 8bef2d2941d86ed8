/**
 Capacity-limited RSVP to one activity. A transaction reads the user's row, counts the going
 attendees, and then upserts; other transactions may interleave between these statements, and a
 transaction's row becomes visible when it commits. `k` bounds how many are open at once.
*/
module Rsvp {
  import opened Wrappers

  type UserId = nat
  type TxId = nat

  datatype Status = Going | Interested | Waitlist

  /** Where an RSVP transaction stands: before its first read, before its count, or past the check. */
  datatype Phase = Started | MustCount | Passed

  datatype Tx = Tx(user: UserId, status: Status, phase: Phase)

  datatype State = State(attendees: map<UserId, Status>, txs: map<TxId, Tx>)

  datatype Event =
    | Open(tx: TxId, user: UserId, status: Status)
    | ReadExisting(tx: TxId)
    | Count(tx: TxId)
    | Commit(tx: TxId)
    | Abort(tx: TxId)
    | Cancel(user: UserId)

  function GoingUsers(attendees: map<UserId, Status>): set<UserId> {
    set u | u in attendees && attendees[u] == Going
  }

  predicate AtPhase(s: State, t: TxId, p: Phase) {
    t in s.txs && s.txs[t].phase == p
  }

  predicate Enabled(s: State, e: Event) {
    match e
    case Open(t, _, _) => t !in s.txs
    case ReadExisting(t) => AtPhase(s, t, Started)
    case Count(t) => AtPhase(s, t, MustCount)
    case Commit(t) => AtPhase(s, t, Passed)
    case Abort(t) => t in s.txs
    case Cancel(_) => true
  }

  /** Only a `going` answer to a limited activity is checked. */
  predicate Checked(status: Status, capacity: Option<int>) {
    status == Going && capacity.Some?
  }

  function Apply(s: State, e: Event, capacity: Option<int>): State
    requires Enabled(s, e)
  {
    match e
    case Open(t, u, status) =>
      s.(txs := s.txs[t := Tx(u, status, if Checked(status, capacity) then Started else Passed)])
    case ReadExisting(t) =>
      var tx := s.txs[t];
      // Someone already going takes no further place.
      s.(txs := s.txs[t := tx.(phase := if tx.user in GoingUsers(s.attendees) then Passed else MustCount)])
    case Count(t) =>
      if capacity.Some? && |GoingUsers(s.attendees)| >= capacity.value
      then s.(txs := s.txs - {t})
      else s.(txs := s.txs[t := s.txs[t].(phase := Passed)])
    case Commit(t) => State(s.attendees[s.txs[t].user := s.txs[t].status], s.txs - {t})
    case Abort(t) => s.(txs := s.txs - {t})
    case Cancel(u) => s.(attendees := s.attendees - {u})
  }

  /** Every event is enabled and no state on the way has more than `k` transactions open. */
  predicate Runs(s: State, es: seq<Event>, capacity: Option<int>, k: nat)
    decreases |es|
  {
    && |s.txs| <= k
    && (es != [] ==> Enabled(s, es[0]) && Runs(Apply(s, es[0], capacity), es[1..], capacity, k))
  }

  function After(s: State, es: seq<Event>, capacity: Option<int>, k: nat): State
    requires Runs(s, es, capacity, k)
    decreases |es|
  {
    if es == [] then s else After(Apply(s, es[0], capacity), es[1..], capacity, k)
  }

  // ---------------------------------------------------------------- the overshoot bound

  /** Users of transactions that will write `going` without looking again. */
  function CommittedToGo(txs: map<TxId, Tx>): set<UserId> {
    set t | t in txs && txs[t].phase == Passed && txs[t].status == Going :: txs[t].user
  }

  function GoingOrCommitted(s: State): set<UserId> {
    GoingUsers(s.attendees) + CommittedToGo(s.txs)
  }

  lemma SubsetIsNoLarger<T>(a: set<T>, b: set<T>)
    requires a <= b
    ensures |a| <= |b|
  {
    assert b == a + (b - a);
  }

  lemma {:induction false} CommittedAtMostOpen(txs: map<TxId, Tx>)
    ensures |CommittedToGo(txs)| <= |txs|
    decreases |txs|
  {
    if txs != map[] {
      var t :| t in txs;
      var rest := txs - {t};
      CommittedAtMostOpen(rest);
      assert txs.Keys == rest.Keys + {t} && |txs.Keys| == |txs| && |rest.Keys| == |rest|;
      var more := CommittedToGo(rest) + {txs[t].user};
      assert CommittedToGo(txs) <= more;
      SubsetIsNoLarger(CommittedToGo(txs), more);
    }
  }

  /** Only a count that finds room adds to those who are going or will be. */
  lemma OthersCommitNobody(s: State, e: Event, capacity: int)
    requires Enabled(s, e) && !(e.Count? && |GoingUsers(s.attendees)| < capacity)
    ensures GoingOrCommitted(Apply(s, e, Some(capacity))) <= GoingOrCommitted(s)
  {
    var s' := Apply(s, e, Some(capacity));
    forall u | u in CommittedToGo(s'.txs)
      ensures u in GoingOrCommitted(s)
    {
      var t :| t in s'.txs && s'.txs[t].phase == Passed && s'.txs[t].status == Going && s'.txs[t].user == u;
      assert t in s.txs || e == Open(t, u, Going);
    }
  }

  lemma StepKeepsBound(s: State, e: Event, capacity: int, k: nat)
    requires Enabled(s, e) && |Apply(s, e, Some(capacity)).txs| <= k
    requires |GoingOrCommitted(s)| <= capacity + k - 1
    ensures |GoingOrCommitted(Apply(s, e, Some(capacity)))| <= capacity + k - 1
  {
    var s' := Apply(s, e, Some(capacity));
    if e.Count? && |GoingUsers(s.attendees)| < capacity {
      CommittedAtMostOpen(s'.txs);
      assert |GoingOrCommitted(s')| <= |GoingUsers(s.attendees)| + |CommittedToGo(s'.txs)|;
    } else {
      OthersCommitNobody(s, e, capacity);
      SubsetIsNoLarger(GoingOrCommitted(s'), GoingOrCommitted(s));
    }
  }

  /** Whatever interleaves, the going attendees never exceed the capacity by `k` or more. */
  lemma {:induction false} OvershootBound(s: State, es: seq<Event>, capacity: int, k: nat)
    requires Runs(s, es, Some(capacity), k)
    requires |GoingOrCommitted(s)| <= capacity + k - 1
    ensures |GoingUsers(After(s, es, Some(capacity), k).attendees)| <= capacity + k - 1
    decreases |es|
  {
    if es == [] {
      SubsetIsNoLarger(GoingUsers(s.attendees), GoingOrCommitted(s));
    } else {
      StepKeepsBound(s, es[0], capacity, k);
      OvershootBound(Apply(s, es[0], Some(capacity)), es[1..], capacity, k);
    }
  }

  /** Transactions that never overlap never overfill the activity. */
  lemma SerialRunsNeverOverfill(attendees: map<UserId, Status>, es: seq<Event>, capacity: int)
    requires Runs(State(attendees, map[]), es, Some(capacity), 1)
    requires |GoingUsers(attendees)| <= capacity
    ensures |GoingUsers(After(State(attendees, map[]), es, Some(capacity), 1).attendees)| <= capacity
  {
    assert GoingOrCommitted(State(attendees, map[])) == GoingUsers(attendees);
    OvershootBound(State(attendees, map[]), es, capacity, 1);
  }

  // ---------------------------------------------------------------- the bound is attained

  /** `n` going users, numbered from 0. */
  function Filled(n: nat): (rows: map<UserId, Status>)
    ensures forall u: UserId :: u in rows <==> u < n
    ensures |GoingUsers(rows)| == n
  {
    if n == 0 then map[]
    else
      var rows := Filled(n - 1);
      assert GoingUsers(rows[n - 1 := Going]) == GoingUsers(rows) + {n - 1};
      rows[n - 1 := Going]
  }

  /** Transactions `0..t` of as many further users, all past the check. */
  function Racers(capacity: nat, t: nat): (txs: map<TxId, Tx>)
    requires capacity >= 1
    ensures |txs| == t && forall x: TxId :: x in txs <==> x < t
  {
    if t == 0 then map[] else Racers(capacity, t - 1)[t - 1 := Tx(capacity + t - 2, Going, Passed)]
  }

  function Enter(capacity: nat, t: nat): seq<Event>
    requires capacity >= 1
  {
    [Open(t, capacity + t - 1, Going), ReadExisting(t), Count(t)]
  }

  /** The transactions `t..k` enter and pass the check one after another; then all of them commit. */
  function EnterAll(capacity: nat, t: nat, k: nat): seq<Event>
    requires capacity >= 1
    decreases k - t
  {
    if t >= k then CommitAll(t) else Enter(capacity, t) + EnterAll(capacity, t + 1, k)
  }

  function CommitAll(t: nat): seq<Event> {
    if t == 0 then [] else [Commit(t - 1)] + CommitAll(t - 1)
  }

  /** With one place left, every racer still sees that place. */
  lemma EnterOne(capacity: nat, t: nat) returns (s1: State, s2: State)
    requires capacity >= 1
    ensures
      var s := State(Filled(capacity - 1), Racers(capacity, t));
      var e := Enter(capacity, t);
      && Enabled(s, e[0]) && s1 == Apply(s, e[0], Some(capacity))
      && Enabled(s1, e[1]) && s2 == Apply(s1, e[1], Some(capacity))
      && Enabled(s2, e[2]) && Apply(s2, e[2], Some(capacity)) == State(Filled(capacity - 1), Racers(capacity, t + 1))
      && |s1.txs| == |s2.txs| == t + 1
  {
    var s := State(Filled(capacity - 1), Racers(capacity, t));
    s1 := Apply(s, Open(t, capacity + t - 1, Going), Some(capacity));
    s2 := Apply(s1, ReadExisting(t), Some(capacity));
    assert Apply(s2, Count(t), Some(capacity)).txs == Racers(capacity, t + 1);
    assert s1.txs.Keys == s2.txs.Keys == s.txs.Keys + {t};
    assert |s1.txs| == |s1.txs.Keys| && |s2.txs| == |s2.txs.Keys| && |s.txs| == |s.txs.Keys|;
  }

  /** From `s` the events run and end with `n` users going. */
  ghost predicate EndsWith(s: State, es: seq<Event>, capacity: nat, k: nat, n: int) {
    Runs(s, es, Some(capacity), k) && |GoingUsers(After(s, es, Some(capacity), k).attendees)| == n
  }

  lemma {:induction false} CommitAllRuns(rows: map<UserId, Status>, capacity: nat, t: nat, k: nat)
    requires capacity >= 1 && t <= k
    requires forall u :: u in rows ==> u < capacity - 1 || u >= capacity + t - 1
    ensures EndsWith(State(rows, Racers(capacity, t)), CommitAll(t), capacity, k, |GoingUsers(rows)| + t)
    decreases t
  {
    if t > 0 {
      CommitAllRuns(rows[capacity + t - 2 := Going], capacity, t - 1, k);
      CommitThenRest(rows, capacity, t, k, CommitAll(t - 1), |GoingUsers(rows)| + t);
    }
  }

  lemma CommitThenRest(rows: map<UserId, Status>, capacity: nat, t: nat, k: nat, rest: seq<Event>, n: int)
    requires capacity >= 1 && 1 <= t <= k && capacity + t - 2 !in rows
    requires |GoingUsers(rows[capacity + t - 2 := Going])| == |GoingUsers(rows)| + 1 ==>
               EndsWith(State(rows[capacity + t - 2 := Going], Racers(capacity, t - 1)), rest, capacity, k, n)
    ensures EndsWith(State(rows, Racers(capacity, t)), [Commit(t - 1)] + rest, capacity, k, n)
  {
    LastRacerCommits(rows, capacity, t);
    RunOne(State(rows, Racers(capacity, t)), Commit(t - 1), rest, capacity, k);
  }

  lemma LastRacerCommits(rows: map<UserId, Status>, capacity: nat, t: nat)
    requires capacity >= 1 && t >= 1 && capacity + t - 2 !in rows
    ensures
      var s := State(rows, Racers(capacity, t));
      var next := rows[capacity + t - 2 := Going];
      && Enabled(s, Commit(t - 1)) && Apply(s, Commit(t - 1), Some(capacity)) == State(next, Racers(capacity, t - 1))
      && |GoingUsers(next)| == |GoingUsers(rows)| + 1
  {
    assert Racers(capacity, t) - {t - 1} == Racers(capacity, t - 1);
    OneMoreGoing(rows, capacity + t - 2);
  }

  lemma OneMoreGoing(rows: map<UserId, Status>, u: UserId)
    requires u !in rows
    ensures |GoingUsers(rows[u := Going])| == |GoingUsers(rows)| + 1
  {
    assert GoingUsers(rows[u := Going]) == GoingUsers(rows) + {u};
  }

  lemma {:induction false} EnterAllRuns(capacity: nat, t: nat, k: nat)
    requires capacity >= 1 && t <= k
    ensures EndsWith(State(Filled(capacity - 1), Racers(capacity, t)), EnterAll(capacity, t, k), capacity, k, capacity + k - 1)
    decreases k - t
  {
    if t >= k {
      CommitAllRuns(Filled(capacity - 1), capacity, t, k);
    } else {
      EnterAllRuns(capacity, t + 1, k);
      EnterThenRest(capacity, t, k, EnterAll(capacity, t + 1, k));
      assert EnterAll(capacity, t, k) == Enter(capacity, t) + EnterAll(capacity, t + 1, k);
    }
  }

  lemma EnterThenRest(capacity: nat, t: nat, k: nat, rest: seq<Event>)
    requires capacity >= 1 && t < k
    requires Runs(State(Filled(capacity - 1), Racers(capacity, t + 1)), rest, Some(capacity), k)
    ensures Runs(State(Filled(capacity - 1), Racers(capacity, t)), Enter(capacity, t) + rest, Some(capacity), k)
    ensures After(State(Filled(capacity - 1), Racers(capacity, t)), Enter(capacity, t) + rest, Some(capacity), k)
         == After(State(Filled(capacity - 1), Racers(capacity, t + 1)), rest, Some(capacity), k)
  {
    var e := Enter(capacity, t);
    var s1, s2 := EnterOne(capacity, t);
    RunThree(State(Filled(capacity - 1), Racers(capacity, t)), e[0], e[1], e[2], rest, capacity, k);
    assert e == [e[0], e[1], e[2]];
  }

  lemma RunOne(s: State, e: Event, rest: seq<Event>, capacity: int, k: nat)
    requires |s.txs| <= k && Enabled(s, e) && Runs(Apply(s, e, Some(capacity)), rest, Some(capacity), k)
    ensures Runs(s, [e] + rest, Some(capacity), k)
    ensures After(s, [e] + rest, Some(capacity), k) == After(Apply(s, e, Some(capacity)), rest, Some(capacity), k)
  {
    assert ([e] + rest)[1..] == rest;
  }

  /** Running three events and then the rest. */
  lemma RunThree(s: State, a: Event, b: Event, c: Event, rest: seq<Event>, capacity: int, k: nat)
    requires |s.txs| <= k && Enabled(s, a)
    requires var s1 := Apply(s, a, Some(capacity)); |s1.txs| <= k && Enabled(s1, b)
    requires var s2 := Apply(Apply(s, a, Some(capacity)), b, Some(capacity)); |s2.txs| <= k && Enabled(s2, c)
    requires Runs(Apply(Apply(Apply(s, a, Some(capacity)), b, Some(capacity)), c, Some(capacity)), rest, Some(capacity), k)
    ensures Runs(s, [a, b, c] + rest, Some(capacity), k)
    ensures After(s, [a, b, c] + rest, Some(capacity), k)
         == After(Apply(Apply(Apply(s, a, Some(capacity)), b, Some(capacity)), c, Some(capacity)), rest, Some(capacity), k)
  {
    var s1 := Apply(s, a, Some(capacity));
    var s2 := Apply(s1, b, Some(capacity));
    RunOne(s2, c, rest, capacity, k);
    RunOne(s1, b, [c] + rest, capacity, k);
    RunOne(s, a, [b] + ([c] + rest), capacity, k);
    assert [a] + ([b] + ([c] + rest)) == [a, b, c] + rest;
  }

  /** For every capacity and every k some run with at most k open transactions overshoots by k - 1. */
  lemma OvershootBoundIsTight(capacity: nat, k: nat)
    requires capacity >= 1 && k >= 1
    ensures
      exists s: State, es ::
        && s.txs == map[] && |GoingUsers(s.attendees)| <= capacity && Runs(s, es, Some(capacity), k)
        && |GoingUsers(After(s, es, Some(capacity), k).attendees)| == capacity + k - 1
  {
    EnterAllRuns(capacity, 0, k);
    assert State(Filled(capacity - 1), Racers(capacity, 0)).txs == map[];
  }

  // ---------------------------------------------------------------- one transaction at a time

  /** The outcome of an undisturbed RSVP: the new rows, and whether it was accepted. */
  function Upsert(attendees: map<UserId, Status>, u: UserId, status: Status, capacity: Option<int>): (map<UserId, Status>, bool) {
    if Checked(status, capacity) && u !in GoingUsers(attendees) && |GoingUsers(attendees)| >= capacity.value
    then (attendees, false)
    else (attendees[u := status], true)
  }

  /**
   Only an answer `going` to an activity with a capacity can be refused: exactly that of a user not yet going
   while as many users as the capacity, or more, are going.
  */
  lemma RefusedIff(attendees: map<UserId, Status>, u: UserId, status: Status, capacity: Option<int>)
    ensures
      var (rows, accepted) := Upsert(attendees, u, status, capacity);
      && (!accepted <==>
            && status == Going && capacity != None && !(u in attendees && attendees[u] == Going)
            && |set v | v in attendees && attendees[v] == Going| >= capacity.value)
      && (accepted ==> rows == attendees[u := status])
      && (!accepted ==> rows == attendees)
  {
    assert GoingUsers(attendees) == set v | v in attendees && attendees[v] == Going;
  }

  /** Beside the steps of a transaction: any open one may abort at any time, and any user cancel the answer. */
  lemma LeavingIsAlwaysPossible(s: State, t: TxId, u: UserId, capacity: Option<int>)
    ensures Enabled(s, Abort(t)) <==> t in s.txs
    ensures t in s.txs ==> Apply(s, Abort(t), capacity) == s.(txs := s.txs - {t})
    ensures Enabled(s, Cancel(u)) && Apply(s, Cancel(u), capacity) == s.(attendees := s.attendees - {u})
  {
  }

  /** A transaction reads, counts and writes only as far as the answer needs, and other transactions stay as they are. */
  lemma TransactionSteps(s: State, t: TxId, u: UserId, status: Status, capacity: Option<int>)
    ensures Enabled(s, Open(t, u, status)) <==> t !in s.txs
    ensures t !in s.txs ==>
              Apply(s, Open(t, u, status), capacity) ==
              s.(txs := s.txs[t := Tx(u, status, if status == Going && capacity != None then Started else Passed)])
    ensures t in s.txs ==>
              var tx := s.txs[t];
              && (Enabled(s, ReadExisting(t)) <==> tx.phase == Started)
              && (Enabled(s, Count(t)) <==> tx.phase == MustCount)
              && (Enabled(s, Commit(t)) <==> tx.phase == Passed)
              && (tx.phase == Started ==>
                    var going := tx.user in s.attendees && s.attendees[tx.user] == Going;
                    Apply(s, ReadExisting(t), capacity) == s.(txs := s.txs[t := tx.(phase := if going then Passed else MustCount)]))
              && (tx.phase == MustCount ==>
                    var isFull := capacity != None && |set v | v in s.attendees && s.attendees[v] == Going| >= capacity.value;
                    Apply(s, Count(t), capacity) == s.(txs := if isFull then s.txs - {t} else s.txs[t := tx.(phase := Passed)]))
              && (tx.phase == Passed ==>
                    Apply(s, Commit(t), capacity) == State(s.attendees[tx.user := tx.status], s.txs - {t}))
  {
    assert GoingUsers(s.attendees) == set v | v in s.attendees && s.attendees[v] == Going;
  }

  /** An undisturbed transaction does what its events do in the interleaved model. */
  lemma UpsertIsASerialRun(attendees: map<UserId, Status>, u: UserId, status: Status, capacity: Option<int>)
    ensures
      var s0 := State(attendees, map[]);
      var s1 := Apply(s0, Open(0, u, status), capacity);
      var s2 := if Checked(status, capacity) then Apply(s1, ReadExisting(0), capacity) else s1;
      var s3 := if AtPhase(s2, 0, MustCount) then Apply(s2, Count(0), capacity) else s2;
      var s4 := if AtPhase(s3, 0, Passed) then Apply(s3, Commit(0), capacity) else s3;
      s4 == State(Upsert(attendees, u, status, capacity).0, map[])
  {
  }

  /** The attendee rows of one activity. */
  class AttendeeTable {
    var rows: map<UserId, Status>

    method CountGoing() returns (n: nat)
      ensures n == |GoingUsers(rows)|
    {
      n := |GoingUsers(rows)|;
    }

    method UpsertWithCapacity(u: UserId, status: Status, capacity: Option<int>) returns (row: Option<Status>)
      modifies this
      ensures (rows, row.Some?) == Upsert(old(rows), u, status, capacity)
      ensures row.Some? ==> row.value == status
    {
      if status == Going && capacity.Some? {
        var alreadyGoing := u in rows && rows[u] == Going;
        if !alreadyGoing {
          var going := CountGoing();
          if going >= capacity.value {
            return None;
          }
        }
      }
      rows := rows[u := status];
      return Some(status);
    }

    method RemoveAttendee(u: UserId) returns (removed: bool)
      modifies this
      ensures removed == (u in old(rows))
      ensures rows == old(rows) - {u}
    {
      removed := u in rows;
      rows := rows - {u};
    }
  }
}
