/** Runs of one node that reach each of the BUG_ONs which `LockProtocol.BugExactly` leaves. */
module LockWitness {
  import opened LockRes
  import opened LockProtocol

  /** The steps can be taken from n one after the other, with BASTs delivered in order if `ordered`. */
  predicate Goes(n: Node, ops: LockOps, acts: seq<Action>, ordered: bool)
    decreases |acts|
  {
    || acts == []
    || (&& Enabled(n, ops, acts[0]) && !Bug(n, ops, acts[0]) && (ordered ==> InOrder(n, acts[0]))
        && Goes(Apply(n, ops, acts[0]), ops, acts[1..], ordered))
  }

  lemma {:induction false} Loosen(n: Node, ops: LockOps, acts: seq<Action>)
    requires Goes(n, ops, acts, true)
    ensures Goes(n, ops, acts, false) && After(n, ops, acts, false) == After(n, ops, acts, true)
    decreases |acts|
  {
    hide Enabled, Bug, Apply;
    if acts != [] {
      Loosen(Apply(n, ops, acts[0]), ops, acts[1..]);
    }
  }

  function After(n: Node, ops: LockOps, acts: seq<Action>, ordered: bool): Node
    requires Goes(n, ops, acts, ordered)
    decreases |acts|
  {
    if acts == [] then n else After(Apply(n, ops, acts[0]), ops, acts[1..], ordered)
  }

  lemma {:induction false} GoesOn(n: Node, ops: LockOps, a: seq<Action>, b: seq<Action>, ordered: bool)
    requires Goes(n, ops, a, ordered) && Goes(After(n, ops, a, ordered), ops, b, ordered)
    ensures Goes(n, ops, a + b, ordered)
    ensures After(n, ops, a + b, ordered) == After(After(n, ops, a, ordered), ops, b, ordered)
    decreases |a|
  {
    hide Enabled, Bug, Apply;
    if a == [] {
      assert a + b == b;
    } else {
      GoesOn(Apply(n, ops, a[0]), ops, a[1..], b, ordered);
      assert (a + b)[1..] == a[1..] + b;
    }
  }

  /** One step more. */
  lemma Then(ops: LockOps, acts: seq<Action>, n: Node, a: Action, m: Node, ordered: bool)
    requires Goes(NODE0, ops, acts, ordered) && After(NODE0, ops, acts, ordered) == n
    requires Enabled(n, ops, a) && !Bug(n, ops, a) && Apply(n, ops, a) == m && (ordered ==> InOrder(n, a))
    ensures Goes(NODE0, ops, acts + [a], ordered) && After(NODE0, ops, acts + [a], ordered) == m
  {
    hide Enabled, Bug, Apply;
    assert [a][1..] == [];
    assert Goes(n, ops, [a], ordered) && After(n, ops, [a], ordered) == m;
    GoesOn(NODE0, ops, acts, [a], ordered);
  }

  /** Steps of one node are a run of a cluster of one. */
  lemma {:induction false} ClusterOfOne(ops: LockOps, acts: seq<Action>, ordered: bool)
    returns (states: seq<Cluster>, moves: seq<Move>)
    requires Goes(NODE0, ops, acts, ordered)
    ensures Run(states, moves, ops) && (ordered ==> OrderedRun(states, moves, ops))
    ensures |moves| == |acts| && |states| == |moves| + 1
    ensures states[|moves|] == [After(NODE0, ops, acts, ordered)]
    decreases |acts|
  {
    hide Enabled, Bug, Apply;
    if acts == [] {
      states, moves := [[NODE0]], [];
    } else {
      var k := |acts| - 1;
      assert acts == acts[..k] + [acts[k]];
      Prefix(NODE0, ops, acts[..k], acts[k], ordered);
      states, moves := ClusterOfOne(ops, acts[..k], ordered);
      var n := After(NODE0, ops, acts[..k], ordered);
      var next := [Apply(n, ops, acts[k])];
      assert Step(states[k], ops, 0, acts[k], next);
      var more := moves + [Move(0, acts[k])];
      forall i | 0 <= i < |more|
        ensures Step((states + [next])[i], ops, more[i].node, more[i].action, (states + [next])[i + 1])
      {
        if i < k {
          assert Step(states[i], ops, moves[i].node, moves[i].action, states[i + 1]);
        }
      }
      states, moves := states + [next], more;
    }
  }

  lemma {:induction false} Prefix(n: Node, ops: LockOps, a: seq<Action>, last: Action, ordered: bool)
    requires Goes(n, ops, a + [last], ordered)
    ensures Goes(n, ops, a, ordered) && Enabled(After(n, ops, a, ordered), ops, last)
    ensures !Bug(After(n, ops, a, ordered), ops, last)
    ensures ordered ==> InOrder(After(n, ops, a, ordered), last)
    ensures After(n, ops, a + [last], ordered) == Apply(After(n, ops, a, ordered), ops, last)
    decreases |a|
  {
    hide Enabled, Bug, Apply;
    if a == [] {
      assert a + [last] == [last];
      assert [last][1..] == [];
    } else {
      assert (a + [last])[1..] == a[1..] + [last];
      Prefix(Apply(n, ops, a[0]), ops, a[1..], last, ordered);
    }
  }

  /** A lock type without a downconvert worker, and one with. */
  const OPS := LockOps(true, true, false)
  const WORKER := LockOps(true, true, true)

  function Asks(level: Level): Locker {
    Locker(level, false, false, false, false, Runs)
  }

  /** A first request for EX that the DLM has granted, its AST still to come. */
  const GRANTED := NODE0.(
    l := FRESH.(action := Attach, requested := EX, busy := true, pendingGen := 1),
    granted := EX, req := Done(EX), lockers := map[1 := Asks(EX).(dlmLocked := true)])

  lemma FirstRequest(ops: LockOps) returns (acts: seq<Action>)
    ensures Goes(NODE0, ops, acts, true) && After(NODE0, ops, acts, true) == GRANTED
  {
    acts := [];
    var n1 := NODE0.(lockers := map[1 := Asks(EX)]);
    var n2 := n1.(l := FRESH.(action := Attach, requested := EX, busy := true, pending := true),
                  calls := map[1 := Ready(0, EX, false)]);
    var n3 := n2.(calls := map[1 := Returned(0, true)], req := Waiting(EX, false));
    var n4 := n3.(l := GRANTED.l, calls := map[], lockers := GRANTED.lockers);
    acts := Next(ops, acts, NODE0, Arrive(1, Asks(EX)), n1, true);
    acts := Next(ops, acts, n1, LockPass(1), n2, true);
    acts := Next(ops, acts, n2, CallDlm(1, true), n3, true);
    acts := Next(ops, acts, n3, ClearPendingOf(1), n4, true);
    acts := Next(ops, acts, n4, Grant, GRANTED, true);
  }

  /** A BAST that overtakes that AST: the downconvert thread finds a request it cannot cancel. */
  const OVERTAKEN := GRANTED.(
    l := GRANTED.l.(blocking := PR, blocked := true, queued := true), dc := Unblocking)

  lemma AttachRun(ops: LockOps) returns (acts: seq<Action>)
    ensures Goes(NODE0, ops, acts, false) && After(NODE0, ops, acts, false) == OVERTAKEN
  {
    hide Goes, After;
    acts := FirstRequest(ops);
    Loosen(NODE0, ops, acts);
    var n1 := OVERTAKEN.(listed := true, dc := Idle);
    var n2 := OVERTAKEN.(dc := Taken);
    acts := Next(ops, acts, GRANTED, Bast(PR), n1, false);
    acts := Next(ops, acts, n1, Take, n2, false);
    acts := Next(ops, acts, n2, CheckFreeing, OVERTAKEN, false);
  }

  lemma OvertakenAttaches(ops: LockOps)
    ensures Attaches(OVERTAKEN, ops)
  {
  }

  const HELD := GRANTED.(
    l := FRESH.(level := EX, requested := EX, attached := true, needsRefresh := true, pendingGen := 1),
    req := NoReq, lockers := map[])

  lemma HeldRun(ops: LockOps) returns (acts: seq<Action>)
    requires ops.requiresRefresh
    ensures Goes(NODE0, ops, acts, true) && After(NODE0, ops, acts, true) == HELD
  {
    hide Goes, After;
    acts := FirstRequest(ops);
    var n1 := HELD.(lockers := GRANTED.lockers);
    var n2 := HELD.(l := HELD.l.(exHolders := 1));
    acts := Next(ops, acts, GRANTED, Ast, n1, true);
    acts := Next(ops, acts, n1, LockPass(1), n2, true);
    acts := Next(ops, acts, n2, Unlock(EX), HELD, true);
  }

  /** A second, higher BAST comes after the thread has taken the lock off the list. */
  const RELISTED := HELD.(
    l := HELD.l.(blocking := EX, blocked := true, queued := true), listed := true, dc := Unblocking)

  lemma RelistedRun(ops: LockOps) returns (acts: seq<Action>)
    requires ops.requiresRefresh
    ensures Goes(NODE0, ops, acts, true) && After(NODE0, ops, acts, true) == RELISTED
  {
    hide Goes, After;
    acts := HeldRun(ops);
    var n1 := HELD.(l := HELD.l.(blocking := PR, blocked := true, queued := true), listed := true);
    var n2 := n1.(listed := false, dc := Taken);
    var n3 := n2.(l := n2.l.(blocking := EX), listed := true);
    acts := Next(ops, acts, HELD, Bast(PR), n1, true);
    acts := Next(ops, acts, n1, Take, n2, true);
    acts := Next(ops, acts, n2, Bast(EX), n3, true);
    acts := Next(ops, acts, n3, CheckFreeing, RELISTED, true);
  }

  /** The downconvert to NL is asked for, and the lock is still on the list. */
  const LOWERING := HELD.(
    l := HELD.l.(action := Downconvert, requested := NL, blocking := EX, blocked := true, busy := true,
                 pendingGen := 2),
    req := Waiting(NL, false), listed := true)

  const NL_ASKED := RELISTED.(
    l := RELISTED.l.(action := Downconvert, requested := NL, busy := true, pending := true),
    dc := Asking, calls := map[DC := Ready(1, NL, false)])

  lemma NlAskedRun() returns (acts: seq<Action>)
    ensures Goes(NODE0, OPS, acts, true) && After(NODE0, OPS, acts, true) == NL_ASKED
  {
    hide Goes, After;
    acts := RelistedRun(OPS);
    acts := Next(OPS, acts, RELISTED, UnblockRuns(true), NL_ASKED, true);
  }

  lemma LoweringRun() returns (acts: seq<Action>)
    ensures Goes(NODE0, OPS, acts, true) && After(NODE0, OPS, acts, true) == LOWERING
  {
    hide Goes, After;
    acts := NlAskedRun();
    var n1 := NL_ASKED.(calls := map[DC := Returned(1, true)], req := Waiting(NL, false));
    var n2 := LOWERING.(l := LOWERING.l.(queued := true), dc := Finishing(false));
    acts := Next(OPS, acts, NL_ASKED, CallDlm(DC, true), n1, true);
    acts := Next(OPS, acts, n1, ClearPendingOf(DC), n2, true);
    acts := Next(OPS, acts, n2, Finish, LOWERING, true);
  }

  /** The thread has decided to cancel, and the downconvert is granted before it does. */
  const CANCELLING := HELD.(
    l := HELD.l.(level := NL, requested := NL, pendingGen := 2), granted := NL, dc := Cancelling)

  lemma CancellingRun() returns (acts: seq<Action>)
    ensures Goes(NODE0, OPS, acts, true) && After(NODE0, OPS, acts, true) == CANCELLING
  {
    hide Goes, After;
    acts := LoweringRun();
    var n1 := LOWERING.(listed := false, dc := Taken);
    var n2 := n1.(dc := Unblocking);
    var n3 := n2.(l := n2.l.(unlockAction := CancelConvert), dc := Cancelling);
    var n4 := n3.(granted := NL, req := Done(NL));
    acts := Next(OPS, acts, LOWERING, Take, n1, true);
    acts := Next(OPS, acts, n1, CheckFreeing, n2, true);
    acts := Next(OPS, acts, n2, UnblockRuns(true), n3, true);
    acts := Next(OPS, acts, n3, Grant, n4, true);
    acts := Next(OPS, acts, n4, Ast, CANCELLING, true);
  }

  /** A new request for PR is made before the thread calls the DLM, which then cancels that one. */
  lemma StaleRun() returns (acts: seq<Action>)
    ensures Goes(NODE0, OPS, acts, true) && Stales(After(NODE0, OPS, acts, true))
  {
    hide Goes, After;
    acts := CancellingRun();
    var n6 := CANCELLING.(lockers := map[1 := Asks(PR)]);
    var n7 := n6.(l := n6.l.(action := Convert, requested := PR, busy := true, pending := true),
                  calls := map[1 := Ready(2, PR, false)]);
    acts := Next(OPS, acts, CANCELLING, Arrive(1, Asks(PR)), n6, true);
    acts := Next(OPS, acts, n6, LockPass(1), n7, true);
    var n8 := n7.(calls := map[1 := Returned(2, true)], req := Waiting(PR, false));
    acts := Next(OPS, acts, n7, CallDlm(1, true), n8, true);
    acts := Next(OPS, acts, n8, CancelCall, n8.(dc := Finishing(true), req := UnlockDone), true);
  }

  // ----- Locks dropped too early -----

  /** A second, higher BAST comes while a downconvert is being made that does not go low enough for it:
      the lock is on the list, the end of processing has cleared QUEUED, and the lock is still blocked. */
  const LEFT := HELD.(
    l := HELD.l.(level := PR, requested := PR, blocking := EX, blocked := true, pendingGen := 2),
    granted := PR, listed := true)

  const PR_ASKED := HELD.(
    l := HELD.l.(action := Downconvert, requested := PR, blocking := PR, blocked := true, queued := true,
                 busy := true, pending := true),
    dc := Asking, calls := map[DC := Ready(1, PR, false)])

  const BLOCKED := HELD.(l := HELD.l.(blocking := PR, blocked := true, queued := true), dc := Unblocking)

  lemma BlockedRun(ops: LockOps) returns (acts: seq<Action>)
    requires ops.requiresRefresh
    ensures Goes(NODE0, ops, acts, true) && After(NODE0, ops, acts, true) == BLOCKED
  {
    hide Goes, After;
    acts := HeldRun(ops);
    var n1 := BLOCKED.(listed := true, dc := Idle);
    var n2 := BLOCKED.(dc := Taken);
    acts := Next(ops, acts, HELD, Bast(PR), n1, true);
    acts := Next(ops, acts, n1, Take, n2, true);
    acts := Next(ops, acts, n2, CheckFreeing, BLOCKED, true);
  }

  lemma AskedRun(ops: LockOps) returns (acts: seq<Action>)
    requires ops == OPS || ops == WORKER
    ensures Goes(NODE0, ops, acts, true) && After(NODE0, ops, acts, true) == PR_ASKED
  {
    hide Goes, After;
    acts := BlockedRun(ops);
    if ops == WORKER {
      acts := WorkedRun(acts);
    } else {
      acts := Next(OPS, acts, BLOCKED, UnblockRuns(true), PR_ASKED, true);
    }
  }

  lemma WorkedRun(acts: seq<Action>) returns (more: seq<Action>)
    requires Goes(NODE0, WORKER, acts, true) && After(NODE0, WORKER, acts, true) == BLOCKED
    ensures Goes(NODE0, WORKER, more, true) && After(NODE0, WORKER, more, true) == PR_ASKED
  {
    hide Goes, After;
    var n1 := BLOCKED.(dc := Working(PR, EX));
    more := Next(WORKER, acts, BLOCKED, UnblockRuns(true), n1, true);
    more := Next(WORKER, more, n1, WorkerDone(true), PR_ASKED, true);
  }

  /** The second BAST has come and the downconvert is at the DLM. */
  const PR_WAITING := PR_ASKED.(
    l := PR_ASKED.l.(blocking := EX), listed := true,
    calls := map[DC := Returned(1, true)], req := Waiting(PR, false))

  lemma PrWaitingRun(ops: LockOps) returns (acts: seq<Action>)
    requires ops == OPS || ops == WORKER
    ensures Goes(NODE0, ops, acts, true) && After(NODE0, ops, acts, true) == PR_WAITING
  {
    hide Goes, After;
    acts := AskedRun(ops);
    var n1 := PR_ASKED.(l := PR_ASKED.l.(blocking := EX), listed := true);
    acts := Next(ops, acts, PR_ASKED, Bast(EX), n1, true);
    acts := Next(ops, acts, n1, CallDlm(DC, true), PR_WAITING, true);
  }

  /** The thread has done with it. */
  const PR_LEFT := PR_WAITING.(
    l := PR_WAITING.l.(pending := false, pendingGen := 2, queued := false), calls := map[], dc := Idle)

  lemma PrLeftRun(ops: LockOps) returns (acts: seq<Action>)
    requires ops == OPS || ops == WORKER
    ensures Goes(NODE0, ops, acts, true) && After(NODE0, ops, acts, true) == PR_LEFT
  {
    hide Goes, After;
    acts := PrWaitingRun(ops);
    var n1 := PR_LEFT.(l := PR_LEFT.l.(queued := true), dc := Finishing(false));
    acts := Next(ops, acts, PR_WAITING, ClearPendingOf(DC), n1, true);
    acts := Next(ops, acts, n1, Finish, PR_LEFT, true);
  }

  lemma LeftRun(ops: LockOps) returns (acts: seq<Action>)
    requires ops == OPS || ops == WORKER
    ensures Goes(NODE0, ops, acts, true) && After(NODE0, ops, acts, true) == LEFT && Unguarded(LEFT)
  {
    hide Goes, After;
    acts := PrLeftRun(ops);
    var n1 := PR_LEFT.(granted := PR, req := Done(PR));
    acts := Next(ops, acts, PR_LEFT, Grant, n1, true);
    acts := Next(ops, acts, n1, Ast, LEFT, true);
  }

  /** The state with a drop of the lock begun in it. */
  function Dropped(n: Node): Node {
    n.(l := StartDrop(n.l).(freeing := true), gone := true)
  }

  /** The same once the unlock AST has run. */
  function Gone(n: Node): Node {
    n.(l := n.l.(level := IV, attached := false, freeing := true), granted := IV, gone := true)
  }

  lemma DropRun(ops: LockOps, acts: seq<Action>, n: Node) returns (more: seq<Action>)
    requires Goes(NODE0, ops, acts, true) && After(NODE0, ops, acts, true) == n
    requires !n.l.freeing && n.l.exHolders == 0 && n.l.roHolders == 0 && n.lockers == map[]
    requires !n.gone && !n.l.queued && !n.l.busy && n.l.attached && n.l.action == NoAction
    ensures Goes(NODE0, ops, more, true) && After(NODE0, ops, more, true) == Dropped(n)
  {
    hide Goes, After;
    var n1 := n.(l := n.l.(freeing := true));
    more := Next(ops, acts, n, MarkFreeing, n1, true);
    more := Next(ops, more, n1, Drop, Dropped(n), true);
  }

  lemma GoneRun(ops: LockOps, acts: seq<Action>, n: Node) returns (more: seq<Action>)
    requires Goes(NODE0, ops, acts, true) && After(NODE0, ops, acts, true) == n
    requires !n.l.freeing && n.l.exHolders == 0 && n.l.roHolders == 0 && n.lockers == map[] && n.granted != IV
    requires !n.gone && !n.l.queued && !n.l.busy && n.l.attached && n.l.action == NoAction && n.req == NoReq
    requires n.l.unlockAction == NoUnlock
    ensures Goes(NODE0, ops, more, true) && After(NODE0, ops, more, true) == Gone(n)
  {
    hide Goes, After;
    more := DropRun(ops, acts, n);
    var n1 := Dropped(n).(granted := IV, req := UnlockDone);
    more := Next(ops, more, Dropped(n), DropCall, n1, true);
    more := Next(ops, more, n1, UnlockAstRuns, Gone(n), true);
  }

  /** Freed while it is on the list. */
  lemma FreeRun() returns (acts: seq<Action>)
    ensures Goes(NODE0, OPS, acts, true) && FiresEarly(After(NODE0, OPS, acts, true), OPS, Free)
  {
    hide Goes, After;
    acts := LeftRun(OPS);
    acts := GoneRun(OPS, acts, LEFT);
  }

  const IN_HANDS := LEFT.(listed := false, dc := Unblocking)

  lemma InHandsRun(ops: LockOps) returns (acts: seq<Action>)
    requires ops == OPS || ops == WORKER
    ensures Goes(NODE0, ops, acts, true) && After(NODE0, ops, acts, true) == IN_HANDS
  {
    hide Goes, After;
    acts := LeftRun(ops);
    var n1 := LEFT.(listed := false, dc := Taken);
    acts := Next(ops, acts, LEFT, Take, n1, true);
    acts := Next(ops, acts, n1, CheckFreeing, IN_HANDS, true);
  }

  /** The thread goes on to lower a lock that is at no level any more. */
  lemma LowersGoneRun() returns (acts: seq<Action>)
    ensures Goes(NODE0, OPS, acts, true) && FiresEarly(After(NODE0, OPS, acts, true), OPS, UnblockRuns(true))
  {
    hide Goes, After;
    acts := InHandsRun(OPS);
    acts := GoneRun(OPS, acts, IN_HANDS);
  }

  const AT_WORK := LEFT.(listed := false, dc := Working(EX, PR))

  lemma AtWorkRun() returns (acts: seq<Action>)
    ensures Goes(NODE0, WORKER, acts, true) && After(NODE0, WORKER, acts, true) == AT_WORK
  {
    hide Goes, After;
    acts := InHandsRun(WORKER);
    acts := Next(WORKER, acts, IN_HANDS, UnblockRuns(true), AT_WORK, true);
  }

  /** It does so after a second run of the worker. */
  lemma WorksOnGoneRun() returns (acts: seq<Action>)
    ensures Goes(NODE0, WORKER, acts, true) && FiresEarly(After(NODE0, WORKER, acts, true), WORKER, WorkerDone(true))
  {
    hide Goes, After;
    acts := AtWorkRun();
    acts := GoneRun(WORKER, acts, AT_WORK);
    acts := Next(WORKER, acts, Gone(AT_WORK), WorkerDone(true), Gone(AT_WORK).(dc := Working(EX, IV)), true);
  }

  /** The downconvert is made while the lock is being dropped, and the DLM is asked first for that. */
  const LATE_ASKED: Node := LATE.(req := NoReq, calls := map[DC := Ready(2, NL, false)])

  lemma LateAskedRun() returns (acts: seq<Action>)
    ensures Goes(NODE0, WORKER, acts, true) && After(NODE0, WORKER, acts, true) == LATE_ASKED
  {
    hide Goes, After;
    acts := AtWorkRun();
    acts := DropRun(WORKER, acts, AT_WORK);
    acts := Next(WORKER, acts, Dropped(AT_WORK), WorkerDone(true), LATE_ASKED, true);
  }

  const LATE: Node := Dropped(AT_WORK).(
    l := Dropped(AT_WORK).l.(action := Downconvert, requested := NL, pending := true),
    req := Waiting(NL, false), dc := Asking, calls := map[DC := Returned(2, true)])

  lemma LateRun() returns (acts: seq<Action>)
    ensures Goes(NODE0, WORKER, acts, true) && After(NODE0, WORKER, acts, true) == LATE
    ensures FiresEarly(LATE, WORKER, DropCall)
  {
    hide Goes, After;
    acts := LateAskedRun();
    acts := Next(WORKER, acts, LATE_ASKED, CallDlm(DC, true), LATE, true);
  }

  lemma LateAstRun() returns (acts: seq<Action>)
    ensures Goes(NODE0, WORKER, acts, true) && FiresEarly(After(NODE0, WORKER, acts, true), WORKER, Ast)
  {
    hide Goes, After;
    acts := LateRun();
    acts := Next(WORKER, acts, LATE, Grant, LATE.(granted := NL, req := Done(NL)), true);
  }

  lemma Next(ops: LockOps, acts: seq<Action>, n: Node, a: Action, m: Node, ordered: bool)
    returns (more: seq<Action>)
    requires Goes(NODE0, ops, acts, ordered) && After(NODE0, ops, acts, ordered) == n
    requires Enabled(n, ops, a) && !Bug(n, ops, a) && Apply(n, ops, a) == m && (ordered ==> InOrder(n, a))
    ensures more == acts + [a] && Goes(NODE0, ops, more, ordered) && After(NODE0, ops, more, ordered) == m
  {
    Then(ops, acts, n, a, m, ordered);
    more := acts + [a];
  }

  /** The cancel that was decided on before is made of a lock the DLM no longer knows. */
  const FORGOTTEN: Node := Dropped(CANCELLING).(
    l := RecoverError(Dropped(CANCELLING).l, false), granted := IV, req := UnlockDone, dc := Finishing(true))

  lemma ForgottenRun() returns (acts: seq<Action>)
    ensures Goes(NODE0, OPS, acts, true) && After(NODE0, OPS, acts, true) == FORGOTTEN
  {
    hide Goes, After;
    acts := CancellingRun();
    acts := DropRun(OPS, acts, CANCELLING);
    var n1 := Dropped(CANCELLING).(granted := IV, req := UnlockDone);
    acts := Next(OPS, acts, Dropped(CANCELLING), DropCall, n1, true);
    acts := Next(OPS, acts, n1, CancelCall, FORGOTTEN, true);
  }

  lemma ForgottenFires()
    ensures Fires(FORGOTTEN, OPS, UnlockAstRuns) && FORGOTTEN.gone
  {
  }

  // ----- Runs of a cluster -----

  predicate Fires(n: Node, ops: LockOps, a: Action) {
    Enabled(n, ops, a) && Bug(n, ops, a)
  }

  predicate Stales(n: Node) {
    Fires(n, OPS, UnlockAstRuns) && StaleCancel(n, UnlockAstRuns) && !n.gone
  }

  predicate Attaches(n: Node, ops: LockOps) {
    Fires(n, ops, UnblockRuns(true)) && CancelsAttach(n, UnblockRuns(true))
  }

  predicate FiresEarly(n: Node, ops: LockOps, a: Action) {
    Fires(n, ops, a) && DroppedEarly(n, ops, a)
  }

  /** A run of a cluster of one node comes to the state. */
  ghost predicate Reached(n: Node, ops: LockOps, ordered: bool) {
    exists states: seq<Cluster>, moves: seq<Move> ::
      && Run(states, moves, ops) && (ordered ==> OrderedRun(states, moves, ops))
      && |states| == |moves| + 1 && states[|moves|] == [n]
  }

  lemma ReachedAfter(ops: LockOps, acts: seq<Action>, ordered: bool)
    requires Goes(NODE0, ops, acts, ordered)
    ensures Reached(After(NODE0, ops, acts, ordered), ops, ordered)
  {
    hide Run, OrderedRun;
    var states, moves := ClusterOfOne(ops, acts, ordered);
  }

  /** The stale cancel is reached with in-order delivery and no drop, the cancel of an initial request
      without in-order delivery. */
  lemma BothBugsReached()
    ensures exists n :: Reached(n, OPS, true) && Stales(n)
    ensures exists n :: Reached(n, OPS, false) && Attaches(n, OPS)
  {
    hide Goes, After, Stales, Attaches;
    var a := AttachRun(OPS);
    ReachedAfter(OPS, a, false);
    OvertakenAttaches(OPS);
    var b := StaleRun();
    ReachedAfter(OPS, b, true);
  }

  /** And every BUG_ON of a lock that was dropped too early is reached with in-order delivery. */
  lemma EarlyDropsReached()
    ensures exists n :: Reached(n, OPS, true) && FiresEarly(n, OPS, Free)
    ensures exists n :: Reached(n, OPS, true) && FiresEarly(n, OPS, UnblockRuns(true))
    ensures exists n :: Reached(n, OPS, true) && Fires(n, OPS, UnlockAstRuns) && n.gone
    ensures exists n :: Reached(n, WORKER, true) && FiresEarly(n, WORKER, WorkerDone(true))
    ensures exists n :: Reached(n, WORKER, true) && FiresEarly(n, WORKER, DropCall)
    ensures exists n :: Reached(n, WORKER, true) && FiresEarly(n, WORKER, Ast)
  {
    hide Goes, After, Fires, FiresEarly, Reached;
    var a := FreeRun();
    ReachedAfter(OPS, a, true);
    var b := LowersGoneRun();
    ReachedAfter(OPS, b, true);
    var f := ForgottenRun();
    ReachedAfter(OPS, f, true);
    ForgottenFires();
    var c := WorksOnGoneRun();
    ReachedAfter(WORKER, c, true);
    var d := LateRun();
    ReachedAfter(WORKER, d, true);
    var e := LateAstRun();
    ReachedAfter(WORKER, e, true);
  }
}
