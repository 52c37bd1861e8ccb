/** The cluster-lock protocol (dlmglue.c): N nodes, each with one copy of a lock resource, any
    number of threads asking for it, the downconvert thread and the callbacks, over a DLM that
    grants only compatible levels.  Every critical section is one atomic step; a step whose
    BUG_ON fires stops the machine, and `BugExactly` says when that can happen. */
module LockProtocol {
  import opened LockRes

  // ----- One node -----

  /** What the DLM is doing with this node's request. */
  datatype Req =
    | NoReq
    | Waiting(to: Level, noqueue: bool)  // accepted, not granted
    | Done(to: Level)                    // granted, the AST has not run
    | Refused                            // NOQUEUE and not granted, the AST has not run
    | UnlockDone                         // cancelled or dropped, the unlock AST has not run

  /** A call of ocfs2_dlm_lock(), from the section that decided on it to its last effect. */
  datatype Call =
    | Ready(gen: nat, to: Level, noqueue: bool)  // BUSY and PENDING are set, the DLM not called
    | Returned(gen: nat, ok: bool)               // the DLM has answered, PENDING not yet cleared
    | Failed                                     // PENDING cleared, not yet recovered

  datatype Waits = Runs | OnBusy | OnBlocked

  /** A thread inside __ocfs2_cluster_lock(). */
  datatype Locker = Locker(wanted: Level, noqueue: bool, nonblock: bool,
                           tried: bool, dlmLocked: bool, waits: Waits)

  /** Where the downconvert thread is with this lock. */
  datatype DcPc =
    | Idle
    | Taken                                   // off the list, FREEING not yet looked at
    | Unblocking                              // about to enter ocfs2_unblock_lock()
    | Working(blocking: Level, level: Level)  // in the downconvert worker
    | Cancelling                              // about to ask the DLM to cancel
    | Asking                                  // in ocfs2_downconvert_lock(), see calls[DC]
    | Finishing(requeue: bool)

  /** The downconvert thread's number; lockers have positive numbers. */
  const DC: nat := 0

  datatype Node = Node(
    l: LockState,
    granted: Level,             // the level the DLM holds for this node
    req: Req,
    calls: map<nat, Call>,
    lockers: map<nat, Locker>,
    dc: DcPc,
    listed: bool,               // on osb->blocked_lock_list
    gone: bool)                 // ocfs2_drop_lock() has begun

  const NODE0 := Node(FRESH, IV, NoReq, map[], map[], Idle, false, false)

  datatype Action =
    | Arrive(t: nat, locker: Locker)   // a thread calls __ocfs2_cluster_lock()
    | LockPass(t: nat)                 // and runs its critical section
    | CallDlm(t: nat, ok: bool)
    | ClearPendingOf(t: nat)
    | Recover(t: nat)
    | GiveUp(t: nat)                   // a NONBLOCK locker that would have to wait
    | Unlock(level: Level)
    | Grant
    | Refuse
    | Ast
    | UnlockAstRuns
    | Bast(level: Level)
    | Take
    | CheckFreeing
    | UnblockRuns(checkpointed: bool)
    | WorkerDone(checkpointed: bool)
    | WorkerStop
    | CancelCall
    | Finish
    | BeginRefresh
    | EndRefresh(ok: bool)
    | MarkFreeing
    | Unlist                           // the downconvert thread itself is freeing it
    | Drop
    | DropCall
    | Free                             // the checks of ocfs2_lock_res_free()

  predicate Fresh(k: Locker) {
    Lockable(k.wanted) && !k.tried && !k.dlmLocked && k.waits == Runs
  }

  /** The DLM has been told to drop the lock, and no longer knows it. */
  predicate AtDlmNoMore(n: Node) {
    n.gone && n.granted == IV
  }

  /** What callers, the DLM and the thread's own position demand of a step. */
  predicate Enabled(n: Node, ops: LockOps, a: Action) {
    match a
    case Arrive(t, k) => t != DC && t !in n.lockers && t !in n.calls && Fresh(k) && !n.l.freeing
    case LockPass(t) => t in n.lockers && t !in n.calls && Lockable(n.lockers[t].wanted)
    case CallDlm(t, ok) => t in n.calls && n.calls[t].Ready? && (ok ==> !AtDlmNoMore(n))
    case ClearPendingOf(t) => t in n.calls && n.calls[t].Returned?
    case Recover(t) => t in n.calls && n.calls[t].Failed?
    case GiveUp(t) =>
      && t in n.lockers && t !in n.calls && n.lockers[t].nonblock
      && (|| (n.lockers[t].waits == OnBusy && n.l.busy)
          || (n.lockers[t].waits == OnBlocked && n.l.blocked))
    case Unlock(level) => Lockable(level) && !UnlockBug(n.l, level)
    case Grant => n.req.Waiting?
    case Refuse => n.req.Waiting? && n.req.noqueue
    case Ast => n.req.Done? || n.req.Refused?
    case UnlockAstRuns => n.req.UnlockDone?
    case Bast(level) => Lockable(level) && n.granted > HighestCompat(level)
    case Take => n.listed && n.dc.Idle?
    case CheckFreeing => n.dc.Taken?
    case UnblockRuns(checkpointed) => n.dc.Unblocking?
    case WorkerDone(checkpointed) => n.dc.Working?
    case WorkerStop => n.dc.Working?
    case CancelCall => n.dc.Cancelling?
    case Finish => n.dc.Finishing?
    case BeginRefresh =>
      ops.requiresRefresh && n.l.needsRefresh && !n.l.refreshing && n.l.exHolders + n.l.roHolders > 0
    case EndRefresh(ok) => n.l.refreshing
    case MarkFreeing => !n.l.freeing && n.l.exHolders == 0 && n.l.roHolders == 0 && n.lockers == map[]
    case Unlist => n.l.freeing && !n.gone && n.l.queued && n.dc.Idle?
    case Drop => n.l.freeing && !n.gone && !n.l.queued && !n.l.busy && n.l.attached
    case DropCall => n.gone && n.granted != IV
    case Free =>
      && n.l.freeing && !n.l.queued && !n.l.busy
      && if n.gone then AtDlmNoMore(n) else !n.l.attached
  }

  /** The BUG_ONs in the way of a step. */
  predicate Bug(n: Node, ops: LockOps, a: Action)
    requires Enabled(n, ops, a)
  {
    match a
    case LockPass(_) => ClusterLockBug(n.l)
    case Ast => LockingAstBug(n.l, if n.req.Done? then AstGranted else AstAgain)
    case UnlockAstRuns => UnlockAstBug(n.l)
    case UnblockRuns(c) => UnblockBug(n.l, ops, c)
    case WorkerDone(c) => AfterWorkerBug(n.l, ops, c, n.dc.blocking, n.dc.level)
    case Drop => n.l.action != NoAction
    case DropCall => !n.req.NoReq?  // the DLM does not unlock a lock it is converting
    case Free => n.listed || n.l.exHolders > 0 || n.l.roHolders > 0
    case _ => false
  }

  function DoLockPass(n: Node, t: nat): Node
    requires t in n.lockers && t !in n.calls && Lockable(n.lockers[t].wanted)
  {
    var k := n.lockers[t];
    var (l, outcome) := ClusterLock(n.l, k.wanted, k.tried);
    match outcome
    case Acquired => n.(l := l, lockers := n.lockers - {t})
    case NotNow => n.(l := l, lockers := n.lockers - {t})
    case WaitBusy => n.(l := l, lockers := n.lockers[t := k.(waits := OnBusy)])
    case WaitBlocked => n.(l := l, lockers := n.lockers[t := k.(waits := OnBlocked)])
    case Request(gen) =>
      n.(l := l, lockers := n.lockers[t := k.(tried := k.tried || k.noqueue, waits := Runs)],
         calls := n.calls[t := Ready(gen, k.wanted, k.noqueue)])
  }

  function DoCallDlm(n: Node, t: nat, ok: bool): Node
    requires t in n.calls && n.calls[t].Ready?
  {
    var c := n.calls[t];
    n.(calls := n.calls[t := Returned(c.gen, ok)],
       req := if ok then Waiting(c.to, c.noqueue) else n.req)
  }

  function DoClearPending(n: Node, t: nat): Node
    requires t in n.calls && n.calls[t].Returned?
  {
    var c := n.calls[t];
    n.(l := ClearPending(n.l, c.gen),
       calls := if c.ok then n.calls - {t} else n.calls[t := Failed],
       dc := if c.ok && t == DC then Finishing(false) else n.dc,
       lockers := if c.ok && t != DC && t in n.lockers then n.lockers[t := n.lockers[t].(dlmLocked := true)]
                  else n.lockers)
  }

  /** A downconvert fails only with -EBUSY, which puts the lock back on the list. */
  function DoRecover(n: Node, t: nat): Node
    requires t in n.calls
  {
    n.(l := RecoverError(n.l, true), calls := n.calls - {t},
       dc := if t == DC then Finishing(true) else n.dc, lockers := n.lockers - {t})
  }

  function DoGiveUp(n: Node, t: nat): Node
    requires t in n.lockers
  {
    n.(lockers := n.lockers - {t},
       l := n.l.(nonblockFinished := n.l.nonblockFinished || n.lockers[t].dlmLocked))
  }

  function DoBast(n: Node, level: Level): Node {
    var (l, listed) := BlockingAst(n.l, level);
    n.(l := l, listed := n.listed || listed)
  }

  /** What the downconvert thread does next after the section of ocfs2_unblock_lock(). */
  function AfterUnblock(n: Node, l: LockState, outcome: UnblockOutcome): Node {
    match outcome
    case Settled => n.(l := l, dc := Finishing(false))
    case Requeue => n.(l := l, dc := Finishing(true))
    case Cancel => n.(l := l, dc := Cancelling)
    case RunWorker(b, lv) => n.(l := l, dc := Working(b, lv))
    case Downcvt(newLevel, gen) =>
      n.(l := l, dc := Asking, calls := n.calls[DC := Ready(gen, newLevel, false)])
  }

  function DoUnblock(n: Node, ops: LockOps, checkpointed: bool): Node {
    var (l, outcome) := Unblock(n.l, ops, checkpointed);
    AfterUnblock(n, l, outcome)
  }

  function DoWorkerDone(n: Node, ops: LockOps, checkpointed: bool): Node
    requires n.dc.Working?
  {
    var (l, outcome) := AfterWorker(n.l, ops, checkpointed, n.dc.blocking, n.dc.level);
    AfterUnblock(n, l, outcome)
  }

  /** The DLM takes a request off its convert queue, or finds none to cancel; or it does not know the
      lock any more, and the glue forgets the cancel. */
  function DoCancel(n: Node): Node {
    n.(dc := Finishing(true), req := if n.req.Waiting? then UnlockDone else n.req,
       l := ForgetCancel(n.l, AtDlmNoMore(n)))
  }

  function ForgetCancel(l: LockState, failed: bool): (r: LockState)
    ensures r == if failed then RecoverError(l, false) else l
  {
    l.(busy := l.busy && !failed, upconvertFinishing := l.upconvertFinishing && !failed,
       unlockAction := if failed then NoUnlock else l.unlockAction)
  }

  function DoFinish(n: Node): Node
    requires n.dc.Finishing?
  {
    var (l, listed) := FinishProcess(n.l, n.dc.requeue);
    n.(l := l, dc := Idle, listed := n.listed || listed)
  }

  function Apply(n: Node, ops: LockOps, a: Action): Node
    requires Enabled(n, ops, a) && !Bug(n, ops, a)
  {
    match a
    case Arrive(t, k) => n.(lockers := n.lockers[t := k])
    case LockPass(t) => DoLockPass(n, t)
    case CallDlm(t, ok) => DoCallDlm(n, t, ok)
    case ClearPendingOf(t) => DoClearPending(n, t)
    case Recover(t) => DoRecover(n, t)
    case GiveUp(t) => DoGiveUp(n, t)
    case Unlock(level) => n.(l := ClusterUnlock(n.l, level))
    case Grant => n.(granted := n.req.to, req := Done(n.req.to))
    case Refuse => n.(req := Refused)
    case Ast =>
      n.(l := LockingAst(n.l, ops, if n.req.Done? then AstGranted else AstAgain), req := NoReq)
    case UnlockAstRuns => n.(l := UnlockAst(n.l), req := NoReq)
    case Bast(level) => DoBast(n, level)
    case Take => n.(listed := false, dc := Taken)
    case CheckFreeing => n.(dc := if n.l.freeing then Finishing(false) else Unblocking)
    case UnblockRuns(c) => DoUnblock(n, ops, c)
    case WorkerDone(c) => DoWorkerDone(n, ops, c)
    case WorkerStop => n.(dc := Finishing(false))
    case CancelCall => DoCancel(n)
    case Finish => DoFinish(n)
    case BeginRefresh => n.(l := StartRefresh(n.l))
    case EndRefresh(ok) => n.(l := CompleteRefresh(n.l, ok))
    case MarkFreeing => n.(l := n.l.(freeing := true))
    case Unlist => n.(l := n.l.(queued := false), listed := false)
    case Drop => n.(l := StartDrop(n.l), gone := true)
    case DropCall => n.(granted := IV, req := UnlockDone)
    case Free => n
  }

  // ----- What every step keeps on a node -----

  predicate LevelInv(n: Node) {
    var l := n.l;
    && IsLevel(l.level)
    && (l.blocking == NL || l.blocking == PR || l.blocking == EX)
    && (l.blocked <==> l.blocking > NL)
    && !l.local && l.unlockAction != DropLock
    && (l.attached <==> l.level >= NL)
    && (!l.busy ==> l.action == NoAction && n.req == NoReq && n.granted == l.level)
    && (l.pending ==> l.busy)
    && (l.blocked ==> n.granted > HighestCompat(l.blocking) || (l.action == Downconvert && n.req.Done?))
  }

  predicate ActionInv(n: Node) {
    var l := n.l;
    && (l.busy ==> l.action != NoAction)
    && (l.action == Attach ==> l.level == IV && Lockable(l.requested))
    && (l.action == Convert ==> NL <= l.level < l.requested && Lockable(l.requested))
    && (l.action == Downconvert ==>
          && (l.requested == NL || l.requested == PR) && l.requested < l.level
          && l.blocked && !l.upconvertFinishing
          && HighestCompat(l.blocking) <= l.requested)
  }

  predicate ReqInv(n: Node) {
    match n.req
    case NoReq => n.granted == n.l.level
    case Waiting(to, nq) => to == n.l.requested && n.granted == n.l.level && (nq ==> n.l.action != Downconvert)
    case Done(to) => to == n.l.requested == n.granted
    case Refused => n.granted == n.l.level && n.l.action != Downconvert
    case UnlockDone => n.granted == n.l.level
  }

  predicate HolderInv(n: Node) {
    && (n.l.exHolders > 0 ==> Cap(n.l) == EX)
    && (n.l.roHolders > 0 ==> Cap(n.l) >= PR)
    && (n.l.freeing ==> n.l.exHolders == 0 && n.l.roHolders == 0 && n.lockers == map[])
  }

  /** A call that has not reached the DLM, or that the DLM turned down. */
  predicate Active(c: Call) {
    c.Ready? || c.Failed? || (c.Returned? && !c.ok)
  }

  /** What such a call relies on: the lock is busy for it and the DLM has nothing to do.  Once the lock
      is being dropped only a downconvert can still be made. */
  predicate Owned(n: Node) {
    if n.gone then n.l.action == Downconvert && (n.granted != IV ==> n.req == NoReq)
    else n.l.busy && n.req == NoReq
  }

  predicate CallInv(n: Node, c: Call) {
    match c
    case Ready(gen, to, nq) =>
      && Owned(n) && n.l.pending && gen == n.l.pendingGen
      && to == n.l.requested && (nq ==> n.l.action != Downconvert)
    case Returned(gen, ok) =>
      && gen <= n.l.pendingGen && (gen == n.l.pendingGen ==> n.l.pending)
      && (!ok ==> Owned(n) && gen == n.l.pendingGen)
    case Failed => Owned(n) && !n.l.pending
  }

  /** The call is about the request that is being made now. */
  predicate Current(n: Node, c: Call) {
    c.Failed? || c.gen == n.l.pendingGen
  }

  predicate CallsInv(n: Node) {
    && (forall t :: t in n.calls ==> CallInv(n, n.calls[t]))
    && (forall t, u :: t in n.calls && u in n.calls && Current(n, n.calls[t]) && Current(n, n.calls[u])
                       ==> t == u)
    && (DC in n.calls <==> n.dc.Asking?)
    && DC !in n.lockers
  }

  predicate CancelInv(n: Node) {
    && (n.l.unlockAction == CancelConvert && n.req.UnlockDone? ==> !n.l.pending)
    && (n.l.unlockAction == CancelConvert && n.dc.Cancelling? ==> !n.l.pending && n.l.blocked)
  }

  /** While the worker runs nothing can start or be admitted that would be in its way. */
  predicate WorkerInv(n: Node) {
    n.dc.Working? ==>
      && Lockable(n.dc.blocking)
      && HighestCompat(n.l.blocking) <= HighestCompat(n.dc.blocking)
      && !n.l.busy && n.l.blocked && !n.l.upconvertFinishing && n.l.level == n.dc.level
      && (n.l.exHolders > 0 ==> n.dc.blocking != PR && n.dc.blocking != EX)
      && (n.l.roHolders > 0 ==> n.dc.blocking != EX)
  }

  predicate LiveInv(n: Node) {
    && !n.gone
    && LevelInv(n) && ActionInv(n) && ReqInv(n) && HolderInv(n) && CancelInv(n) && WorkerInv(n)
  }

  /** Once ocfs2_drop_lock() has begun.  The lock may still be on the list and the downconvert thread
      may still have it in hand; all it can then start is the downconvert its worker was run for. */
  predicate DroppedRes(n: Node) {
    var l := n.l;
    && n.gone && l.freeing && !l.attached && !l.local
    && l.exHolders == 0 && l.roHolders == 0 && n.lockers == map[]
    && IsLevel(l.level) && (l.blocking == NL || l.blocking == PR || l.blocking == EX)
    && (l.blocked <==> l.blocking > NL)
    && (l.action == NoAction || l.action == Downconvert)
    && (l.action == Downconvert ==>
          (l.requested == NL || l.requested == PR) && (l.requested < l.level || l.level == IV) && !l.upconvertFinishing)
    && (l.pending ==> l.action == Downconvert)
    && l.unlockAction != CancelConvert
  }

  predicate DroppedReq(n: Node) {
    && IsLevel(n.granted) && (n.granted != IV ==> n.l.unlockAction == DropLock)
    && match n.req
       case NoReq => n.granted == IV || n.granted == n.l.level
       case Waiting(to, nq) =>
         n.granted != IV && n.granted == n.l.level && n.l.action == Downconvert && !nq && to == n.l.requested
       case Done(to) => n.granted != IV && n.l.action == Downconvert && to == n.l.requested == n.granted
       case Refused => false
       case UnlockDone => n.granted == IV
  }

  predicate DroppedThread(n: Node) {
    var l := n.l;
    && (n.dc.Unblocking? || n.dc.Working? || n.dc.Cancelling? ==> l.action == NoAction)
    && (n.dc.Unblocking? || n.dc.Working? ==>
          && (l.busy <==> l.level != IV)
          && (l.level != IV && l.blocked ==> l.level > HighestCompat(l.blocking)))
    && (n.dc.Working? ==> l.blocked && !l.upconvertFinishing)
  }

  predicate DroppedInv(n: Node) {
    DroppedRes(n) && DroppedReq(n) && DroppedThread(n)
  }

  /** Everything but the calls and the list. */
  predicate CoreInv(n: Node) {
    if n.gone then DroppedInv(n) else LiveInv(n)
  }

  /** QUEUED is set only while the lock is on the list or in the downconvert thread's hands, which it
      is only once it was granted. */
  predicate QueueInv(n: Node) {
    && (n.l.queued ==> n.listed || !n.dc.Idle?)
    && (n.listed && !n.dc.Idle? ==> n.l.queued)
    && (n.listed || !n.dc.Idle? ==> n.gone || n.granted >= NL)
  }

  predicate NodeInv(n: Node) {
    CoreInv(n) && CallsInv(n) && QueueInv(n)
  }

  /** A lock dropped while it was off the list and out of the downconvert thread's hands stays so. */
  predicate TimelyInv(n: Node) {
    n.gone ==>
      && !n.listed && n.dc.Idle? && n.l.action == NoAction
      && (n.l.busy <==> n.l.unlockAction == DropLock) && (n.l.unlockAction == NoUnlock ==> n.l.level == IV)
  }

  /** In the machine the resource meets what its critical sections ask of their callers. */
  lemma PassesMayRun(n: Node)
    requires NodeInv(n) && TimelyInv(n)
    ensures ResOk(n.l)
    ensures n.req.UnlockDone? && n.l.unlockAction == CancelConvert ==> !n.l.pending
    ensures n.req.Done? || n.req.Refused? ==> n.l.unlockAction != DropLock
    ensures n.dc.Working? && n.dc.blocking == n.l.blocking && n.dc.level == n.l.level ==>
              n.l.blocked && !n.l.busy && WorkerMay(n.l)
  {
    hide CallsInv, QueueInv;
  }

  // ----- Each step keeps them -----

  predicate LiveNode(n: Node) {
    LiveInv(n) && CallsInv(n)
  }

  predicate SameRequest(n: Node, m: Node) {
    && m.l.pending == n.l.pending && m.l.pendingGen == n.l.pendingGen
    && m.l.requested == n.l.requested && (Owned(n) ==> Owned(m))
    && (m.l.action == Downconvert <==> n.l.action == Downconvert)
  }

  /** Nothing a call relies on has changed, or only calls that own nothing are left. */
  lemma CallsKept(n: Node, m: Node)
    requires CallsInv(n) && m.calls == n.calls && m.dc.Asking? == n.dc.Asking? && DC !in m.lockers
    requires
      || SameRequest(n, m)
      || (!Owned(n) && (|| m.l.pendingGen > n.l.pendingGen
                         || (m.l.pendingGen == n.l.pendingGen && (n.l.pending ==> m.l.pending))))
    ensures CallsInv(m)
  {
    forall t | t in m.calls
      ensures CallInv(m, m.calls[t]) && (Current(m, m.calls[t]) ==> Current(n, n.calls[t]))
    {
      assert CallInv(n, n.calls[t]);
    }
  }

  // The critical section of a locker.

  lemma AcquireCore(n: Node, level: Level, lockers: map<nat, Locker>)
    requires LiveInv(n) && Lockable(level) && level <= n.l.level && !n.l.freeing
    requires n.l.upconvertFinishing || (n.l.blocked ==> level <= HighestCompat(n.l.blocking))
    ensures LiveInv(n.(l := IncHolders(n.l, level).(upconvertFinishing := false), lockers := lockers))
  {
  }

  lemma WaitCore(n: Node, lockers: map<nat, Locker>)
    requires LiveInv(n) && !n.l.freeing
    ensures LiveInv(n.(l := n.l.(upconvertFinishing := false), lockers := lockers))
  {
  }

  lemma RequestCore(n: Node, level: Level, lockers: map<nat, Locker>, calls: map<nat, Call>)
    requires LiveInv(n) && Lockable(level) && !n.l.freeing && n.l.level < level && !n.l.busy
    requires n.l.blocked ==> level <= HighestCompat(n.l.blocking)
    ensures LiveInv(n.(l := n.l.(action := if n.l.attached then Convert else Attach,
               requested := level, busy := true, pending := true), lockers := lockers, calls := calls))
  {
  }

  lemma LockPassCore(n: Node, t: nat)
    requires LiveInv(n) && t in n.lockers && t !in n.calls && Lockable(n.lockers[t].wanted)
    ensures !n.l.freeing && LiveInv(DoLockPass(n, t))
  {
    hide LevelInv, ActionInv, ReqInv, CancelInv, WorkerInv, IncHolders, ClusterLock;
    var k := n.lockers[t];
    var m := DoLockPass(n, t);
    LockShape(n.l, k.wanted, k.tried);
    match ClusterLock(n.l, k.wanted, k.tried).1
    case Acquired => AcquireCore(n, k.wanted, m.lockers);
    case Request(gen) => RequestCore(n, k.wanted, m.lockers, m.calls);
    case _ => WaitCore(n, m.lockers);
  }

  lemma RequestCalls(n: Node, m: Node, t: nat, level: Level, noqueue: bool, action: AstAction)
    requires CallsInv(n) && !n.l.busy && !n.l.pending && !n.gone && n.req == NoReq && DC !in m.lockers
    requires m.l == n.l.(action := action, requested := level, busy := true, pending := true)
    requires m.calls == n.calls[t := Ready(n.l.pendingGen, level, noqueue)] && m.req == n.req && !m.gone
    requires (t == DC ==> m.dc.Asking?) && (t != DC ==> m.dc.Asking? == n.dc.Asking?)
    requires noqueue ==> action != Downconvert
    ensures CallsInv(m)
  {
    forall u | u in n.calls
      ensures CallInv(m, n.calls[u]) && !Current(m, n.calls[u])
    {
      assert CallInv(n, n.calls[u]);
    }
  }

  /** What the invariant says about a lock that is not busy, and about one that has lockers. */
  lemma QuietFacts(n: Node)
    requires LiveInv(n)
    ensures !n.l.busy ==> !n.l.pending && n.req == NoReq && n.l.action == NoAction && n.granted == n.l.level
    ensures !n.gone && (n.l.freeing ==> n.lockers == map[])
  {
  }

  lemma CallFacts(n: Node)
    requires CallsInv(n)
    ensures DC !in n.lockers && (DC in n.calls <==> n.dc.Asking?)
  {
  }

  lemma LockPassCalls(n: Node, t: nat)
    requires LiveNode(n) && t in n.lockers && t !in n.calls && Lockable(n.lockers[t].wanted)
    ensures CallsInv(DoLockPass(n, t))
  {
    hide LiveInv, CallsInv, IncHolders, ClusterLock;
    var k := n.lockers[t];
    var m := DoLockPass(n, t);
    LockShape(n.l, k.wanted, k.tried);
    QuietFacts(n);
    CallFacts(n);
    match ClusterLock(n.l, k.wanted, k.tried).1
    case Request(gen) => RequestCalls(n, m, t, k.wanted, k.noqueue, m.l.action);
    case Acquired => CallsKept(n, m);
    case NotNow => CallsKept(n, m);
    case WaitBusy => CallsKept(n, m);
    case WaitBlocked => CallsKept(n, m);
  }

  // A call of the DLM.

  lemma CallDlmKeeps(n: Node, t: nat, ok: bool)
    requires LiveNode(n) && t in n.calls && n.calls[t].Ready?
    ensures LiveNode(DoCallDlm(n, t, ok))
  {
    var m := DoCallDlm(n, t, ok);
    assert CallInv(n, n.calls[t]);
    forall u | u in m.calls && u != t
      ensures CallInv(m, m.calls[u]) && !Current(m, m.calls[u])
    {
      assert CallInv(n, n.calls[u]) && Current(n, n.calls[t]);
    }
  }

  lemma ClearPendingCore(n: Node, t: nat)
    requires LiveNode(n) && t in n.calls && n.calls[t].Returned?
    ensures LiveInv(DoClearPending(n, t))
  {
    assert CallInv(n, n.calls[t]);
    assert n.l.freeing ==> t !in n.lockers;
  }

  lemma ClearPendingCalls(n: Node, t: nat)
    requires LiveNode(n) && t in n.calls && n.calls[t].Returned?
    ensures CallsInv(DoClearPending(n, t))
  {
    hide ReqInv, HolderInv, CancelInv, WorkerInv;
    var m := DoClearPending(n, t);
    assert CallInv(n, n.calls[t]);
    forall u | u in m.calls && u != t
      ensures CallInv(m, m.calls[u]) && (Current(m, m.calls[u]) ==> Current(n, n.calls[u]))
    {
      assert CallInv(n, n.calls[u]);
    }
  }

  lemma RecoverKeeps(n: Node, t: nat)
    requires LiveNode(n) && t in n.calls && n.calls[t].Failed?
    ensures LiveNode(DoRecover(n, t))
  {
    var m := DoRecover(n, t);
    assert CallInv(n, n.calls[t]);
    forall u | u in m.calls
      ensures CallInv(m, m.calls[u]) && !Current(m, m.calls[u])
    {
      assert CallInv(n, n.calls[u]) && Current(n, n.calls[t]);
    }
  }

  // The callbacks.

  function AstStatusOf(n: Node): AstStatus {
    if n.req.Done? then AstGranted else AstAgain
  }

  lemma AstCore(n: Node, ops: LockOps)
    requires LiveInv(n) && (n.req.Done? || n.req.Refused?)
    ensures !LockingAstBug(n.l, AstStatusOf(n))
    ensures LiveInv(n.(l := LockingAst(n.l, ops, AstStatusOf(n)), req := NoReq))
  {
    if n.req.Done? {
      match n.l.action
      case NoAction =>
      case Attach =>
      case Convert =>
      case Downconvert =>
    }
  }

  lemma UnlockAstCore(n: Node)
    requires LiveInv(n) && n.req.UnlockDone? && !UnlockAstBug(n.l)
    ensures LiveInv(n.(l := UnlockAst(n.l), req := NoReq))
  {
  }

  lemma BastCore(n: Node, level: Level)
    requires LiveInv(n) && Lockable(level) && n.granted > HighestCompat(level)
    ensures LiveInv(DoBast(n, level))
  {
  }

  // The downconvert thread.

  lemma PrepareCore(n: Node, newLevel: Level, calls: map<nat, Call>)
    requires LiveInv(n) && !n.gone && !n.l.busy && n.l.blocked && !n.l.upconvertFinishing
    requires n.dc.Unblocking? || n.dc.Working?
    requires newLevel == HighestCompat(n.l.blocking)
    requires (n.l.exHolders > 0 ==> n.l.blocking != PR && n.l.blocking != EX)
    requires (n.l.roHolders > 0 ==> n.l.blocking != EX)
    ensures LiveInv(n.(l := PrepareDowncvt(n.l, newLevel).0, dc := Asking, calls := calls))
    ensures !PrepareDowncvtBug(n.l)
  {
  }

  lemma SettledCore(n: Node)
    requires LiveInv(n) && (n.dc.Unblocking? || n.dc.Working?) && !n.l.busy && n.l.level == NL
    ensures LiveInv(n.(l := n.l.(blocking := NL, blocked := false), dc := Finishing(false)))
  {
  }

  lemma StartCancelCore(n: Node)
    requires LiveInv(n) && (n.dc.Unblocking? || n.dc.Working?)
    requires n.l.busy && n.l.blocked && !n.l.pending
    ensures LiveInv(n.(l := n.l.(unlockAction := CancelConvert), dc := Cancelling))
  {
  }

  lemma StartWorkerCore(n: Node)
    requires LiveInv(n) && (n.dc.Unblocking? || n.dc.Working?)
    requires !n.l.busy && n.l.blocked && !n.l.upconvertFinishing
    requires n.l.blocking == EX ==> n.l.exHolders == 0 && n.l.roHolders == 0
    requires n.l.blocking == PR ==> n.l.exHolders == 0
    ensures LiveInv(n.(dc := Working(n.l.blocking, n.l.level)))
  {
  }

  lemma MoveCore(n: Node, dc: DcPc)
    requires LiveInv(n) && !n.gone && !dc.Cancelling? && !dc.Working?
    ensures LiveInv(n.(dc := dc))
  {
  }

  lemma UnblockCore(n: Node, ops: LockOps, checkpointed: bool)
    requires LiveInv(n) && (n.dc.Unblocking? || n.dc.Working?)
    ensures LiveInv(DoUnblock(n, ops, checkpointed))
  {
    hide ReqInv, CancelInv, WorkerInv, LevelInv, ActionInv, HolderInv;
    QuietFacts(n);
    match Unblock(n.l, ops, checkpointed).1
    case Settled =>
      if n.l.blocked { SettledCore(n); } else { MoveCore(n, Finishing(false)); }
    case Requeue => MoveCore(n, Finishing(true));
    case Cancel => StartCancelCore(n);
    case RunWorker(_, _) => StartWorkerCore(n);
    case Downcvt(newLevel, gen) => PrepareCore(n, newLevel, n.calls[DC := Ready(gen, newLevel, false)]);
  }

  lemma UnblockCalls(n: Node, ops: LockOps, checkpointed: bool)
    requires LiveNode(n) && (n.dc.Unblocking? || n.dc.Working?)
    ensures CallsInv(DoUnblock(n, ops, checkpointed))
  {
    hide LiveInv, CallsInv;
    QuietFacts(n);
    CallFacts(n);
    var m := DoUnblock(n, ops, checkpointed);
    match Unblock(n.l, ops, checkpointed).1
    case Downcvt(newLevel, gen) => RequestCalls(n, m, DC, newLevel, false, Downconvert);
    case Settled => CallsKept(n, m);
    case Requeue => CallsKept(n, m);
    case Cancel => CallsKept(n, m);
    case RunWorker(_, _) => CallsKept(n, m);
  }

  lemma WorkerDoneKeeps(n: Node, ops: LockOps, checkpointed: bool)
    requires LiveNode(n) && n.dc.Working?
    ensures LiveNode(DoWorkerDone(n, ops, checkpointed))
  {
    var m := DoWorkerDone(n, ops, checkpointed);
    if n.dc.blocking != n.l.blocking || n.dc.level != n.l.level {
      assert m == DoUnblock(n, ops, checkpointed);
      UnblockCore(n, ops, checkpointed);
      UnblockCalls(n, ops, checkpointed);
    } else {
      PrepareCore(n, HighestCompat(n.l.blocking), m.calls);
      RequestCalls(n, m, DC, HighestCompat(n.l.blocking), false, Downconvert);
    }
  }

  // The other steps.

  /** The steps that neither start nor settle a call, the callbacks apart, by what they change: the
      lockers, the lock resource, the DLM's request, or the downconvert thread's place. */
  predicate OfLockers(a: Action) {
    a.Arrive? || a.GiveUp?
  }

  predicate OfResource(a: Action) {
    a.Unlock? || a.BeginRefresh? || a.EndRefresh? || a.MarkFreeing? || a.Free?
  }

  predicate OfRequest(a: Action) {
    a.Grant? || a.Refuse? || a.CancelCall? || a.Drop? || a.DropCall?
  }

  predicate OfThread(a: Action) {
    a.Take? || a.CheckFreeing? || a.WorkerStop? || a.Finish? || a.Unlist?
  }

  predicate Plain(a: Action) {
    OfLockers(a) || OfResource(a) || OfRequest(a) || OfThread(a)
  }

  lemma LockersCore(n: Node, ops: LockOps, a: Action)
    requires LiveInv(n) && Enabled(n, ops, a) && !Bug(n, ops, a) && OfLockers(a)
    ensures LiveInv(Apply(n, ops, a))
  {
    match a
    case Arrive(_, _) =>
    case GiveUp(_) =>
  }

  lemma ResourceCore(n: Node, ops: LockOps, a: Action)
    requires LiveInv(n) && Enabled(n, ops, a) && !Bug(n, ops, a) && OfResource(a)
    ensures LiveInv(Apply(n, ops, a))
  {
    match a
    case Unlock(_) =>
    case BeginRefresh =>
    case EndRefresh(_) =>
    case MarkFreeing =>
    case Free =>
  }

  lemma RequestsCore(n: Node, ops: LockOps, a: Action)
    requires LiveInv(n) && Enabled(n, ops, a) && !Bug(n, ops, a) && OfRequest(a) && !a.Drop?
    ensures LiveInv(Apply(n, ops, a))
  {
    match a
    case Grant =>
    case Refuse =>
    case CancelCall =>
    case DropCall =>
  }

  lemma ThreadCore(n: Node, ops: LockOps, a: Action)
    requires LiveInv(n) && Enabled(n, ops, a) && !Bug(n, ops, a) && OfThread(a)
    ensures LiveInv(Apply(n, ops, a))
  {
    match a
    case Take =>
    case CheckFreeing =>
    case WorkerStop =>
    case Finish =>
    case Unlist =>
  }

  lemma PlainCore(n: Node, ops: LockOps, a: Action)
    requires LiveInv(n) && Enabled(n, ops, a) && !Bug(n, ops, a) && Plain(a) && !a.Drop?
    ensures LiveInv(Apply(n, ops, a))
  {
    hide LiveInv, Enabled, Bug, Apply;
    if OfLockers(a) {
      LockersCore(n, ops, a);
    } else if OfResource(a) {
      ResourceCore(n, ops, a);
    } else if OfRequest(a) {
      RequestsCore(n, ops, a);
    } else {
      ThreadCore(n, ops, a);
    }
  }

  /** No plain step touches the calls, and only some settle what is asked of the DLM. */
  lemma LockersCalls(n: Node, ops: LockOps, a: Action)
    requires LiveNode(n) && Enabled(n, ops, a) && !Bug(n, ops, a) && OfLockers(a)
    ensures CallsInv(Apply(n, ops, a))
  {
    hide LiveInv, CallsInv;
    CallFacts(n);
    match a
    case Arrive(_, _) => CallsKept(n, Apply(n, ops, a));
    case GiveUp(_) => CallsKept(n, Apply(n, ops, a));
  }

  lemma ResourceCalls(n: Node, ops: LockOps, a: Action)
    requires LiveNode(n) && Enabled(n, ops, a) && !Bug(n, ops, a) && OfResource(a)
    ensures CallsInv(Apply(n, ops, a))
  {
    hide LiveInv, CallsInv;
    CallFacts(n);
    match a
    case Unlock(_) => CallsKept(n, Apply(n, ops, a));
    case BeginRefresh => CallsKept(n, Apply(n, ops, a));
    case EndRefresh(_) => CallsKept(n, Apply(n, ops, a));
    case MarkFreeing => CallsKept(n, Apply(n, ops, a));
    case Free => CallsKept(n, Apply(n, ops, a));
  }

  lemma RequestsCalls(n: Node, ops: LockOps, a: Action)
    requires LiveNode(n) && Enabled(n, ops, a) && !Bug(n, ops, a) && OfRequest(a) && !a.Drop?
    ensures CallsInv(Apply(n, ops, a))
  {
    hide LiveInv, CallsInv;
    QuietFacts(n);
    CallFacts(n);
    match a
    case Grant => CallsKept(n, Apply(n, ops, a));
    case Refuse => CallsKept(n, Apply(n, ops, a));
    case CancelCall => CallsKept(n, Apply(n, ops, a));
    case DropCall =>
  }

  lemma ThreadCalls(n: Node, ops: LockOps, a: Action)
    requires LiveNode(n) && Enabled(n, ops, a) && !Bug(n, ops, a) && OfThread(a)
    ensures CallsInv(Apply(n, ops, a))
  {
    hide LiveInv, CallsInv;
    CallFacts(n);
    match a
    case Take => CallsKept(n, Apply(n, ops, a));
    case CheckFreeing => CallsKept(n, Apply(n, ops, a));
    case WorkerStop => CallsKept(n, Apply(n, ops, a));
    case Finish => CallsKept(n, Apply(n, ops, a));
    case Unlist => CallsKept(n, Apply(n, ops, a));
  }

  lemma PlainCalls(n: Node, ops: LockOps, a: Action)
    requires LiveNode(n) && Enabled(n, ops, a) && !Bug(n, ops, a) && Plain(a) && !a.Drop?
    ensures CallsInv(Apply(n, ops, a))
  {
    hide LiveNode, CallsInv, Enabled, Bug, Apply;
    if OfLockers(a) {
      LockersCalls(n, ops, a);
    } else if OfResource(a) {
      ResourceCalls(n, ops, a);
    } else if OfRequest(a) {
      RequestsCalls(n, ops, a);
    } else {
      ThreadCalls(n, ops, a);
    }
  }

  lemma CallbackKeeps(n: Node, ops: LockOps, a: Action)
    requires LiveNode(n) && Enabled(n, ops, a) && !Bug(n, ops, a)
    requires a.Ast? || a.UnlockAstRuns? || a.Bast?
    ensures LiveNode(Apply(n, ops, a))
  {
    var m := Apply(n, ops, a);
    if a.Ast? {
      AstCore(n, ops);
      AstFrame(n.l, ops, AstStatusOf(n));
      hide LockingAst;
      CallsKept(n, m);
    } else if a.UnlockAstRuns? {
      UnlockAstCore(n);
      CallsKept(n, m);
    } else {
      BastCore(n, a.level);
      CallsKept(n, m);
    }
  }

  /** An AST settles the request that PENDING was about. */
  lemma AstFrame(l: LockState, ops: LockOps, status: AstStatus)
    ensures var m := LockingAst(l, ops, status);
      && m.pendingGen >= l.pendingGen && !m.pending && (l.pending ==> m.pendingGen > l.pendingGen)
  {
    hide HandleAst;
  }

  /** Every step but the start of a drop keeps a lock that is not being dropped in order. */
  lemma LiveKeeps(n: Node, ops: LockOps, a: Action)
    requires LiveNode(n) && Enabled(n, ops, a) && !Bug(n, ops, a) && !a.Drop?
    ensures LiveNode(Apply(n, ops, a))
  {
    hide LiveInv, CallsInv, DoLockPass, DoCallDlm, DoClearPending, DoRecover, DoGiveUp, DoBast,
      DoUnblock, DoWorkerDone, DoCancel, DoFinish, LockingAst, UnlockAst, Bug;
    match a
    case LockPass(t) => LockPassCore(n, t); LockPassCalls(n, t);
    case CallDlm(t, ok) => CallDlmKeeps(n, t, ok);
    case ClearPendingOf(t) => ClearPendingCore(n, t); ClearPendingCalls(n, t);
    case Recover(t) => RecoverKeeps(n, t);
    case UnblockRuns(c) => UnblockCore(n, ops, c); UnblockCalls(n, ops, c);
    case WorkerDone(c) => WorkerDoneKeeps(n, ops, c);
    case Ast => CallbackKeeps(n, ops, a);
    case UnlockAstRuns => CallbackKeeps(n, ops, a);
    case Bast(_) => CallbackKeeps(n, ops, a);
    case _ => PlainCore(n, ops, a); PlainCalls(n, ops, a);
  }

  // A lock that is being dropped.

  predicate DroppedNode(n: Node) {
    DroppedInv(n) && CallsInv(n)
  }

  lemma DropKeeps(n: Node, ops: LockOps)
    requires LiveNode(n) && Enabled(n, ops, Drop)
    ensures DroppedNode(Apply(n, ops, Drop))
  {
    hide CallsInv;
    CallFacts(n);
    CallsKept(n, Apply(n, ops, Drop));
  }

  lemma DroppedUnblock(n: Node, ops: LockOps, checkpointed: bool)
    requires DroppedNode(n) && (n.dc.Unblocking? || n.dc.Working?) && !UnblockBug(n.l, ops, checkpointed)
    ensures DroppedNode(DoUnblock(n, ops, checkpointed))
  {
    hide CallsInv;
    CallFacts(n);
    var m := DoUnblock(n, ops, checkpointed);
    match Unblock(n.l, ops, checkpointed).1
    case Settled => CallsKept(n, m);
    case Requeue => CallsKept(n, m);
    case RunWorker(_, _) => CallsKept(n, m);
    case _ =>
  }

  /** The downconvert that a worker was run for, of a lock that is being dropped meanwhile. */
  lemma DroppedRequest(n: Node, m: Node, newLevel: Level)
    requires DroppedNode(n) && n.dc.Working? && newLevel == HighestCompat(n.l.blocking)
    requires m == n.(l := PrepareDowncvt(n.l, newLevel).0, dc := Asking,
                     calls := n.calls[DC := Ready(n.l.pendingGen, newLevel, false)])
    ensures DroppedNode(m)
  {
    forall u | u in n.calls
      ensures CallInv(m, n.calls[u]) && !Current(m, n.calls[u])
    {
      assert CallInv(n, n.calls[u]);
    }
  }

  lemma DroppedWorkerDone(n: Node, ops: LockOps, checkpointed: bool)
    requires DroppedNode(n) && n.dc.Working? && !AfterWorkerBug(n.l, ops, checkpointed, n.dc.blocking, n.dc.level)
    ensures DroppedNode(DoWorkerDone(n, ops, checkpointed))
  {
    hide DroppedNode, Unblock, UnblockBug;
    if n.dc.blocking != n.l.blocking || n.dc.level != n.l.level {
      DroppedUnblock(n, ops, checkpointed);
    } else {
      DroppedRequest(n, DoWorkerDone(n, ops, checkpointed), HighestCompat(n.dc.blocking));
    }
  }

  lemma DroppedCalls(n: Node, ops: LockOps, a: Action)
    requires DroppedNode(n) && Enabled(n, ops, a) && (a.CallDlm? || a.ClearPendingOf? || a.Recover?)
    ensures CallsInv(Apply(n, ops, a))
  {
    hide DroppedThread;
    var m := Apply(n, ops, a);
    assert CallInv(n, n.calls[a.t]);
    forall u | u in m.calls && u != a.t
      ensures CallInv(m, m.calls[u]) && (Current(m, m.calls[u]) ==> Current(n, n.calls[u]))
      ensures a.CallDlm? || a.Recover? ==> !Current(m, m.calls[u])
    {
      assert CallInv(n, n.calls[u]);
      assert a.CallDlm? || a.Recover? ==> Current(n, n.calls[a.t]);
    }
  }

  lemma DroppedCallsCore(n: Node, ops: LockOps, a: Action)
    requires DroppedNode(n) && Enabled(n, ops, a) && (a.CallDlm? || a.ClearPendingOf? || a.Recover?)
    ensures DroppedInv(Apply(n, ops, a))
  {
    assert CallInv(n, n.calls[a.t]);
    match a
    case CallDlm(_, _) =>
    case ClearPendingOf(_) =>
    case Recover(_) =>
  }

  lemma DroppedAsks(n: Node, ops: LockOps, a: Action)
    requires DroppedInv(n) && Enabled(n, ops, a) && !Bug(n, ops, a) && OfRequest(a)
    ensures DroppedInv(Apply(n, ops, a))
  {
    match a
    case Grant =>
    case CancelCall =>
    case DropCall =>
    case _ =>
  }

  lemma DroppedMoves(n: Node, ops: LockOps, a: Action)
    requires DroppedInv(n) && Enabled(n, ops, a) && !Bug(n, ops, a) && Plain(a) && !OfRequest(a)
    ensures DroppedInv(Apply(n, ops, a))
  {
    hide DroppedReq;
    DroppedEnds(n, ops, a);
    match a
    case EndRefresh(_) =>
    case Free =>
    case _ =>
  }

  lemma DroppedEnds(n: Node, ops: LockOps, a: Action)
    requires DroppedInv(n) && Enabled(n, ops, a) && !Bug(n, ops, a) && Plain(a) && !OfRequest(a)
    ensures DroppedReq(Apply(n, ops, a))
  {
    hide DroppedThread;
    match a
    case EndRefresh(_) =>
    case Free =>
    case _ =>
  }

  lemma DroppedAsksCalls(n: Node, ops: LockOps, a: Action)
    requires DroppedNode(n) && Enabled(n, ops, a) && !Bug(n, ops, a) && OfRequest(a)
    ensures CallsInv(Apply(n, ops, a))
  {
    hide CallsInv;
    CallFacts(n);
    var m := Apply(n, ops, a);
    match a
    case Grant => CallsKept(n, m);
    case CancelCall => CallsKept(n, m);
    case DropCall => CallsKept(n, m);
    case _ =>
  }

  lemma DroppedMovesCalls(n: Node, ops: LockOps, a: Action)
    requires DroppedNode(n) && Enabled(n, ops, a) && !Bug(n, ops, a) && Plain(a) && !OfRequest(a)
    ensures CallsInv(Apply(n, ops, a))
  {
    hide CallsInv, DroppedThread, DroppedReq;
    CallFacts(n);
    var m := Apply(n, ops, a);
    match a
    case EndRefresh(_) => CallsKept(n, m);
    case Take => CallsKept(n, m);
    case CheckFreeing => CallsKept(n, m);
    case WorkerStop => CallsKept(n, m);
    case Finish => CallsKept(n, m);
    case Free => CallsKept(n, m);
    case _ =>
  }

  lemma DroppedPlain(n: Node, ops: LockOps, a: Action)
    requires DroppedNode(n) && Enabled(n, ops, a) && !Bug(n, ops, a) && Plain(a)
    ensures DroppedNode(Apply(n, ops, a))
  {
    hide DroppedInv, CallsInv, Enabled, Bug, Apply;
    if OfRequest(a) {
      DroppedAsks(n, ops, a);
      DroppedAsksCalls(n, ops, a);
    } else {
      DroppedMoves(n, ops, a);
      DroppedMovesCalls(n, ops, a);
    }
  }

  lemma DroppedCallback(n: Node, ops: LockOps, a: Action)
    requires DroppedNode(n) && Enabled(n, ops, a) && !Bug(n, ops, a) && (a.UnlockAstRuns? || a.Bast?)
    ensures DroppedNode(Apply(n, ops, a))
  {
    hide CallsInv;
    CallFacts(n);
    CallsKept(n, Apply(n, ops, a));
  }

  /** The only AST a lock that is being dropped can get is that of the downconvert, which is a BUG. */
  lemma DroppedAst(n: Node)
    requires DroppedInv(n) && (n.req.Done? || n.req.Refused?)
    ensures LockingAstBug(n.l, AstStatusOf(n))
  {
  }

  lemma DroppedKeeps(n: Node, ops: LockOps, a: Action)
    requires DroppedNode(n) && Enabled(n, ops, a) && !Bug(n, ops, a)
    ensures DroppedNode(Apply(n, ops, a))
  {
    hide CallsInv, DroppedReq, DroppedThread, DoCallDlm, DoClearPending, DoRecover, DoGiveUp, DoBast,
      DoUnblock, DoWorkerDone, DoCancel, DoFinish, LockingAst, UnlockAst, LockingAstBug, UnblockBug, AfterWorkerBug;
    match a
    case LockPass(_) =>
    case CallDlm(_, _) => DroppedCalls(n, ops, a); DroppedCallsCore(n, ops, a);
    case ClearPendingOf(_) => DroppedCalls(n, ops, a); DroppedCallsCore(n, ops, a);
    case Recover(_) => DroppedCalls(n, ops, a); DroppedCallsCore(n, ops, a);
    case UnblockRuns(c) => DroppedUnblock(n, ops, c);
    case WorkerDone(c) => DroppedWorkerDone(n, ops, c);
    case Ast => DroppedAst(n);
    case UnlockAstRuns => DroppedCallback(n, ops, a);
    case Bast(_) => DroppedCallback(n, ops, a);
    case _ => DroppedPlain(n, ops, a);
  }

  // The list.

  /** The step leaves the list, QUEUED and the level granted. */
  predicate SameQueue(n: Node, m: Node) {
    && m.l.queued == n.l.queued && m.listed == n.listed && m.dc.Idle? == n.dc.Idle?
    && m.gone == n.gone && m.granted == n.granted
  }

  lemma LockPassQueue(n: Node, t: nat)
    requires t in n.lockers && t !in n.calls && Lockable(n.lockers[t].wanted)
    ensures SameQueue(n, DoLockPass(n, t))
  {
    hide IncHolders, ClusterLock;
    LockShape(n.l, n.lockers[t].wanted, n.lockers[t].tried);
    match ClusterLock(n.l, n.lockers[t].wanted, n.lockers[t].tried).1
    case Request(_) =>
    case _ =>
  }

  lemma AfterUnblockQueue(n: Node, l: LockState, outcome: UnblockOutcome)
    requires l.queued == n.l.queued && !n.dc.Idle?
    ensures SameQueue(n, AfterUnblock(n, l, outcome))
  {
    match outcome
    case Downcvt(_, _) =>
    case _ =>
  }

  lemma UnblockQueued(l: LockState, ops: LockOps, checkpointed: bool)
    ensures Unblock(l, ops, checkpointed).0.queued == l.queued
  {
  }

  lemma UnblockQueue(n: Node, ops: LockOps, checkpointed: bool)
    requires n.dc.Unblocking? || n.dc.Working?
    ensures SameQueue(n, DoUnblock(n, ops, checkpointed))
    ensures n.dc.Working? ==> SameQueue(n, DoWorkerDone(n, ops, checkpointed))
  {
    hide Unblock, AfterUnblock;
    UnblockQueued(n.l, ops, checkpointed);
    AfterUnblockQueue(n, Unblock(n.l, ops, checkpointed).0, Unblock(n.l, ops, checkpointed).1);
    if n.dc.Working? {
      var (l, outcome) := AfterWorker(n.l, ops, checkpointed, n.dc.blocking, n.dc.level);
      AfterUnblockQueue(n, l, outcome);
    }
  }

  /** What is asked of the DLM is at least NL. */
  lemma AsksLevel(n: Node)
    requires CoreInv(n) && n.req.Waiting?
    ensures n.req.to >= NL
  {
  }

  /** The steps that leave the list, QUEUED and the level granted. */
  lemma QueueStays(n: Node, ops: LockOps, a: Action)
    requires NodeInv(n) && Enabled(n, ops, a) && !Bug(n, ops, a)
    requires OfLockers(a) || OfResource(a) || a.LockPass? || a.UnblockRuns? || a.WorkerDone? || a.CallDlm?
    ensures SameQueue(n, Apply(n, ops, a))
  {
    hide CoreInv, CallsInv, Bug, DoLockPass, DoUnblock, DoWorkerDone;
    match a
    case LockPass(t) => LockPassQueue(n, t);
    case UnblockRuns(c) => UnblockQueue(n, ops, c);
    case WorkerDone(c) => UnblockQueue(n, ops, c);
    case _ =>
  }

  lemma QueueSame(n: Node, m: Node)
    requires QueueInv(n) && SameQueue(n, m)
    ensures QueueInv(m)
  {
  }

  lemma QueueMoves(n: Node, ops: LockOps, a: Action)
    requires NodeInv(n) && Enabled(n, ops, a) && !Bug(n, ops, a)
    requires OfRequest(a) || OfThread(a) || a.Ast? || a.UnlockAstRuns? || a.Bast? || a.ClearPendingOf? || a.Recover?
    ensures QueueInv(Apply(n, ops, a))
  {
    hide CoreInv, CallsInv, Bug, LockingAst, UnlockAst, DoFinish, DoBast;
    CallFacts(n);
    match a
    case Grant => AsksLevel(n);
    case UnlockAstRuns => UnlockAstQueued(n.l);
    case Ast => AstQueued(n.l, ops, AstStatusOf(n));
    case Finish => FinishQueue(n);
    case Bast(level) => BastQueue(n, level);
    case _ =>
  }

  lemma AstQueued(l: LockState, ops: LockOps, status: AstStatus)
    ensures LockingAst(l, ops, status).queued == l.queued
  {
    hide HandleAst;
  }

  lemma FinishQueue(n: Node)
    requires QueueInv(n) && n.dc.Finishing?
    ensures QueueInv(DoFinish(n))
  {
  }

  lemma BastQueue(n: Node, level: Level)
    requires QueueInv(n) && Lockable(level) && n.granted > HighestCompat(level)
    ensures QueueInv(DoBast(n, level))
  {
  }

  lemma QueueKeeps(n: Node, ops: LockOps, a: Action)
    requires NodeInv(n) && Enabled(n, ops, a) && !Bug(n, ops, a)
    ensures QueueInv(Apply(n, ops, a))
  {
    hide NodeInv, QueueInv, Enabled, Bug, Apply;
    if OfRequest(a) || OfThread(a) || a.Ast? || a.UnlockAstRuns? || a.Bast? || a.ClearPendingOf? || a.Recover? {
      QueueMoves(n, ops, a);
    } else {
      QueueStays(n, ops, a);
      QueueOf(n);
      QueueSame(n, Apply(n, ops, a));
    }
  }

  lemma QueueOf(n: Node)
    requires NodeInv(n)
    ensures QueueInv(n)
  {
  }

  lemma UnlockAstQueued(l: LockState)
    ensures UnlockAst(l).queued == l.queued
  {
  }

  /** Every step of a node keeps the invariant. */
  lemma NodeKeeps(n: Node, ops: LockOps, a: Action)
    requires NodeInv(n) && Enabled(n, ops, a) && !Bug(n, ops, a)
    ensures NodeInv(Apply(n, ops, a))
  {
    hide LiveInv, DroppedInv, CallsInv, QueueInv, Enabled, Bug, Apply;
    KindOf(n);
    QueueKeeps(n, ops, a);
    if n.gone {
      DroppedKeeps(n, ops, a);
    } else if a == Drop {
      DropKeeps(n, ops);
    } else {
      LiveKeeps(n, ops, a);
    }
    KindOf(Apply(n, ops, a));
  }

  lemma KindOf(n: Node)
    ensures LiveInv(n) ==> !n.gone
    ensures DroppedInv(n) ==> n.gone
  {
  }

  // ----- Which BUG_ONs can fire -----

  /** The only BUG_ONs a node can reach: the unlock AST of a cancel that hit a later request, or whose
      note another cancel has cleared; the downconvert thread finding an initial request whose BAST
      overtook its AST; and, in the predicate after these two, those of a lock that was dropped too
      early. */
  predicate StaleCancel(n: Node, a: Action) {
    a.UnlockAstRuns? && n.l.unlockAction == NoUnlock
  }

  predicate CancelsAttach(n: Node, a: Action) {
    && a.UnblockRuns? && n.l.blocked && n.l.busy && !n.l.pending
    && n.l.unlockAction != CancelConvert && n.l.action == Attach
  }

  /** The lock was dropped while the thread had it in hand or still on the list: the thread cannot
      cancel the drop nor lower a lock at no level, its downconvert is granted to a lock that is no
      longer attached or is in the way of the drop, and a lock on the list cannot be freed. */
  predicate DroppedEarly(n: Node, ops: LockOps, a: Action) {
    && n.gone
    && match a
       case UnblockRuns(c) => n.l.blocked && LowersDropped(n, ops, c)
       case WorkerDone(c) =>
         if n.dc.Working? && n.dc.blocking == n.l.blocking && n.dc.level == n.l.level then n.l.level == IV
         else LowersDropped(n, ops, c)
       case Ast => true
       case DropCall => n.req != NoReq
       case Free => n.listed
       case _ => false
  }

  predicate LowersDropped(n: Node, ops: LockOps, checkpointed: bool) {
    || n.l.busy
    || (checkpointed && !n.l.upconvertFinishing && !ops.hasWorker && !(ops.requiresRefresh && n.l.refreshing))
  }

  lemma LiveBugs(n: Node, ops: LockOps, a: Action)
    requires LiveInv(n) && QueueInv(n) && Enabled(n, ops, a)
    ensures Bug(n, ops, a) <==> StaleCancel(n, a) || CancelsAttach(n, a)
  {
    match a
    case Ast => AstCore(n, ops);
    case _ =>
  }

  lemma DroppedBugs(n: Node, ops: LockOps, a: Action)
    requires DroppedInv(n) && Enabled(n, ops, a)
    ensures Bug(n, ops, a) <==> StaleCancel(n, a) || DroppedEarly(n, ops, a)
  {
    match a
    case UnblockRuns(_) =>
    case WorkerDone(_) =>
    case _ =>
  }

  lemma BugExactly(n: Node, ops: LockOps, a: Action)
    requires NodeInv(n) && Enabled(n, ops, a)
    ensures Bug(n, ops, a) <==> StaleCancel(n, a) || CancelsAttach(n, a) || DroppedEarly(n, ops, a)
  {
    hide LiveInv, DroppedRes, DroppedReq, DroppedThread, CallsInv, QueueInv, Bug, Enabled;
    KindOf(n);
    if n.gone {
      DroppedAction(n);
      DroppedBugs(n, ops, a);
    } else {
      LiveBugs(n, ops, a);
    }
  }

  lemma DroppedAction(n: Node)
    requires CoreInv(n) && n.gone
    ensures n.l.action != Attach
  {
  }

  /** The state in which the unlock AST is to run and no cancel is noted. */
  predicate Stale(n: Node) {
    n.req.UnlockDone? && n.l.unlockAction == NoUnlock
  }

  /** What the sections of lockers and of the downconvert thread do to the note, the blocked state and
      the kind of request. */
  lemma LockPassNotes(n: Node, t: nat)
    requires t in n.lockers && t !in n.calls && Lockable(n.lockers[t].wanted)
    ensures var m := DoLockPass(n, t);
      && m.req == n.req && m.l.unlockAction == n.l.unlockAction && m.l.blocked == n.l.blocked
      && (m.l.action == n.l.action || (m.l.action == if n.l.attached then Convert else Attach))
      && (m.l.action != n.l.action ==> !n.l.busy)
  {
    hide IncHolders, ClusterLock;
    LockShape(n.l, n.lockers[t].wanted, n.lockers[t].tried);
    match ClusterLock(n.l, n.lockers[t].wanted, n.lockers[t].tried).1
    case Request(_) =>
    case _ =>
  }

  lemma UnblockNotes(n: Node, ops: LockOps, checkpointed: bool)
    ensures var m := DoUnblock(n, ops, checkpointed);
      && m.req == n.req && (m.l.unlockAction == n.l.unlockAction || m.l.unlockAction == CancelConvert)
      && (m.l.blocked ==> n.l.blocked) && (m.l.action == n.l.action || m.l.action == Downconvert)
  {
    hide Unblock, AfterUnblock;
    UnblockFlags(n.l, ops, checkpointed);
    AfterUnblockKeeps(n, Unblock(n.l, ops, checkpointed).0, Unblock(n.l, ops, checkpointed).1);
  }

  lemma UnblockFlags(l: LockState, ops: LockOps, checkpointed: bool)
    ensures var r := Unblock(l, ops, checkpointed).0;
      && (r.unlockAction == l.unlockAction || r.unlockAction == CancelConvert)
      && (r.blocked ==> l.blocked) && (r.action == l.action || r.action == Downconvert)
  {
    if l.blocked && !l.busy && !l.upconvertFinishing && l.level != NL {
      LowerFlags(l, ops, checkpointed);
    }
  }

  /** The part of the section that may go on to a downconvert. */
  lemma LowerFlags(l: LockState, ops: LockOps, checkpointed: bool)
    requires l.blocked && !l.busy && !l.upconvertFinishing && l.level != NL
    ensures var r := Unblock(l, ops, checkpointed).0;
      r.unlockAction == l.unlockAction && r.blocked && (r.action == l.action || r.action == Downconvert)
  {
    if Unblock(l, ops, checkpointed).1.Downcvt? {
      assert Unblock(l, ops, checkpointed) == PrepareDowncvt(l, HighestCompat(l.blocking));
    } else {
      assert Unblock(l, ops, checkpointed).0 == l;
    }
  }

  lemma AfterUnblockKeeps(n: Node, l: LockState, outcome: UnblockOutcome)
    ensures AfterUnblock(n, l, outcome).l == l && AfterUnblock(n, l, outcome).req == n.req
  {
    match outcome
    case Downcvt(_, _) =>
    case _ =>
  }

  lemma WorkerDoneNotes(n: Node, ops: LockOps, checkpointed: bool)
    requires n.dc.Working?
    ensures var m := DoWorkerDone(n, ops, checkpointed);
      && m.req == n.req && (m.l.unlockAction == n.l.unlockAction || m.l.unlockAction == CancelConvert)
      && (m.l.blocked ==> n.l.blocked) && (m.l.action == n.l.action || m.l.action == Downconvert)
  {
    hide Unblock;
    if n.dc.blocking != n.l.blocking || n.dc.level != n.l.level {
      UnblockNotes(n, ops, checkpointed);
    }
  }

  /** What the notes say while a cancel is decided on, and while the DLM still has a lock to drop. */
  lemma CancellingFacts(n: Node)
    requires CoreInv(n)
    ensures n.dc.Cancelling? && !n.gone ==> n.l.unlockAction != DropLock
    ensures n.dc.Cancelling? && n.gone ==> !n.req.Waiting?
    ensures n.gone && n.granted != IV ==> n.l.unlockAction == DropLock && !n.req.UnlockDone?
  {
    hide HolderInv, WorkerInv, ActionInv;
  }

  /** The first of them comes about at one step only: the thread calls the DLM to cancel when the
      request it meant is settled, which has cleared the note, and the DLM has a later one; or when
      the lock has been dropped under it. */
  lemma StaleExactly(n: Node, ops: LockOps, a: Action)
    requires NodeInv(n) && !Stale(n) && Enabled(n, ops, a) && !Bug(n, ops, a)
    ensures Stale(Apply(n, ops, a)) <==>
            && a.CancelCall?
            && ((n.req.Waiting? && n.l.unlockAction != CancelConvert) || (n.req.UnlockDone? && AtDlmNoMore(n)))
  {
    hide CoreInv, CallsInv, DoLockPass, DoUnblock, DoWorkerDone, LockingAst;
    CancellingFacts(n);
    match a
    case LockPass(t) => LockPassNotes(n, t);
    case UnblockRuns(c) => UnblockNotes(n, ops, c);
    case WorkerDone(c) => WorkerDoneNotes(n, ops, c);
    case _ =>
  }

  // ----- Drops -----

  /** On the list or in the thread's hands, but without QUEUED, for which a drop waits. */
  predicate Unguarded(n: Node) {
    !n.l.queued && (n.listed || !n.dc.Idle?)
  }

  /** The end of processing that clears QUEUED of a lock which is back on the list. */
  predicate Unguards(n: Node, a: Action) {
    a.Finish? && n.dc.Finishing? && n.listed && (n.l.freeing || !n.dc.requeue)
  }

  /** A drop starts when the thread has done with the lock. */
  predicate TimelyDrop(n: Node, a: Action) {
    a.Drop? ==> !n.listed && n.dc.Idle?
  }

  /** The wait for QUEUED lets a drop start too early exactly in an unguarded state, and a lock comes
      into one only by the end of processing that clears QUEUED while a BAST has put it back on the
      list. */
  lemma UnguardedExactly(n: Node, ops: LockOps, a: Action)
    requires NodeInv(n) && Enabled(n, ops, a) && !Bug(n, ops, a)
    ensures a.Drop? ==> (TimelyDrop(n, a) <==> !Unguarded(n))
    ensures !Unguarded(n) ==> (Unguarded(Apply(n, ops, a)) <==> Unguards(n, a))
  {
    hide CoreInv, CallsInv, Bug, DoLockPass, DoUnblock, DoWorkerDone, HandleAst, UnlockAst;
    CallFacts(n);
    match a
    case LockPass(t) => LockPassQueue(n, t);
    case UnblockRuns(c) => UnblockQueue(n, ops, c);
    case WorkerDone(c) => UnblockQueue(n, ops, c);
    case UnlockAstRuns => UnlockAstQueued(n.l);
    case _ =>
  }

  lemma TimelyKeeps(n: Node, ops: LockOps, a: Action)
    requires NodeInv(n) && TimelyInv(n) && Enabled(n, ops, a) && !Bug(n, ops, a) && TimelyDrop(n, a)
    ensures TimelyInv(Apply(n, ops, a))
  {
    hide LiveInv, DroppedInv, CallsInv, QueueInv, Enabled, Bug, Apply;
    KindOf(n);
    if n.gone {
      TimelyDropped(n, ops, a);
    } else if a == Drop {
      TimelyStart(n, ops);
    } else {
      LiveKeeps(n, ops, a);
      KindOf(Apply(n, ops, a));
    }
  }

  lemma TimelyStart(n: Node, ops: LockOps)
    requires LiveInv(n) && Enabled(n, ops, Drop) && TimelyDrop(n, Drop)
    ensures TimelyInv(Apply(n, ops, Drop))
  {
  }

  lemma TimelyDropped(n: Node, ops: LockOps, a: Action)
    requires DroppedNode(n) && TimelyInv(n) && Enabled(n, ops, a) && !Bug(n, ops, a)
    ensures TimelyInv(Apply(n, ops, a))
  {
    hide CallsInv, Bug, DoLockPass, DoUnblock, DoWorkerDone, LockingAst, Owned;
    CallFacts(n);
    match a
    case Recover(t) => DroppedOwner(n, t);
    case Ast => DroppedAst(n);
    case _ =>
  }

  lemma DroppedOwner(n: Node, t: nat)
    requires DroppedNode(n) && t in n.calls && n.calls[t].Failed?
    ensures n.l.action == Downconvert
  {
    assert CallInv(n, n.calls[t]);
  }

  // ----- ASTs before BASTs -----

  /** Only the AST of a downconvert unblocks the lock, and only if it went low enough. */
  lemma AstBlocked(l: LockState, ops: LockOps, status: AstStatus)
    ensures var m := LockingAst(l, ops, status);
      && m.action == NoAction && m.freeing == l.freeing
      && (if status != AstAgain && l.action == Downconvert && l.requested <= HighestCompat(l.blocking)
          then !m.blocked else m.blocked == l.blocked && m.blocking == l.blocking)
  {
    hide HandleAst;
  }

  /** The DLM of the driver delivers in order: it runs the ASTs it owes before any BAST, and a node
      ignores a BAST for a request that has not been granted to it yet. */
  predicate InOrder(n: Node, a: Action) {
    a.Bast? ==> !n.req.Done?
  }

  /** An initial request has nothing to block. */
  predicate NoBlockedAttach(n: Node) {
    n.l.action == Attach ==> !n.l.blocked
  }

  /** A lock that was never attached is not blocked, and none becomes so before its first grant. */
  lemma AttachFacts(n: Node)
    requires CoreInv(n)
    ensures !n.l.busy && !n.l.attached && !n.gone ==> !n.l.blocked
    ensures n.l.action == Attach && !n.req.Done? && !n.req.UnlockDone? ==> n.granted == IV
    ensures n.gone ==> n.l.action != Attach && n.l.freeing
    ensures n.l.freeing ==> n.lockers == map[]
    ensures n.l.action == Attach && n.req.UnlockDone? ==> n.granted == IV
  {
    hide CancelInv, WorkerInv;
  }

  lemma InOrderKeeps(n: Node, ops: LockOps, a: Action)
    requires NodeInv(n) && NoBlockedAttach(n) && Enabled(n, ops, a) && !Bug(n, ops, a) && InOrder(n, a)
    ensures NoBlockedAttach(Apply(n, ops, a))
  {
    hide CoreInv, CallsInv, DoLockPass, DoUnblock, DoWorkerDone, LockingAst;
    AttachFacts(n);
    match a
    case LockPass(t) => LockPassNotes(n, t);
    case UnblockRuns(c) => UnblockNotes(n, ops, c);
    case WorkerDone(c) => WorkerDoneNotes(n, ops, c);
    case Ast => AstBlocked(n.l, ops, AstStatusOf(n));
    case _ =>
  }

  // ----- No downconvert is lost -----

  /** The downconvert thread will look at the lock again, or still has its request to make. */
  predicate InHands(n: Node) {
    || n.dc.Taken? || n.dc.Unblocking? || n.dc.Working? || n.dc.Cancelling? || n.dc == Finishing(true)
    || (n.dc.Asking? && DC in n.calls && Active(n.calls[DC]))
  }

  /** The DLM has a downconvert that goes low enough for what is blocked. */
  predicate InFlight(n: Node) {
    && n.l.action == Downconvert && n.l.requested <= HighestCompat(n.l.blocking)
    && (n.req.Waiting? || n.req.Done?)
  }

  predicate NoLost(n: Node) {
    && (n.l.blocked && !n.l.freeing ==> n.listed || InHands(n) || InFlight(n))
    && (n.dc.Asking? && DC in n.calls && Active(n.calls[DC]) ==>
          && n.l.action == Downconvert
          && (n.l.requested <= HighestCompat(n.l.blocking) || n.listed || n.l.freeing))
  }

  lemma NoLostLockPass(n: Node, t: nat)
    requires LiveInv(n) && NoLost(n) && t in n.lockers && t !in n.calls && Lockable(n.lockers[t].wanted)
    requires t != DC
    ensures NoLost(DoLockPass(n, t))
  {
    hide LiveInv, IncHolders, ClusterLock;
    QuietFacts(n);
    LockShape(n.l, n.lockers[t].wanted, n.lockers[t].tried);
    match ClusterLock(n.l, n.lockers[t].wanted, n.lockers[t].tried).1
    case Request(gen) =>
    case _ =>
  }

  lemma NoLostCalls(n: Node, ops: LockOps, a: Action)
    requires LiveNode(n) && NoLost(n) && Enabled(n, ops, a)
    requires a.CallDlm? || a.ClearPendingOf? || a.Recover?
    ensures NoLost(Apply(n, ops, a))
  {
    hide CancelInv, WorkerInv, HolderInv;
    assert CallInv(n, n.calls[a.t]);
    assert DC in n.calls ==> CallInv(n, n.calls[DC]);
    match a
    case CallDlm(t, ok) =>
    case ClearPendingOf(t) =>
    case Recover(t) =>
      assert Current(n, n.calls[t]);
  }

  lemma NoLostAst(n: Node, ops: LockOps)
    requires LiveNode(n) && NoLost(n) && (n.req.Done? || n.req.Refused?)
    ensures NoLost(n.(l := LockingAst(n.l, ops, AstStatusOf(n)), req := NoReq))
  {
    hide CancelInv, WorkerInv, HolderInv, LevelInv, ActionInv, LockingAst;
    AstBlocked(n.l, ops, AstStatusOf(n));
    assert DC in n.calls ==> CallInv(n, n.calls[DC]);
  }

  lemma NoLostUnblock(n: Node, ops: LockOps, checkpointed: bool)
    requires n.dc.Unblocking? || n.dc.Working?
    ensures NoLost(DoUnblock(n, ops, checkpointed))
  {
    match Unblock(n.l, ops, checkpointed).1
    case Settled =>
    case Requeue =>
    case Cancel =>
    case RunWorker(_, _) =>
    case Downcvt(newLevel, gen) =>
  }

  lemma NoLostWorkerDone(n: Node, ops: LockOps, checkpointed: bool)
    requires n.dc.Working?
    ensures NoLost(DoWorkerDone(n, ops, checkpointed))
  {
    if n.dc.blocking != n.l.blocking || n.dc.level != n.l.level {
      hide NoLost, Unblock;
      NoLostUnblock(n, ops, checkpointed);
    }
  }

  lemma NoLostTake(n: Node, ops: LockOps, a: Action)
    requires NoLost(n) && Enabled(n, ops, a) && (a.Take? || a.CheckFreeing? || a.Finish? || a.Unlist?)
    requires DC in n.calls <==> n.dc.Asking?
    ensures NoLost(Apply(n, ops, a))
  {
    match a
    case Take =>
    case CheckFreeing =>
    case Finish =>
    case Unlist =>
  }

  lemma NoLostRequests(n: Node, ops: LockOps, a: Action)
    requires LiveNode(n) && NoLost(n) && Enabled(n, ops, a) && !Bug(n, ops, a)
    requires (OfRequest(a) && !a.Drop?) || a.UnlockAstRuns?
    ensures NoLost(Apply(n, ops, a))
  {
    hide CancelInv, WorkerInv, HolderInv;
    assert DC in n.calls ==> CallInv(n, n.calls[DC]);
    match a
    case Grant =>
    case Refuse =>
    case CancelCall =>
    case DropCall =>
    case UnlockAstRuns =>
  }

  lemma NoLostHere(n: Node, ops: LockOps, a: Action)
    requires LiveNode(n) && NoLost(n) && Enabled(n, ops, a) && !Bug(n, ops, a)
    requires OfLockers(a) || OfResource(a) || a.Bast?
    ensures NoLost(Apply(n, ops, a))
  {
    hide LiveInv, CallsInv;
    match a
    case Bast(_) =>
    case _ =>
  }

  lemma NoLostOther(n: Node, ops: LockOps, a: Action)
    requires LiveNode(n) && NoLost(n) && Enabled(n, ops, a) && !Bug(n, ops, a)
    requires OfLockers(a) || OfResource(a) || (OfRequest(a) && !a.Drop?) || a.UnlockAstRuns? || a.Bast?
    ensures NoLost(Apply(n, ops, a))
  {
    hide LiveNode, NoLost, Enabled, Bug, Apply;
    if OfRequest(a) || a.UnlockAstRuns? {
      NoLostRequests(n, ops, a);
    } else {
      NoLostHere(n, ops, a);
    }
  }

  lemma DroppedNoLost(n: Node)
    requires DroppedNode(n)
    ensures NoLost(n)
  {
    assert DC in n.calls ==> CallInv(n, n.calls[DC]);
  }

  lemma NoLostLive(n: Node, ops: LockOps, a: Action)
    requires LiveNode(n) && NoLost(n) && Enabled(n, ops, a) && !Bug(n, ops, a) && !a.WorkerStop? && !a.Drop?
    ensures NoLost(Apply(n, ops, a))
  {
    hide LiveInv, NoLost, DoLockPass, DoCallDlm, DoClearPending, DoRecover, DoGiveUp, DoBast,
      DoUnblock, DoWorkerDone, DoCancel, DoFinish, LockingAst, UnlockAst, Bug;
    match a
    case LockPass(t) => NoLostLockPass(n, t);
    case CallDlm(_, _) => NoLostCalls(n, ops, a);
    case ClearPendingOf(_) => NoLostCalls(n, ops, a);
    case Recover(_) => NoLostCalls(n, ops, a);
    case Ast => NoLostAst(n, ops);
    case UnblockRuns(c) => NoLostUnblock(n, ops, c);
    case WorkerDone(c) => NoLostWorkerDone(n, ops, c);
    case Take => NoLostTake(n, ops, a);
    case CheckFreeing => NoLostTake(n, ops, a);
    case Finish => NoLostTake(n, ops, a);
    case Unlist => NoLostTake(n, ops, a);
    case _ => NoLostOther(n, ops, a);
  }

  /** Unless its worker stops it, a blocked lock stays where its downconvert will be found. */
  lemma NoLostKept(n: Node, ops: LockOps, a: Action)
    requires NodeInv(n) && NoLost(n) && Enabled(n, ops, a) && !Bug(n, ops, a) && !a.WorkerStop?
    ensures NoLost(Apply(n, ops, a))
  {
    hide LiveInv, DroppedInv, CallsInv, QueueInv, Enabled, Bug, Apply, NoLost;
    KindOf(n);
    if n.gone {
      DroppedKeeps(n, ops, a);
      DroppedNoLost(Apply(n, ops, a));
    } else if a == Drop {
      DropKeeps(n, ops);
      DroppedNoLost(Apply(n, ops, a));
    } else {
      NoLostLive(n, ops, a);
    }
  }

  // ----- The cluster -----

  type Cluster = seq<Node>

  predicate Compatible(a: Level, b: Level) {
    a <= HighestCompat(b)
  }

  /** What the DLM keeps: no two nodes hold incompatible levels. */
  predicate Granted(s: Cluster) {
    forall i, j :: 0 <= i < |s| && 0 <= j < |s| && i != j ==> Compatible(s[i].granted, s[j].granted)
  }

  /** The DLM grants a level only beside the ones it has granted to others. */
  predicate MayGrant(s: Cluster, i: nat)
    requires i < |s| && s[i].req.Waiting?
  {
    forall j :: 0 <= j < |s| && j != i ==> Compatible(s[i].req.to, s[j].granted)
  }

  predicate Step(s: Cluster, ops: LockOps, i: nat, a: Action, s': Cluster) {
    && i < |s| && Enabled(s[i], ops, a) && !Bug(s[i], ops, a)
    && (a.Grant? ==> MayGrant(s, i))
    && s' == s[i := Apply(s[i], ops, a)]
  }

  predicate Start(s: Cluster) {
    forall i :: 0 <= i < |s| ==> s[i] == NODE0
  }

  predicate ClusterInv(s: Cluster) {
    (forall i :: 0 <= i < |s| ==> NodeInv(s[i])) && Granted(s)
  }

  datatype Move = Move(node: nat, action: Action)

  /** A run: the states passed through and the moves between them. */
  predicate Run(states: seq<Cluster>, moves: seq<Move>, ops: LockOps) {
    && |states| == |moves| + 1 && Start(states[0])
    && forall k :: 0 <= k < |moves| ==>
         Step(states[k], ops, moves[k].node, moves[k].action, states[k + 1])
  }

  /** Only a grant raises the level the DLM holds for a node. */
  lemma GrantedNext(n: Node, ops: LockOps, a: Action)
    requires NodeInv(n) && Enabled(n, ops, a) && !Bug(n, ops, a)
    ensures var to := Apply(n, ops, a).granted;
      if a.Grant? then n.req.Waiting? && to == n.req.to else to == if a.DropCall? then IV else n.granted
  {
    hide NodeInv, Bug, DoLockPass, DoUnblock, DoWorkerDone, LockingAst, UnlockAst;
    match a
    case LockPass(t) => LockPassQueue(n, t);
    case UnblockRuns(c) => UnblockQueue(n, ops, c);
    case WorkerDone(c) => UnblockQueue(n, ops, c);
    case _ =>
  }

  lemma GrantedLevel(n: Node)
    requires NodeInv(n)
    ensures IsLevel(n.granted) && (n.req.Waiting? ==> IsLevel(n.req.to))
  {
    hide CallsInv, CancelInv, WorkerInv, HolderInv;
  }

  lemma CompatibleSym(a: Level, b: Level)
    requires IsLevel(a) && IsLevel(b)
    ensures Compatible(a, b) <==> Compatible(b, a)
    ensures Compatible(a, IV)
  {
  }

  lemma StepGranted(s: Cluster, ops: LockOps, i: nat, a: Action, s': Cluster, j: nat)
    requires ClusterInv(s) && Step(s, ops, i, a, s') && j < |s| && j != i
    ensures Compatible(s'[i].granted, s[j].granted) && Compatible(s[j].granted, s'[i].granted)
  {
    hide NodeInv, Enabled, Bug, Apply;
    GrantedLevel(s[i]);
    GrantedLevel(s[j]);
    GrantedNext(s[i], ops, a);
    CompatibleSym(s'[i].granted, s[j].granted);
    CompatibleSym(s[j].granted, s'[i].granted);
  }

  lemma StepKeeps(s: Cluster, ops: LockOps, i: nat, a: Action, s': Cluster)
    requires ClusterInv(s) && Step(s, ops, i, a, s')
    ensures ClusterInv(s')
  {
    hide NodeInv, Enabled, Bug, Apply, Compatible;
    NodeKeeps(s[i], ops, a);
    forall j | 0 <= j < |s| && j != i
      ensures Compatible(s'[i].granted, s'[j].granted) && Compatible(s'[j].granted, s'[i].granted)
    {
      StepGranted(s, ops, i, a, s', j);
    }
  }

  lemma StartInv()
    ensures NodeInv(NODE0) && NoLost(NODE0)
  {
  }

  lemma {:induction false} RunKeeps(states: seq<Cluster>, moves: seq<Move>, ops: LockOps, k: nat)
    requires Run(states, moves, ops) && k < |states|
    ensures ClusterInv(states[k])
  {
    hide NodeInv, Step;
    if k == 0 {
      StartInv();
    } else {
      RunKeeps(states, moves, ops, k - 1);
      StepKeeps(states[k - 1], ops, moves[k - 1].node, moves[k - 1].action, states[k]);
    }
  }

  // ----- Over whole runs -----

  /** What the invariant means for the holders of one node. */
  lemma HoldersCovered(n: Node)
    requires NodeInv(n)
    ensures n.l.exHolders > 0 ==> n.granted == EX
    ensures n.l.roHolders > 0 ==> n.granted >= PR
    ensures n.l.action == Downconvert ==>
              && n.l.exHolders == 0 && (n.l.roHolders > 0 ==> n.l.requested == PR)
              && !n.l.upconvertFinishing
  {
    hide CallsInv, CancelInv, WorkerInv;
  }

  /** An EX holder on one node excludes every holder on the others, in every state of every run. */
  lemma ExExcludes(states: seq<Cluster>, moves: seq<Move>, ops: LockOps, k: nat, i: nat, j: nat)
    requires Run(states, moves, ops) && k < |states|
    requires i < |states[k]| && j < |states[k]| && i != j && states[k][i].l.exHolders > 0
    ensures states[k][j].l.exHolders == 0 && states[k][j].l.roHolders == 0
  {
    hide NodeInv, Run;
    RunKeeps(states, moves, ops, k);
    HoldersCovered(states[k][i]);
    HoldersCovered(states[k][j]);
  }

  /** While a downconvert is in flight, granted or not, the holders of the node fit the level it
      converts to and UPCONVERT_FINISHING is clear. */
  lemma DowncvtAdmits(states: seq<Cluster>, moves: seq<Move>, ops: LockOps, k: nat, i: nat)
    requires Run(states, moves, ops) && k < |states| && i < |states[k]|
    requires states[k][i].l.action == Downconvert
    ensures var l := states[k][i].l;
      && l.exHolders == 0 && (l.roHolders > 0 ==> l.requested == PR) && !l.upconvertFinishing
  {
    hide NodeInv, Run;
    RunKeeps(states, moves, ops, k);
    HoldersCovered(states[k][i]);
  }

  /** A thread that has decided on a request and not yet made it: PENDING is set for it, no late
      clear by another call resets it, and the downconvert thread will not cancel; and unless the lock
      is being dropped it is busy for the request. */
  lemma PendingProtects(states: seq<Cluster>, moves: seq<Move>, ops: LockOps, k: nat, i: nat, t: nat)
    requires Run(states, moves, ops) && k < |states| && i < |states[k]|
    requires t in states[k][i].calls && states[k][i].calls[t].Ready?
    ensures var n := states[k][i];
      && n.l.pending && (!n.gone ==> n.l.busy && n.req == NoReq)
      && (forall u :: u in n.calls && n.calls[u].Returned? ==>
            && ClearPending(n.l, n.calls[u].gen) == n.l
            && (ClearPending32(n.l, n.calls[u].gen) == n.l <==> (n.l.pendingGen - n.calls[u].gen) % GEN_SPAN != 0))
      && (forall c :: !Unblock(n.l, ops, c).1.Cancel?)
  {
    hide CoreInv, Run;
    RunKeeps(states, moves, ops, k);
    var n := states[k][i];
    assert CallInv(n, n.calls[t]) && Current(n, n.calls[t]);
    forall u | u in n.calls && n.calls[u].Returned?
      ensures ClearPending(n.l, n.calls[u].gen) == n.l
      ensures ClearPending32(n.l, n.calls[u].gen) == n.l <==> (n.l.pendingGen - n.calls[u].gen) % GEN_SPAN != 0
    {
      assert !Current(n, n.calls[u]);
      assert CallInv(n, n.calls[u]);
      SameRemainder(n.l.pendingGen, n.calls[u].gen);
    }
  }

  /** A run in which every BAST is delivered in order. */
  predicate OrderedRun(states: seq<Cluster>, moves: seq<Move>, ops: LockOps) {
    && Run(states, moves, ops)
    && forall k :: 0 <= k < |moves| ==>
         moves[k].node < |states[k]| && InOrder(states[k][moves[k].node], moves[k].action)
  }

  lemma {:induction false} OrderedKeeps(states: seq<Cluster>, moves: seq<Move>, ops: LockOps, k: nat, i: nat)
    requires OrderedRun(states, moves, ops) && k < |states| && i < |states[k]|
    ensures NoBlockedAttach(states[k][i])
  {
    hide NodeInv, NoBlockedAttach, InOrder, Enabled, Bug, Apply;
    if k == 0 {
      FreshNode();
    } else {
      RunKeeps(states, moves, ops, k - 1);
      OrderedKeeps(states, moves, ops, k - 1, i);
      if i == moves[k - 1].node {
        InOrderKeeps(states[k - 1][i], ops, moves[k - 1].action);
      }
    }
  }

  lemma FreshNode()
    ensures NoBlockedAttach(NODE0) && TimelyInv(NODE0) && !Unguarded(NODE0)
  {
  }

  /** With in-order delivery the BUG_ONs that can fire, in any state of any run, are that of an unlock
      AST which finds no cancel noted and those of a lock that was dropped too early. */
  lemma BugsInOrder(states: seq<Cluster>, moves: seq<Move>, ops: LockOps, k: nat, i: nat, a: Action)
    requires OrderedRun(states, moves, ops) && k < |states| && i < |states[k]| && Enabled(states[k][i], ops, a)
    ensures Bug(states[k][i], ops, a) <==>
            (a.UnlockAstRuns? && Stale(states[k][i])) || DroppedEarly(states[k][i], ops, a)
  {
    hide NodeInv, Run, Bug, DroppedEarly;
    RunKeeps(states, moves, ops, k);
    OrderedKeeps(states, moves, ops, k, i);
    BugExactly(states[k][i], ops, a);
  }

  /** Every drop of the run starts when the downconvert thread has done with the lock. */
  predicate TimelyRun(states: seq<Cluster>, moves: seq<Move>, ops: LockOps) {
    && Run(states, moves, ops)
    && forall k :: 0 <= k < |moves| ==>
         moves[k].node < |states[k]| && TimelyDrop(states[k][moves[k].node], moves[k].action)
  }

  lemma {:induction false} TimelyRunKeeps(states: seq<Cluster>, moves: seq<Move>, ops: LockOps, k: nat, i: nat)
    requires TimelyRun(states, moves, ops) && k < |states| && i < |states[k]|
    ensures TimelyInv(states[k][i])
  {
    hide NodeInv, TimelyInv, TimelyDrop, Enabled, Bug, Apply;
    if k == 0 {
      FreshNode();
    } else {
      RunKeeps(states, moves, ops, k - 1);
      TimelyRunKeeps(states, moves, ops, k - 1, i);
      if i == moves[k - 1].node {
        TimelyKeeps(states[k - 1][i], ops, moves[k - 1].action);
      }
    }
  }

  /** With timely drops besides, none of those is left. */
  lemma OnlyStaleCancel(states: seq<Cluster>, moves: seq<Move>, ops: LockOps, k: nat, i: nat, a: Action)
    requires OrderedRun(states, moves, ops) && TimelyRun(states, moves, ops)
    requires k < |states| && i < |states[k]| && Enabled(states[k][i], ops, a)
    ensures Bug(states[k][i], ops, a) <==> a.UnlockAstRuns? && Stale(states[k][i])
  {
    hide NodeInv, Run, TimelyInv, Enabled, Bug, DroppedEarly;
    RunKeeps(states, moves, ops, k);
    TimelyRunKeeps(states, moves, ops, k, i);
    BugsInOrder(states, moves, ops, k, i, a);
    NotEarly(states[k][i], ops, a);
  }

  lemma NotEarly(n: Node, ops: LockOps, a: Action)
    requires NodeInv(n) && TimelyInv(n) && Enabled(n, ops, a)
    ensures !DroppedEarly(n, ops, a)
  {
    hide CallsInv, LiveInv;
  }

  /** No end of processing in the run clears QUEUED of a lock that is back on the list. */
  predicate QueuedRun(states: seq<Cluster>, moves: seq<Move>, ops: LockOps) {
    && Run(states, moves, ops)
    && forall k :: 0 <= k < |moves| ==>
         moves[k].node < |states[k]| && !Unguards(states[k][moves[k].node], moves[k].action)
  }

  lemma {:induction false} GuardedAll(states: seq<Cluster>, moves: seq<Move>, ops: LockOps, k: nat, i: nat)
    requires QueuedRun(states, moves, ops) && k < |states| && i < |states[k]|
    ensures !Unguarded(states[k][i])
  {
    hide NodeInv, Unguarded, Unguards, Enabled, Bug, Apply;
    if k == 0 {
      FreshNode();
    } else {
      RunKeeps(states, moves, ops, k - 1);
      GuardedAll(states, moves, ops, k - 1, i);
      if i == moves[k - 1].node {
        UnguardedExactly(states[k - 1][i], ops, moves[k - 1].action);
      }
    }
  }

  /** The wait for QUEUED makes every drop timely as long as QUEUED is kept for a lock on the list. */
  lemma QueuedIsTimely(states: seq<Cluster>, moves: seq<Move>, ops: LockOps)
    requires QueuedRun(states, moves, ops)
    ensures TimelyRun(states, moves, ops)
  {
    hide NodeInv, Unguarded, Unguards, TimelyDrop, Enabled, Bug, Apply;
    forall k | 0 <= k < |moves|
      ensures moves[k].node < |states[k]| && TimelyDrop(states[k][moves[k].node], moves[k].action)
    {
      assert Step(states[k], ops, moves[k].node, moves[k].action, states[k + 1]);
      var n := states[k][moves[k].node];
      RunKeeps(states, moves, ops, k);
      GuardedAll(states, moves, ops, k, moves[k].node);
      UnguardedExactly(n, ops, moves[k].action);
      NoDropIsTimely(n, moves[k].action);
    }
  }

  lemma NoDropIsTimely(n: Node, a: Action)
    ensures !a.Drop? ==> TimelyDrop(n, a)
  {
  }

  /** With the generation cut to the 32 bits it has in the driver, a clear does in every reachable
      state what it does with the full count, but for one of a call that PENDING has outlived by a
      positive multiple of 2 to the 32 generations. */
  lemma GenerationsAgree(states: seq<Cluster>, moves: seq<Move>, ops: LockOps, k: nat, i: nat, t: nat)
    requires Run(states, moves, ops) && k < |states| && i < |states[k]|
    requires t in states[k][i].calls && states[k][i].calls[t].Returned?
    ensures var l, gen := states[k][i].l, states[k][i].calls[t].gen;
      ClearPending32(l, gen) == ClearPending(l, gen) <==>
      !(l.pending && gen < l.pendingGen && (l.pendingGen - gen) % GEN_SPAN == 0)
  {
    hide CoreInv, Run;
    RunKeeps(states, moves, ops, k);
    assert CallInv(states[k][i], states[k][i].calls[t]);
    SameRemainder(states[k][i].l.pendingGen, states[k][i].calls[t].gen);
  }

  lemma SameRemainder(a: nat, b: nat)
    requires b <= a
    ensures a % GEN_SPAN == b % GEN_SPAN <==> (a - b) % GEN_SPAN == 0
  {
    var n := GEN_SPAN;
    assert a == a / n * n + a % n && b == b / n * n + b % n;
  }

  /** In a run in which no worker stops its downconvert, a lock that is blocked and not being
      freed is on the list, in the downconvert thread's hands, or has a downconvert in flight
      that goes low enough. */
  lemma {:induction false} NothingLost(states: seq<Cluster>, moves: seq<Move>, ops: LockOps, k: nat, i: nat)
    requires Run(states, moves, ops) && k < |states| && i < |states[k]|
    requires forall m :: m in moves ==> !m.action.WorkerStop?
    ensures NoLost(states[k][i])
  {
    hide NodeInv, NoLost, Enabled, Bug, Apply;
    if k == 0 {
      StartInv();
    } else {
      RunKeeps(states, moves, ops, k - 1);
      assert moves[k - 1] in moves;
      NothingLost(states, moves, ops, k - 1, i);
      if i == moves[k - 1].node {
        NoLostKept(states[k - 1][i], ops, moves[k - 1].action);
      }
    }
  }
}
