/** The lock resource of the cluster-lock glue (dlmglue.c): its fields, and every critical section
    that runs under its spinlock.  Each section is given twice: as a function on the value of
    the resource, which the protocol proofs use, and as a method of the class that updates the
    fields in the order the driver does. */
module LockRes {
  /** DLM lock levels. */
  const IV := -1
  const NL := 0
  const PR := 3
  const EX := 5
  type Level = int

  predicate Lockable(level: Level) {
    level == PR || level == EX
  }

  /** The highest level that can be held beside `level` on another node. */
  function HighestCompat(level: Level): Level {
    if level == EX then NL else if level == PR then PR else EX
  }

  /** The flags and callbacks of a lock type that the glue looks at. */
  datatype LockOps = LockOps(requiresRefresh: bool, usesLvb: bool, hasWorker: bool)

  datatype AstAction = NoAction | Attach | Convert | Downconvert
  datatype UnlockAction = NoUnlock | CancelConvert | DropLock

  /** The bits of l_flags. */
  datatype Flags = Flags(
    attached: bool, busy: bool, blocked: bool, local: bool, needsRefresh: bool, refreshing: bool,
    queued: bool, freeing: bool, pending: bool, upconvertFinishing: bool, nonblockFinished: bool)

  datatype LockState = LockState(
    level: Level, requested: Level, blocking: Level,
    action: AstAction, unlockAction: UnlockAction,
    attached: bool, busy: bool, blocked: bool, local: bool,
    needsRefresh: bool, refreshing: bool, queued: bool, freeing: bool,
    pending: bool, upconvertFinishing: bool, nonblockFinished: bool,
    pendingGen: nat, exHolders: nat, roHolders: nat)

  /** A resource no one has used yet. */
  const FRESH := LockState(IV, IV, NL, NoAction, NoUnlock,
                           false, false, false, false,
                           false, false, false, false,
                           false, false, false, 0, 0, 0)

  // ----- Critical sections as functions -----

  /** __lockres_clear_pending(): only the generation that set the flag may clear it. */
  function ClearPending(l: LockState, gen: nat): LockState {
    var mine := l.pending && l.pendingGen == gen;
    l.(pending := l.pending && !mine, pendingGen := if mine then l.pendingGen + 1 else l.pendingGen)
  }

  /** ocfs2_generic_handle_bast(): note what is blocked; whether a downconvert is now needed. */
  function HandleBast(l: LockState, level: Level): (LockState, bool) {
    var needed := level > l.blocking && HighestCompat(level) < HighestCompat(l.blocking);
    (l.(blocking := if level > l.blocking then level else l.blocking, blocked := l.blocked || needed),
     needed)
  }

  /** What an AST leaves alone: the holders, the pending mark and how the lock is queued. */
  predicate SameHolders(l: LockState, r: LockState) {
    && r.exHolders == l.exHolders && r.roHolders == l.roHolders
    && r.pending == l.pending && r.pendingGen == l.pendingGen
    && r.queued == l.queued && r.freeing == l.freeing
  }

  predicate SameBlocked(l: LockState, r: LockState) {
    r.blocked == l.blocked && r.blocking == l.blocking
  }

  /** The request has been granted: the level is the one asked for. */
  predicate Settles(l: LockState, r: LockState) {
    && r.level == l.requested && !r.busy && r.attached
    && r.action == l.action && r.unlockAction == l.unlockAction
  }

  predicate AttachBug(l: LockState) {
    !l.busy || l.attached
  }

  function HandleAttach(l: LockState, ops: LockOps): (r: LockState)
    ensures SameHolders(l, r) && SameBlocked(l, r) && Settles(l, r)
  {
    l.(needsRefresh := l.needsRefresh || (l.requested > NL && !l.local && ops.requiresRefresh),
       level := l.requested, attached := true, busy := false)
  }

  predicate ConvertBug(l: LockState) {
    !l.busy || !l.attached
  }

  function HandleConvert(l: LockState, ops: LockOps): (r: LockState)
    ensures SameHolders(l, r) && SameBlocked(l, r) && (l.attached ==> Settles(l, r))
  {
    l.(needsRefresh := l.needsRefresh || (l.level == NL && ops.requiresRefresh),
       level := l.requested,
       upconvertFinishing := l.upconvertFinishing || !l.nonblockFinished,
       nonblockFinished := false, busy := false)
  }

  predicate DownconvertBug(l: LockState) {
    !l.busy || !l.attached || !l.blocked || l.blocking <= NL
  }

  function HandleDowncvt(l: LockState): (r: LockState)
    ensures SameHolders(l, r) && (l.attached ==> Settles(l, r)) && (r.blocking == l.blocking || r.blocking == NL)
    ensures !r.blocked && l.requested <= HighestCompat(l.blocking) ==> r.blocking == NL
    ensures if l.requested <= HighestCompat(l.blocking) then !r.blocked else SameBlocked(l, r)
  {
    var enough := l.requested <= HighestCompat(l.blocking);
    l.(level := l.requested, blocking := if enough then NL else l.blocking,
       blocked := l.blocked && !enough, busy := false)
  }

  /** What the DLM reports with an AST: the request was granted, or a NOQUEUE request was not. */
  datatype AstStatus = AstGranted | AstAgain

  predicate LockingAstBug(l: LockState, status: AstStatus) {
    && status == AstGranted
    && match l.action
       case NoAction => true
       case Attach => AttachBug(l)
       case Convert => ConvertBug(l)
       case Downconvert => DownconvertBug(l)
  }

  /** The part of ocfs2_locking_ast() that depends on what was asked. */
  function HandleAst(l: LockState, ops: LockOps, status: AstStatus): (r: LockState)
    ensures SameHolders(l, r)
    ensures !LockingAstBug(l, status) && status == AstGranted ==> Settles(l, r)
    ensures status == AstAgain ==> r == l.(busy := false)
    ensures r.blocking == l.blocking || (r.blocking == NL && !r.blocked)
    ensures if status != AstAgain && l.action == Downconvert && l.requested <= HighestCompat(l.blocking)
            then !r.blocked && r.blocking == NL else SameBlocked(l, r)
  {
    hide HandleAttach, HandleConvert;
    if status == AstAgain then l.(busy := false) else
    match l.action
    case NoAction => l
    case Attach => HandleAttach(l, ops).(local := false)
    case Convert => HandleConvert(l, ops)
    case Downconvert => HandleDowncvt(l)
  }

  /** ocfs2_locking_ast(). */
  function LockingAst(l: LockState, ops: LockOps, status: AstStatus): LockState {
    var l1 := HandleAst(l, ops, status);
    var l2 := l1.(action := NoAction,
                  unlockAction := if l1.unlockAction == CancelConvert then NoUnlock else l1.unlockAction);
    ClearPending(l2, l2.pendingGen)
  }

  predicate UnlockAstBug(l: LockState) {
    l.unlockAction == NoUnlock
  }

  /** ocfs2_unlock_ast(): a cancel has succeeded, or the lock has been dropped. */
  function UnlockAst(l: LockState): LockState {
    l.(action := if l.unlockAction == CancelConvert then NoAction else l.action,
       level := if l.unlockAction == DropLock then IV else l.level,
       busy := false, unlockAction := NoUnlock)
  }

  /** ocfs2_recover_from_dlm_error() after a call of the DLM for a lock or a convert, or for a cancel,
      has failed. */
  function RecoverError(l: LockState, convert: bool): LockState {
    l.(busy := false, upconvertFinishing := false, action := if convert then NoAction else l.action,
       unlockAction := if convert then l.unlockAction else NoUnlock)
  }

  function IncHolders(l: LockState, level: Level): (r: LockState)
    ensures r == l.(exHolders := r.exHolders, roHolders := r.roHolders)
    ensures r.exHolders + r.roHolders == l.exHolders + l.roHolders + 1
  {
    l.(exHolders := if level == EX then l.exHolders + 1 else l.exHolders,
       roHolders := if level == EX then l.roHolders else l.roHolders + 1)
  }

  /** What a pass through the critical section of __ocfs2_cluster_lock() ends with. */
  datatype LockOutcome =
    | Acquired
    | WaitBusy
    | WaitBlocked
    | NotNow
    | Request(gen: nat)

  predicate ClusterLockBug(l: LockState) {
    l.freeing
  }

  /** The critical section of __ocfs2_cluster_lock().  `tried`: a NOQUEUE request was already
      made.  Every exit but the one that goes on to ask the DLM clears UPCONVERT_FINISHING. */
  function ClusterLock(l: LockState, level: Level, tried: bool): (LockState, LockOutcome)
    requires Lockable(level)
  {
    if l.busy && level > l.level then
      (l.(upconvertFinishing := false), WaitBusy)
    else if l.upconvertFinishing && level <= l.level then
      (IncHolders(l, level).(upconvertFinishing := false), Acquired)
    else if l.blocked && level > HighestCompat(l.blocking) then
      (l.(upconvertFinishing := false), WaitBlocked)
    else if level > l.level then
      if tried then (l.(upconvertFinishing := false), NotNow)
      else (l.(action := if l.attached then Convert else Attach,
               requested := level, busy := true, pending := true),
            Request(l.pendingGen))
    else
      (IncHolders(l, level).(upconvertFinishing := false), Acquired)
  }

  predicate UnlockBug(l: LockState, level: Level) {
    if level == EX then l.exHolders == 0 else l.roHolders == 0
  }

  /** The critical section of __ocfs2_cluster_unlock(). */
  function ClusterUnlock(l: LockState, level: Level): LockState
    requires Lockable(level) && !UnlockBug(l, level)
  {
    l.(exHolders := if level == EX then l.exHolders - 1 else l.exHolders,
       roHolders := if level == EX then l.roHolders else l.roHolders - 1)
  }

  /** What the downconvert thread finds in ocfs2_unblock_lock(). */
  datatype UnblockOutcome =
    | Settled                                   // nothing is blocked any more
    | Requeue                                   // try again later
    | Cancel                                    // go and cancel the request in flight
    | RunWorker(blocking: Level, level: Level)  // drop the spinlock and run the worker
    | Downcvt(newLevel: Level, gen: nat)        // go and ask for the lower level

  /** The lock value block is refilled on a downconvert from EX of a refreshed lock. */
  predicate StuffsLvb(l: LockState, ops: LockOps) {
    ops.usesLvb && l.level == EX && !l.needsRefresh
  }

  predicate PrepareDowncvtBug(l: LockState) {
    l.blocking <= NL || l.level <= HighestCompat(l.blocking)
  }

  /** ocfs2_prepare_downconvert(). */
  function PrepareDowncvt(l: LockState, newLevel: Level): (LockState, UnblockOutcome) {
    (l.(action := Downconvert, requested := newLevel, busy := true, pending := true),
     Downcvt(newLevel, l.pendingGen))
  }

  predicate UnblockBug(l: LockState, ops: LockOps, checkpointed: bool) {
    if !l.blocked then l.blocking != NL
    else if l.busy then
      !l.pending && l.unlockAction != CancelConvert && l.action != Convert && l.action != Downconvert
    else if l.upconvertFinishing then false
    else if l.level == NL then l.exHolders > 0 || l.roHolders > 0
    else Unblock(l, ops, checkpointed).1.Downcvt? && PrepareDowncvtBug(l)
  }

  /** The critical section of ocfs2_unblock_lock() up to the downconvert worker, or all of it for
      a lock type that has none.  `checkpointed`: the answer of the lock type's own check. */
  function Unblock(l: LockState, ops: LockOps, checkpointed: bool): (LockState, UnblockOutcome) {
    if !l.blocked then (l, Settled)
    else if l.busy then
      if l.pending then (l, Requeue)
      else if l.unlockAction == CancelConvert then (l, Requeue)
      else (l.(unlockAction := CancelConvert), Cancel)
    else if l.upconvertFinishing then (l, Requeue)
    else if l.level == NL then (l.(blocking := NL, blocked := false), Settled)
    else if l.blocking == EX && (l.exHolders > 0 || l.roHolders > 0) then (l, Requeue)
    else if l.blocking == PR && l.exHolders > 0 then (l, Requeue)
    else if ops.requiresRefresh && l.refreshing then (l, Requeue)
    else if !checkpointed then (l, Requeue)
    else if ops.hasWorker then (l, RunWorker(l.blocking, l.level))
    else PrepareDowncvt(l, HighestCompat(l.blocking))
  }

  /** Back under the spinlock after the worker: start over if anything changed, else downconvert
      to the level worked out before. */
  function AfterWorker(l: LockState, ops: LockOps, checkpointed: bool, blocking: Level, level: Level)
    : (LockState, UnblockOutcome)
  {
    if blocking != l.blocking || level != l.level then Unblock(l, ops, checkpointed)
    else PrepareDowncvt(l, HighestCompat(blocking))
  }

  predicate AfterWorkerBug(l: LockState, ops: LockOps, checkpointed: bool, blocking: Level, level: Level) {
    if blocking != l.blocking || level != l.level then UnblockBug(l, ops, checkpointed)
    else PrepareDowncvtBug(l)
  }

  /** ocfs2_schedule_blocked_lock(): whether the lock goes on the blocked list. */
  function Schedule(l: LockState): (LockState, bool) {
    (l.(queued := l.queued || !l.freeing), !l.freeing)
  }

  /** The critical section of ocfs2_blocking_ast(). */
  function BlockingAst(l: LockState, level: Level): (LockState, bool) {
    var (l1, needed) := HandleBast(l, level);
    (l1.(queued := l1.queued || (needed && !l1.freeing)), needed && !l1.freeing)
  }

  /** The last critical section of ocfs2_process_blocked_lock(). */
  function FinishProcess(l: LockState, requeue: bool): (LockState, bool) {
    (l.(queued := requeue && !l.freeing), requeue && !l.freeing)
  }

  /** The critical section of ocfs2_drop_lock(). */
  function StartDrop(l: LockState): LockState {
    l.(attached := false, busy := true, unlockAction := DropLock)
  }

  /** ocfs2_should_refresh_lock_res() for the caller that gets to refresh. */
  function StartRefresh(l: LockState): LockState {
    l.(refreshing := true)
  }

  /** ocfs2_complete_lock_res_refresh(). */
  function CompleteRefresh(l: LockState, ok: bool): LockState {
    l.(refreshing := false, needsRefresh := l.needsRefresh && !ok)
  }

  // ----- What every section keeps, and what its caller can rely on -----

  predicate IsLevel(level: Level) {
    level == IV || level == NL || level == PR || level == EX
  }

  /** The level up to which holders may be admitted: the one being converted to when it is lower. */
  function Cap(l: LockState): Level {
    if l.action == Downconvert then l.requested else l.level
  }

  /** Nothing is asked of the DLM but by a busy lock, and PENDING is part of being busy. */
  predicate RequestOk(l: LockState) {
    && IsLevel(l.level) && (l.pending ==> l.busy) && (!l.busy ==> l.action == NoAction)
    && (l.unlockAction != DropLock ==> (l.attached <==> l.level >= NL))
    && (l.unlockAction == DropLock ==> l.busy && l.freeing && l.action == NoAction && !l.pending && !l.attached)
    && (l.action == Attach ==> l.level == IV && Lockable(l.requested))
    && (l.action == Convert ==> NL <= l.level < l.requested && Lockable(l.requested))
    && (l.action == Downconvert ==>
          && (l.requested == NL || l.requested == PR) && l.requested < l.level
          && l.blocked && HighestCompat(l.blocking) <= l.requested && !l.upconvertFinishing)
  }

  /** The lock is blocked exactly when something is blocked, and no holder is above the level held
      or being converted to. */
  predicate HoldersOk(l: LockState) {
    && (l.blocking == NL || l.blocking == PR || l.blocking == EX)
    && (l.blocked <==> l.blocking > NL)
    && (l.exHolders > 0 ==> Cap(l) == EX)
    && (l.roHolders > 0 ==> Cap(l) >= PR)
    && (l.freeing ==> l.exHolders == 0 && l.roHolders == 0)
  }

  predicate ResOk(l: LockState) {
    RequestOk(l) && HoldersOk(l)
  }

  /** A BAST: the lock blocks all that it is asked to, and goes on the list exactly when that needs a
      lower level than before and the lock is not being freed. */
  lemma BastMeans(l: LockState, level: Level)
    requires ResOk(l) && Lockable(level)
    ensures var (r, listed) := BlockingAst(l, level);
      && ResOk(r) && r.blocked && HighestCompat(r.blocking) <= HighestCompat(level)
      && HighestCompat(r.blocking) <= HighestCompat(l.blocking)
      && (listed <==> !l.freeing && HighestCompat(r.blocking) < HighestCompat(l.blocking))
      && (listed ==> r.queued)
  {
    hide RequestOk;
    BastRequest(l, level);
    BastHolders(l, level);
  }

  lemma BastRequest(l: LockState, level: Level)
    requires ResOk(l) && Lockable(level)
    ensures RequestOk(BlockingAst(l, level).0)
  {
  }

  lemma BastHolders(l: LockState, level: Level)
    requires HoldersOk(l) && Lockable(level)
    ensures HoldersOk(BlockingAst(l, level).0)
  {
  }

  /** An AST: the request is settled, at the level asked for unless it was refused, no holder loses
      its level, the cancel is forgotten, and a clear by the request's own generation that comes
      later does nothing. */
  lemma AstMeans(l: LockState, ops: LockOps, status: AstStatus)
    requires ResOk(l) && !LockingAstBug(l, status) && l.unlockAction != DropLock
    ensures var r := LockingAst(l, ops, status);
      && ResOk(r) && !r.busy && !r.pending && r.action == NoAction && r.unlockAction != CancelConvert
      && r.level == (if status == AstGranted then l.requested else l.level) && Cap(r) >= Cap(l)
      && (r.exHolders, r.roHolders) == (l.exHolders, l.roHolders)
      && (l.blocked && !r.blocked ==> r.level <= HighestCompat(l.blocking))
      && (l.pending ==> r.pendingGen > l.pendingGen)
  {
    hide RequestOk, HoldersOk, LockingAst, LockingAstBug;
    AstSettles(l, ops, status);
    AstRequest(l, ops, status);
    AstHolders(l, ops, status);
  }

  lemma AstSettles(l: LockState, ops: LockOps, status: AstStatus)
    requires ResOk(l) && !LockingAstBug(l, status)
    ensures var r := LockingAst(l, ops, status);
      && !r.busy && !r.pending && r.action == NoAction && r.unlockAction != CancelConvert
      && (r.unlockAction == l.unlockAction || r.unlockAction == NoUnlock)
      && r.level == (if status == AstGranted then l.requested else l.level) && Cap(r) >= Cap(l)
      && r.attached == (status == AstGranted || l.attached)
      && (r.exHolders, r.roHolders) == (l.exHolders, l.roHolders) && r.freeing == l.freeing
      && (l.pending ==> r.pendingGen > l.pendingGen)
  {
    hide HoldersOk, HandleAst;
  }

  lemma AstRequest(l: LockState, ops: LockOps, status: AstStatus)
    requires ResOk(l) && !LockingAstBug(l, status) && l.unlockAction != DropLock
    ensures RequestOk(LockingAst(l, ops, status))
  {
    hide HoldersOk, LockingAst;
    AstSettles(l, ops, status);
  }

  lemma AstHolders(l: LockState, ops: LockOps, status: AstStatus)
    requires ResOk(l) && !LockingAstBug(l, status)
    ensures var r := LockingAst(l, ops, status);
      HoldersOk(r) && (l.blocked && !r.blocked ==> r.level <= HighestCompat(l.blocking))
  {
    hide LockingAst;
    AstSettles(l, ops, status);
    AstBlocks(l, ops, status);
  }

  /** Only the AST of a downconvert unblocks the lock, and only if it went low enough. */
  lemma AstBlocks(l: LockState, ops: LockOps, status: AstStatus)
    ensures var r := LockingAst(l, ops, status);
      if status != AstAgain && l.action == Downconvert && l.requested <= HighestCompat(l.blocking)
      then !r.blocked && r.blocking == NL else r.blocked == l.blocked && r.blocking == l.blocking
  {
    hide HandleAst;
  }

  /** The order in which the driver does it. */
  lemma AstSteps(l: LockState, ops: LockOps, status: AstStatus)
    ensures var l1 := HandleAst(l, ops, status);
      var l2 := l1.(action := NoAction,
                    unlockAction := if l1.unlockAction == CancelConvert then NoUnlock else l1.unlockAction);
      LockingAst(l, ops, status) == ClearPending(l2, l2.pendingGen)
  {
    hide HandleAst;
  }

  /** The unlock AST: a cancelled request leaves level and holders as they were, a dropped lock is at
      no level, and neither stays busy. */
  lemma UnlockAstMeans(l: LockState)
    requires ResOk(l) && !UnlockAstBug(l) && (l.unlockAction == CancelConvert ==> !l.pending)
    ensures var r := UnlockAst(l);
      && ResOk(r) && !r.busy && r.unlockAction == NoUnlock
      && r.level == (if l.unlockAction == DropLock then IV else l.level)
      && (r.exHolders, r.roHolders) == (l.exHolders, l.roHolders)
      && (r.blocked, r.blocking) == (l.blocked, l.blocking)
  {
  }

  /** A locker is admitted at a level that is held and, unless an upconvert has just come in for it,
      beside what is blocked; and a request is made only of a lock that is not busy, for more than
      is held, and marked PENDING. */
  predicate LockPromise(l: LockState, level: Level, r: LockState, outcome: LockOutcome) {
    && (outcome == Acquired ==>
          && level <= Cap(r) && r.exHolders + r.roHolders == l.exHolders + l.roHolders + 1
          && (l.blocked && !l.upconvertFinishing ==> level <= HighestCompat(l.blocking)))
    && (outcome != Acquired ==> r.exHolders == l.exHolders && r.roHolders == l.roHolders)
    && (outcome.Request? ==> !l.busy && r.busy && r.pending && outcome.gen == r.pendingGen
                             && r.requested == level > l.level && (l.blocked ==> level <= HighestCompat(l.blocking)))
    && (!outcome.Request? ==> r.busy == l.busy && !r.upconvertFinishing)
  }

  /** A pass of the locking section keeps this promise. */
  lemma ClusterLockMeans(l: LockState, level: Level, tried: bool)
    requires ResOk(l) && Lockable(level) && !ClusterLockBug(l)
    ensures var (r, outcome) := ClusterLock(l, level, tried); ResOk(r) && LockPromise(l, level, r, outcome)
  {
    hide IncHolders, ClusterLock, ResOk, LockPromise;
    var (r, outcome) := ClusterLock(l, level, tried);
    LockShape(l, level, tried);
    match outcome
    case Acquired => Admitted(l, level);
    case Request(gen) => Requested(l, level);
    case WaitBusy => Waiting(l, level, outcome);
    case WaitBlocked => Waiting(l, level, outcome);
    case NotNow => Waiting(l, level, outcome);
  }

  /** Each outcome of the section: when it comes about and what it leaves behind. */
  lemma LockShape(l: LockState, level: Level, tried: bool)
    requires Lockable(level)
    ensures var (m, outcome) := ClusterLock(l, level, tried);
      match outcome
      case Acquired =>
        && m == IncHolders(l, level).(upconvertFinishing := false) && level <= l.level
        && (l.upconvertFinishing || (l.blocked ==> level <= HighestCompat(l.blocking)))
      case Request(gen) =>
        && gen == l.pendingGen && !tried && !l.busy && level > l.level
        && (l.blocked ==> level <= HighestCompat(l.blocking))
        && m == l.(action := if l.attached then Convert else Attach,
                   requested := level, busy := true, pending := true)
      case _ => m == l.(upconvertFinishing := false)
  {
  }

  lemma Admitted(l: LockState, level: Level)
    requires ResOk(l) && Lockable(level) && !l.freeing && level <= l.level
    requires l.upconvertFinishing || (l.blocked ==> level <= HighestCompat(l.blocking))
    ensures var r := IncHolders(l, level).(upconvertFinishing := false);
      ResOk(r) && LockPromise(l, level, r, Acquired)
  {
  }

  lemma Requested(l: LockState, level: Level)
    requires ResOk(l) && Lockable(level) && !l.busy && level > l.level
    requires l.blocked ==> level <= HighestCompat(l.blocking)
    ensures var r := l.(action := if l.attached then Convert else Attach,
                        requested := level, busy := true, pending := true);
      ResOk(r) && LockPromise(l, level, r, Request(l.pendingGen))
  {
  }

  lemma Waiting(l: LockState, level: Level, outcome: LockOutcome)
    requires ResOk(l) && !outcome.Request? && !outcome.Acquired?
    ensures ResOk(l.(upconvertFinishing := false)) && LockPromise(l, level, l.(upconvertFinishing := false), outcome)
  {
  }

  /** A pass of the downconvert thread: a downconvert is started only to the highest level beside what
      is blocked, when all holders fit it; a cancel only of a request the DLM has; and a lock that
      is left alone is not blocked or will be looked at again, as it was. */
  lemma UnblockMeans(l: LockState, ops: LockOps, checkpointed: bool)
    requires ResOk(l) && !UnblockBug(l, ops, checkpointed)
    ensures var (r, outcome) := Unblock(l, ops, checkpointed);
      && ResOk(r) && (r.exHolders, r.roHolders) == (l.exHolders, l.roHolders)
      && (outcome.Settled? ==> !r.blocked)
      && (outcome.Requeue? || outcome.RunWorker? ==> r == l)
      && (outcome.RunWorker? ==> l.blocked && !l.busy && checkpointed && WorkerMay(l))
      && (outcome.Cancel? ==> l.busy && !l.pending && r.unlockAction == CancelConvert)
      && (outcome.Downcvt? ==> l.blocked && !l.busy && checkpointed && WorkerMay(l) && Lowers(l, r, outcome))
  {
    hide RequestOk, HoldersOk;
    UnblockKeeps(l, ops, checkpointed);
    BlockingLevels(l);
    match Unblock(l, ops, checkpointed).1
    case Settled =>
    case Requeue =>
    case Cancel =>
    case RunWorker(_, _) =>
    case Downcvt(_, _) =>
  }

  lemma UnblockKeeps(l: LockState, ops: LockOps, checkpointed: bool)
    requires ResOk(l) && !UnblockBug(l, ops, checkpointed)
    ensures ResOk(Unblock(l, ops, checkpointed).0)
  {
  }

  lemma BlockingLevels(l: LockState)
    requires ResOk(l)
    ensures l.blocked ==> l.blocking == PR || l.blocking == EX
    ensures l.pending ==> l.busy
  {
  }

  /** What holds while the worker runs: nothing is asked for, and the holders fit what is blocked. */
  predicate WorkerMay(l: LockState) {
    && !l.upconvertFinishing
    && (l.exHolders > 0 ==> l.blocking != PR && l.blocking != EX)
    && (l.roHolders > 0 ==> l.blocking != EX)
  }

  predicate Lowers(l: LockState, r: LockState, outcome: UnblockOutcome)
    requires outcome.Downcvt?
  {
    && outcome.newLevel == r.requested == HighestCompat(l.blocking) < l.level
    && r.busy && r.pending && outcome.gen == r.pendingGen && r.action == Downconvert
  }

  /** After the worker: a downconvert to the level worked out before is started only if nothing has
      changed, and is then still the right one. */
  lemma AfterWorkerMeans(l: LockState, ops: LockOps, checkpointed: bool, blocking: Level, level: Level)
    requires ResOk(l) && !AfterWorkerBug(l, ops, checkpointed, blocking, level)
    requires blocking == l.blocking && level == l.level ==> l.blocked && !l.busy && WorkerMay(l)
    ensures var (r, outcome) := AfterWorker(l, ops, checkpointed, blocking, level);
      && ResOk(r) && (r.exHolders, r.roHolders) == (l.exHolders, l.roHolders)
      && (outcome.Downcvt? ==> Lowers(l, r, outcome) && outcome.newLevel <= HighestCompat(l.blocking))
  {
    if blocking != l.blocking || level != l.level {
      UnblockMeans(l, ops, checkpointed);
    }
  }

  /** PENDING is cleared only by the generation that set it, once: a second clear by the same, and any
      by another, changes nothing. */
  lemma ClearPendingMeans(l: LockState, gen: nat, other: nat)
    requires ResOk(l)
    ensures var r := ClearPending(l, gen);
      && ResOk(r) && ClearPending(r, gen) == r
      && (l.pending && !r.pending <==> l.pending && gen == l.pendingGen)
      && (other != l.pendingGen ==> ClearPending(l, other) == l)
  {
    hide ResOk;
    ClearPendingKeeps(l, gen);
  }

  lemma ClearPendingKeeps(l: LockState, gen: nat)
    requires ResOk(l)
    ensures ResOk(ClearPending(l, gen))
  {
  }

  /** The end of processing: the lock is put back on the list exactly when it is to be looked at again
      and is not being freed.  A BAST may have put it on the list meanwhile; it is then left on the
      list without QUEUED exactly when it is not put back. */
  lemma FinishMeans(l: LockState, requeue: bool, onList: bool)
    requires ResOk(l) && (onList && !l.freeing ==> l.queued)
    ensures var (r, listed) := FinishProcess(l, requeue);
      && ResOk(r) && (listed <==> requeue && !l.freeing) && (r.queued ==> onList || listed)
      && ((onList || listed) && !r.queued <==> onList && (l.freeing || !requeue))
  {
  }

  /** The counter is 32 bits wide in the driver. */
  const GEN_SPAN: nat := 0x1_0000_0000

  function ClearPending32(l: LockState, gen: nat): LockState {
    var mine := l.pending && l.pendingGen % GEN_SPAN == gen % GEN_SPAN;
    l.(pending := l.pending && !mine, pendingGen := if mine then l.pendingGen + 1 else l.pendingGen)
  }

  // ----- The resource as the driver keeps it -----

  class LockResource {
    const ops: LockOps
    var level: Level
    var requested: Level
    var blocking: Level
    var action: AstAction
    var unlockAction: UnlockAction
    var flags: Flags
    var pendingGen: nat
    var exHolders: nat
    var roHolders: nat

    function View(): LockState
      reads this
    {
      LockState(level, requested, blocking, action, unlockAction,
                flags.attached, flags.busy, flags.blocked, flags.local,
                flags.needsRefresh, flags.refreshing, flags.queued, flags.freeing,
                flags.pending, flags.upconvertFinishing, flags.nonblockFinished,
                pendingGen, exHolders, roHolders)
    }

    predicate Valid()
      reads this
    {
      ResOk(View())
    }

    constructor (ops: LockOps)
      ensures Valid() && View() == FRESH && this.ops == ops
    {
      this.ops := ops;
      level, requested, blocking := IV, IV, NL;
      action, unlockAction := NoAction, NoUnlock;
      flags := Flags(false, false, false, false, false, false, false, false, false, false, false);
      pendingGen, exHolders, roHolders := 0, 0, 0;
    }

    method ClearPendingLocked(gen: nat)
      modifies this`flags, this`pendingGen
      ensures View() == ClearPending(old(View()), gen)
      ensures old(Valid()) ==> Valid()
    {
      hide ResOk;
      if Valid() {
        ClearPendingKeeps(View(), gen);
      }
      if !flags.pending || pendingGen != gen {
        return;
      }
      ClearPendingFlag();
      pendingGen := pendingGen + 1;
    }

    method ClearPendingFlag()
      modifies this`flags
      ensures View() == old(View()).(pending := false)
    {
      flags := flags.(pending := false);
    }

    method SetPending() returns (gen: nat)
      requires flags.busy
      modifies this`flags
      ensures flags == old(flags).(pending := true) && gen == pendingGen
    {
      flags := flags.(pending := true);
      gen := pendingGen;
    }

    /** Ask for a downconvert unless one is under way that goes low enough. */
    method OnBlockingAst(blockedLevel: Level) returns (listed: bool)
      requires blockedLevel > NL
      modifies this`blocking, this`flags
      ensures (View(), listed) == BlockingAst(old(View()), blockedLevel)
      ensures old(Valid()) && Lockable(blockedLevel) ==>
                && Valid() && flags.blocked && HighestCompat(blocking) <= HighestCompat(blockedLevel)
                && (listed <==> !flags.freeing && HighestCompat(blocking) < HighestCompat(old(blocking)))
                && (listed ==> flags.queued)
    {
      if Valid() && Lockable(blockedLevel) {
        BastMeans(View(), blockedLevel);
      }
      var needed := GenericHandleBast(blockedLevel);
      listed := false;
      if needed {
        listed := ScheduleBlocked();
      }
    }

    method GenericHandleBast(blockedLevel: Level) returns (needed: bool)
      modifies this`blocking, this`flags
      ensures (View(), needed) == HandleBast(old(View()), blockedLevel)
    {
      needed := false;
      if blockedLevel > blocking {
        if HighestCompat(blockedLevel) < HighestCompat(blocking) {
          needed := true;
        }
        blocking := blockedLevel;
      }
      if needed {
        flags := flags.(blocked := true);
      }
    }

    method ScheduleBlocked() returns (listed: bool)
      modifies this`flags
      ensures (View(), listed) == Schedule(old(View()))
    {
      if flags.freeing {
        return false;
      }
      flags := flags.(queued := true);
      return true;
    }

    method OnLockingAst(status: AstStatus)
      requires !LockingAstBug(View(), status)
      modifies this
      ensures View() == LockingAst(old(View()), ops, status)
      ensures old(Valid()) && old(unlockAction) != DropLock ==>
                && Valid() && !flags.busy && !flags.pending
                && level == (if status == AstGranted then old(requested) else old(level))
                && exHolders == old(exHolders) && roHolders == old(roHolders)
                && (old(flags).blocked && !flags.blocked ==> level <= HighestCompat(old(blocking)))
    {
      hide HandleAst, LockingAst, ResOk;
      ghost var was := View();
      if Valid() && unlockAction != DropLock {
        AstMeans(View(), ops, status);
      }
      AstSteps(was, ops, status);
      LockingAstAction(status);
      FinishAst();
      ClearPendingLocked(pendingGen);
    }

    method LockingAstAction(status: AstStatus)
      requires !LockingAstBug(View(), status)
      modifies this
      ensures View() == HandleAst(old(View()), ops, status)
    {
      hide HandleAttach, HandleConvert;
      if status == AstAgain {
        ClearBusy();
        return;
      }
      match action {
        case Attach =>
          GenericHandleAttach();
          ClearLocal();
        case Convert =>
          GenericHandleConvert();
        case Downconvert =>
          GenericHandleDownconvert();
      }
    }

    method ClearBusy()
      modifies this`flags
      ensures View() == old(View()).(busy := false)
    {
      flags := flags.(busy := false);
    }

    method ClearLocal()
      modifies this`flags
      ensures View() == old(View()).(local := false)
    {
      flags := flags.(local := false);
    }

    /** Make the action invalid, and forget an attempt to cancel it. */
    method FinishAst()
      modifies this`action, this`unlockAction
      ensures View() == old(View()).(
                action := NoAction,
                unlockAction := if old(unlockAction) == CancelConvert then NoUnlock else old(unlockAction))
    {
      action := NoAction;
      if unlockAction == CancelConvert {
        unlockAction := NoUnlock;
      }
    }

    method GenericHandleAttach()
      requires !AttachBug(View())
      modifies this`flags, this`level
      ensures View() == HandleAttach(old(View()), ops)
    {
      if requested > NL && !flags.local && ops.requiresRefresh {
        flags := flags.(needsRefresh := true);
      }
      level := requested;
      flags := flags.(attached := true);
      flags := flags.(busy := false);
    }

    method GenericHandleConvert()
      requires !ConvertBug(View())
      modifies this`flags, this`level
      ensures View() == HandleConvert(old(View()), ops)
    {
      if level == NL && ops.requiresRefresh {
        flags := flags.(needsRefresh := true);
      }
      level := requested;
      if !flags.nonblockFinished {
        flags := flags.(upconvertFinishing := true);
      } else {
        flags := flags.(nonblockFinished := false);
      }
      flags := flags.(busy := false);
    }

    method GenericHandleDownconvert()
      requires !DownconvertBug(View())
      modifies this`level, this`blocking, this`flags
      ensures View() == HandleDowncvt(old(View()))
    {
      level := requested;
      if level <= HighestCompat(blocking) {
        blocking := NL;
        flags := flags.(blocked := false);
      }
      flags := flags.(busy := false);
    }

    method OnUnlockAst()
      requires !UnlockAstBug(View())
      modifies this`action, this`level, this`flags, this`unlockAction
      ensures View() == UnlockAst(old(View()))
      ensures old(Valid() && (unlockAction == CancelConvert ==> !flags.pending)) ==>
                && Valid() && !flags.busy
                && level == (if old(unlockAction) == DropLock then IV else old(level))
                && exHolders == old(exHolders) && roHolders == old(roHolders)
    {
      if Valid() && (unlockAction == CancelConvert ==> !flags.pending) {
        UnlockAstMeans(View());
      }
      if unlockAction == CancelConvert {
        action := NoAction;
      } else {
        level := IV;
      }
      flags := flags.(busy := false);
      unlockAction := NoUnlock;
    }

    method RecoverFromDlmError(convert: bool)
      modifies this`flags, this`action, this`unlockAction
      ensures View() == RecoverError(old(View()), convert)
    {
      ClearBusy();
      ClearUpconvertFinishing();
      ForgetRequest(convert);
    }

    method ForgetRequest(convert: bool)
      modifies this`action, this`unlockAction
      ensures View() == old(View()).(action := if convert then NoAction else old(action),
                                     unlockAction := if convert then old(unlockAction) else NoUnlock)
    {
      if convert {
        action := NoAction;
      } else {
        unlockAction := NoUnlock;
      }
    }

    /** One pass from `again:` to the release of the spinlock. */
    method ClusterLockPass(wanted: Level, tried: bool) returns (outcome: LockOutcome)
      requires Lockable(wanted) && !ClusterLockBug(View())
      modifies this`action, this`requested, this`flags, this`exHolders, this`roHolders
      ensures (View(), outcome) == ClusterLock(old(View()), wanted, tried)
      ensures old(Valid()) ==> Valid() && LockPromise(old(View()), wanted, View(), outcome)
    {
      hide IncHolders, ResOk, LockPromise;
      if Valid() {
        ClusterLockMeans(View(), wanted, tried);
      }
      if flags.busy && wanted > level {
        outcome := WaitBusy;
      } else if flags.upconvertFinishing && wanted <= level {
        outcome := Acquired;
      } else if flags.blocked && wanted > HighestCompat(blocking) {
        outcome := WaitBlocked;
      } else if wanted > level {
        if !tried {
          var gen := StartRequest(wanted);
          return Request(gen);
        }
        outcome := NotNow;
      } else {
        outcome := Acquired;
      }
      if outcome == Acquired {
        IncrementHolders(wanted);
      }
      ClearUpconvertFinishing();
    }

    method StartRequest(wanted: Level) returns (gen: nat)
      modifies this`action, this`requested, this`flags
      ensures gen == pendingGen
      ensures View() == old(View()).(action := if old(flags).attached then Convert else Attach,
                                     requested := wanted, busy := true, pending := true)
    {
      action := if flags.attached then Convert else Attach;
      requested := wanted;
      flags := flags.(busy := true);
      gen := SetPending();
    }

    method ClearUpconvertFinishing()
      modifies this`flags
      ensures View() == old(View()).(upconvertFinishing := false)
    {
      flags := flags.(upconvertFinishing := false);
    }

    method IncrementHolders(wanted: Level)
      modifies this`exHolders, this`roHolders
      ensures View() == IncHolders(old(View()), wanted)
    {
      if wanted == EX {
        exHolders := exHolders + 1;
      } else {
        roHolders := roHolders + 1;
      }
    }

    method ClusterUnlockPass(held: Level)
      requires Lockable(held) && !UnlockBug(View(), held)
      modifies this`exHolders, this`roHolders
      ensures View() == ClusterUnlock(old(View()), held)
    {
      if held == EX {
        exHolders := exHolders - 1;
      } else {
        roHolders := roHolders - 1;
      }
    }

    method UnblockPass(checkpointed: bool) returns (outcome: UnblockOutcome)
      requires !UnblockBug(View(), ops, checkpointed)
      modifies this`flags, this`blocking, this`action, this`requested, this`unlockAction
      ensures (View(), outcome) == Unblock(old(View()), ops, checkpointed)
      ensures old(Valid()) ==>
                && Valid()
                && (outcome.Settled? ==> !flags.blocked)
                && (outcome.Requeue? || outcome.RunWorker? ==> View() == old(View()))
                && (outcome.Cancel? ==> old(flags.busy && !flags.pending))
                && (outcome.Downcvt? ==> checkpointed && old(WorkerMay(View())) && Lowers(old(View()), View(), outcome))
    {
      hide ResOk, WorkerMay, Lowers;
      if Valid() {
        UnblockMeans(View(), ops, checkpointed);
      }
      if !flags.blocked {
        return Settled;
      }
      if flags.busy {
        if flags.pending {
          return Requeue;
        }
        if unlockAction == CancelConvert {
          return Requeue;
        }
        unlockAction := CancelConvert;
        return Cancel;
      }
      if flags.upconvertFinishing {
        return Requeue;
      }
      if level == NL {
        blocking := NL;
        flags := flags.(blocked := false);
        return Settled;
      }
      if blocking == EX && (exHolders > 0 || roHolders > 0) {
        return Requeue;
      }
      if blocking == PR && exHolders > 0 {
        return Requeue;
      }
      if ops.requiresRefresh && flags.refreshing {
        return Requeue;
      }
      if !checkpointed {
        return Requeue;
      }
      if ops.hasWorker {
        return RunWorker(blocking, level);
      }
      outcome := StartDowncvt(HighestCompat(blocking));
    }

    method StartDowncvt(newLevel: Level) returns (outcome: UnblockOutcome)
      requires blocking > NL && level > newLevel
      modifies this`flags, this`action, this`requested
      ensures (View(), outcome) == PrepareDowncvt(old(View()), newLevel)
    {
      action := Downconvert;
      requested := newLevel;
      flags := flags.(busy := true);
      var gen := SetPending();
      outcome := Downcvt(newLevel, gen);
    }

    method UnblockAfterWorker(checkpointed: bool, wasBlocking: Level, wasLevel: Level)
      returns (outcome: UnblockOutcome)
      requires !AfterWorkerBug(View(), ops, checkpointed, wasBlocking, wasLevel)
      modifies this`flags, this`blocking, this`action, this`requested, this`unlockAction
      ensures (View(), outcome) == AfterWorker(old(View()), ops, checkpointed, wasBlocking, wasLevel)
      ensures old(Valid()) && old(wasBlocking == blocking && wasLevel == level ==>
                                    flags.blocked && !flags.busy && WorkerMay(View())) ==>
                && Valid()
                && (outcome.Downcvt? ==> Lowers(old(View()), View(), outcome))
    {
      hide ResOk, WorkerMay, Lowers;
      if Valid() && (wasBlocking == blocking && wasLevel == level ==>
          flags.blocked && !flags.busy && WorkerMay(View())) {
        AfterWorkerMeans(View(), ops, checkpointed, wasBlocking, wasLevel);
      }
      if wasBlocking != blocking || wasLevel != level {
        outcome := UnblockPass(checkpointed);
      } else {
        outcome := StartDowncvt(HighestCompat(wasBlocking));
      }
    }

    method FinishProcessPass(requeue: bool) returns (listed: bool)
      modifies this`flags
      ensures (View(), listed) == FinishProcess(old(View()), requeue)
      ensures old(Valid()) ==> Valid()
      ensures (listed <==> flags.queued) && (requeue && !listed ==> flags.freeing)
    {
      if flags.freeing || !requeue {
        ClearQueued();
        listed := false;
      } else {
        listed := ScheduleBlocked();
      }
    }

    method ClearQueued()
      modifies this`flags
      ensures View() == old(View()).(queued := false)
    {
      flags := flags.(queued := false);
    }

    method DropPass()
      requires flags.freeing && !flags.busy && flags.attached && action == NoAction
      modifies this`flags, this`unlockAction
      ensures View() == StartDrop(old(View()))
    {
      flags := flags.(attached := false);
      flags := flags.(busy := true);
      unlockAction := DropLock;
    }

    method ShouldRefresh() returns (mine: bool)
      requires !(flags.needsRefresh && flags.refreshing)
      modifies this`flags
      ensures mine == old(flags.needsRefresh)
      ensures View() == if mine then StartRefresh(old(View())) else old(View())
    {
      mine := flags.needsRefresh;
      if mine {
        flags := flags.(refreshing := true);
      }
    }

    method CompleteRefreshPass(ok: bool)
      modifies this`flags
      ensures View() == CompleteRefresh(old(View()), ok)
    {
      flags := flags.(refreshing := false);
      if ok {
        flags := flags.(needsRefresh := false);
      }
    }
  }
}
