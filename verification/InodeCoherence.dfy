/** Coherence of the inode attributes that ride on the inode lock (dlmglue.c): the lock value
    block, the refresh after a new grant, and the checkpoint that must come before a downconvert.
    The machine is that of LockProtocol with each node's cached attributes, the disk and the DLM's
    copy of the value block added. */
module InodeCoherence {
  import opened LockRes
  import opened LockProtocol

  // ----- Attributes and their packed form -----

  datatype Time = Time(sec: int, nsec: nat)

  /** The attributes the value block carries.  All fields but the times and the link count have
      the same width in the inode and in the block. */
  datatype Attr = Attr(size: nat, clusters: nat, uid: nat, gid: nat, mode: nat, nlink: nat,
                       atime: Time, ctime: Time, mtime: Time,
                       flags: nat, features: nat, generation: nat)

  /** A lock value block; `NoLvb`: not valid, or of another version. */
  datatype Lvb =
    | NoLvb
    | Lvb(size: nat, clusters: nat, uid: nat, gid: nat, mode: nat, nlink: nat,
          atime: nat, ctime: nat, mtime: nat, flags: nat, features: nat, generation: nat)

  const NSEC_SPAN: nat := 0x4000_0000       // 30 bits of nanoseconds
  const SEC_SPAN: nat := 0x4_0000_0000      // 34 bits of seconds
  const LINK_SPAN: nat := 0x1_0000          // 16 bits of links

  /** ocfs2_pack_timespec(). */
  function PackTime(t: Time): (p: nat)
    ensures p < SEC_SPAN * NSEC_SPAN
  {
    var sec := if t.sec < 0 then 0 else if t.sec >= SEC_SPAN then SEC_SPAN - 1 else t.sec;
    sec * NSEC_SPAN + t.nsec % NSEC_SPAN
  }

  function UnpackTime(p: nat): Time {
    Time(p / NSEC_SPAN, p % NSEC_SPAN)
  }

  /** A time survives the value block exactly when it fits its 34 and 30 bits. */
  lemma TimeRoundTrip(t: Time)
    ensures UnpackTime(PackTime(t)) == t <==> 0 <= t.sec < SEC_SPAN && t.nsec < NSEC_SPAN
  {
    var sec := if t.sec < 0 then 0 else if t.sec >= SEC_SPAN then SEC_SPAN - 1 else t.sec;
    var nsec := t.nsec % NSEC_SPAN;
    assert PackTime(t) == sec * NSEC_SPAN + nsec;
    assert PackTime(t) / NSEC_SPAN == sec && PackTime(t) % NSEC_SPAN == nsec;
  }

  lemma PackUnpackTime(t: Time)
    ensures PackTime(UnpackTime(PackTime(t))) == PackTime(t)
  {
    var p := PackTime(t);
    assert p / NSEC_SPAN < SEC_SPAN;
    assert p == p / NSEC_SPAN * NSEC_SPAN + p % NSEC_SPAN;
  }

  /** __ocfs2_stuff_meta_lvb(). */
  function Pack(a: Attr): Lvb {
    Lvb(a.size, a.clusters, a.uid, a.gid, a.mode, a.nlink % LINK_SPAN,
        PackTime(a.atime), PackTime(a.ctime), PackTime(a.mtime), a.flags, a.features, a.generation)
  }

  /** ocfs2_refresh_inode_from_lvb(). */
  function Unpack(b: Lvb): Attr
    requires b.Lvb?
  {
    Attr(b.size, b.clusters, b.uid, b.gid, b.mode, b.nlink,
         UnpackTime(b.atime), UnpackTime(b.ctime), UnpackTime(b.mtime), b.flags, b.features, b.generation)
  }

  /** What a node sees of `a` when it got it by value block. */
  function Seen(a: Attr): Attr {
    Unpack(Pack(a))
  }

  predicate TimeFits(t: Time) {
    0 <= t.sec < SEC_SPAN && t.nsec < NSEC_SPAN
  }

  predicate Fits(a: Attr) {
    TimeFits(a.atime) && TimeFits(a.ctime) && TimeFits(a.mtime) && a.nlink < LINK_SPAN
  }

  /** The attributes survive the value block exactly when the times and the link count fit. */
  lemma SeenExactly(a: Attr)
    ensures Seen(a) == a <==> Fits(a)
  {
    hide PackTime, UnpackTime;
    TimeRoundTrip(a.atime);
    TimeRoundTrip(a.ctime);
    TimeRoundTrip(a.mtime);
  }

  lemma PackSeen(a: Attr)
    ensures Pack(Seen(a)) == Pack(a)
  {
    hide PackTime, UnpackTime;
    PackUnpackTime(a.atime);
    PackUnpackTime(a.ctime);
    PackUnpackTime(a.mtime);
  }

  // ----- The machine -----

  const INODE_OPS := LockOps(true, true, true)

  datatype Data = Data(
    cache: Attr,    // the in-memory inode
    lksb: Lvb,      // the node's copy of the value block
    dirty: bool,    // changes are in the journal and not checkpointed
    hasRead: bool,  // the refresh under way has read the attributes
    deleted: bool)  // the inode is known to be deleted

  datatype World = World(nodes: Cluster, data: seq<Data>, disk: Attr, master: Lvb, truth: Attr)

  datatype Event =
    | Lock(node: nat, action: Action)
    | Write(node: nat, attr: Attr)     // an EX holder changes the inode in a transaction
    | Reuse(node: nat, attr: Attr)     // it wipes the inode and makes a new one in its place
    | Checkpoint(node: nat)            // the journal has written the inode back
    | ReadAttrs(node: nat)             // the reading part of ocfs2_inode_lock_update()
    | LearnDeleted(node: nat)          // the node deletes the inode or is told of its deletion
    | LoseLvb                          // the DLM no longer vouches for the value block

  /** What a node puts in its value block: nothing valid for a deleted inode. */
  function Stuffed(d: Data): Lvb {
    if d.deleted then NoLvb else Pack(d.cache)
  }

  /** ocfs2_meta_lvb_is_trustable(). */
  predicate Trusted(d: Data) {
    d.lksb.Lvb? && d.lksb.generation == d.cache.generation
  }

  function Holders(l: LockState): nat {
    l.exHolders + l.roHolders
  }

  /** What the inode code adds to the conditions on a lock step: the downconvert asks the journal,
      a deleted inode is not refreshed, a refresh that succeeds has read something, the refreshing
      thread keeps its lock, the worker of the inode lock never stops the downconvert, and an inode
      is checkpointed before its lock is dropped. */
  predicate InodeGuard(n: Node, d: Data, a: Action)
    requires Enabled(n, INODE_OPS, a)
  {
    match a
    case UnblockRuns(checkpointed) => checkpointed == !d.dirty
    case WorkerDone(checkpointed) => checkpointed == !d.dirty
    case WorkerStop => false
    case BeginRefresh => !d.deleted
    case EndRefresh(ok) => ok ==> d.hasRead
    case Unlock(_) => n.l.refreshing ==> Holders(n.l) > 1
    case Drop => !d.dirty
    case _ => true
  }

  /** The value block is refilled when a downconvert or a drop starts from a refreshed EX. */
  predicate Stuffs(n: Node, m: Node, a: Action) {
    && StuffsLvb(n.l, INODE_OPS)
    && (a.Drop? || ((a.UnblockRuns? || a.WorkerDone?) && m.dc.Asking?))
  }

  /** The effect of a lock step on the node's data: a grant of a higher level brings the DLM's
      copy of the value block. */
  function LockData(n: Node, m: Node, d: Data, a: Action, master: Lvb): Data {
    d.(lksb := if Stuffs(n, m, a) then Stuffed(d)
               else if a.Grant? && m.granted > n.granted then master
               else d.lksb,
       hasRead := d.hasRead && !a.BeginRefresh?)
  }

  /** Leaving EX hands the node's copy to the DLM. */
  function LockMaster(n: Node, m: Node, d: Data, master: Lvb): Lvb {
    if n.granted == EX && m.granted < EX then d.lksb else master
  }

  predicate EventEnabled(w: World, e: Event)
    requires |w.data| == |w.nodes|
  {
    match e
    case Lock(i, a) =>
      && i < |w.nodes| && Enabled(w.nodes[i], INODE_OPS, a) && !Bug(w.nodes[i], INODE_OPS, a)
      && (a.Grant? ==> MayGrant(w.nodes, i)) && InodeGuard(w.nodes[i], w.data[i], a)
    case Write(i, attr) =>
      && i < |w.nodes| && w.nodes[i].l.exHolders > 0 && !w.nodes[i].l.needsRefresh
      && attr.generation == w.truth.generation
    case Reuse(i, _) =>
      && i < |w.nodes| && w.nodes[i].l.exHolders > 0 && !w.nodes[i].l.needsRefresh
      && forall j :: 0 <= j < |w.nodes| && j != i ==> w.data[j].deleted
    case Checkpoint(i) => i < |w.nodes| && w.data[i].dirty
    case ReadAttrs(i) => i < |w.nodes| && w.nodes[i].l.refreshing
    case LearnDeleted(i) => i < |w.nodes|
    case LoseLvb => true
  }

  function Happen(w: World, e: Event): World
    requires |w.data| == |w.nodes| && EventEnabled(w, e)
  {
    match e
    case Lock(i, a) =>
      var n, d := w.nodes[i], w.data[i];
      var m := Apply(n, INODE_OPS, a);
      w.(nodes := w.nodes[i := m], data := w.data[i := LockData(n, m, d, a, w.master)],
         master := LockMaster(n, m, d, w.master))
    case Write(i, attr) =>
      w.(data := w.data[i := w.data[i].(cache := attr, dirty := true)], truth := attr)
    case Reuse(i, attr) =>
      w.(data := w.data[i := w.data[i].(cache := attr, dirty := true, deleted := false)], truth := attr)
    case Checkpoint(i) =>
      w.(data := w.data[i := w.data[i].(dirty := false)], disk := w.data[i].cache)
    case ReadAttrs(i) =>
      var d := w.data[i];
      w.(data := w.data[i := d.(cache := if Trusted(d) then Unpack(d.lksb) else w.disk, hasRead := true)])
    case LearnDeleted(i) => w.(data := w.data[i := w.data[i].(deleted := true)])
    case LoseLvb => w.(master := NoLvb)
  }

  // ----- The invariant -----

  /** As good as the truth: equal to it, or to what the value block can carry of it. */
  predicate Agrees(cache: Attr, truth: Attr) {
    cache == truth || cache == Seen(truth)
  }

  predicate Matches(b: Lvb, truth: Attr) {
    b.Lvb? ==> b == Pack(truth)
  }

  predicate DataInv(n: Node, d: Data, truth: Attr) {
    // the inode in memory is the one on disk, or is known to be deleted
    && (!d.deleted || n.l.refreshing ==> d.cache.generation == truth.generation)
    // a level held and refreshed: the cache is current
    && (n.granted >= PR && n.l.level >= PR && !n.l.needsRefresh ==> Agrees(d.cache, truth))
    // a level granted and not refreshed: the value block, if any, is current
    && (n.granted >= PR && (n.l.needsRefresh || n.l.level < PR) ==> Matches(d.lksb, truth))
    // about to leave EX: so is the block that will be handed over
    && (n.granted == EX && (n.l.action == Downconvert || n.gone) ==> Matches(d.lksb, truth))
    && (n.l.refreshing ==> n.l.needsRefresh && Holders(n.l) > 0 && (d.hasRead ==> Agrees(d.cache, truth)))
    && (d.dirty ==>
          && n.l.level == EX && n.granted == EX && !n.l.needsRefresh && d.cache == truth
          && n.l.action == NoAction && !n.gone && !n.dc.Working?)
  }

  predicate NoneGranted(nodes: Cluster, level: Level) {
    forall i :: 0 <= i < |nodes| ==> nodes[i].granted != level
  }

  predicate WorldInv(w: World) {
    && |w.data| == |w.nodes|
    && ClusterInv(w.nodes)
    && (forall i :: 0 <= i < |w.nodes| ==> DataInv(w.nodes[i], w.data[i], w.truth))
    && (NoneGranted(w.nodes, EX) ==> Matches(w.master, w.truth))
    && ((forall i :: 0 <= i < |w.data| ==> !w.data[i].dirty) ==> w.disk == w.truth)
  }

  /** No one has used the lock; the inodes in memory are of the generation on disk. */
  predicate Initial(w: World) {
    && |w.data| == |w.nodes| && Start(w.nodes)
    && w.disk == w.truth && w.master == NoLvb
    && forall i :: 0 <= i < |w.data| ==>
         && !w.data[i].dirty && w.data[i].lksb == NoLvb && w.data[i].cache.generation == w.truth.generation
  }

  // ----- Each event keeps it -----

  /** The step changed nothing the data depends on. */
  lemma StillData(n: Node, m: Node, d: Data, truth: Attr)
    requires DataInv(n, d, truth)
    requires m.granted == n.granted && m.gone == n.gone && m.l.level == n.l.level
    requires m.l.needsRefresh == n.l.needsRefresh && m.l.refreshing == n.l.refreshing
    requires m.l.action == Downconvert ==> n.l.action == Downconvert
    requires n.l.refreshing ==> Holders(m.l) > 0
    requires d.dirty ==> m.l.action == NoAction && !m.dc.Working?
    ensures DataInv(m, d, truth)
  {
  }

  lemma LockPassData(n: Node, t: nat, d: Data, truth: Attr)
    requires LiveInv(n) && DataInv(n, d, truth)
    requires t in n.lockers && t !in n.calls && Lockable(n.lockers[t].wanted)
    ensures DataInv(DoLockPass(n, t), d, truth)
  {
    hide LiveInv, ClusterLock, IncHolders, Seen, Pack;
    var k := n.lockers[t];
    LockShape(n.l, k.wanted, k.tried);
    QuietFacts(n);
    var m := DoLockPass(n, t);
    match ClusterLock(n.l, k.wanted, k.tried).1
    case Request(gen) => StillData(n, m, d, truth);
    case Acquired => StillData(n, m, d, truth);
    case NotNow => StillData(n, m, d, truth);
    case WaitBusy => StillData(n, m, d, truth);
    case WaitBlocked => StillData(n, m, d, truth);
  }

  lemma CallData(n: Node, d: Data, a: Action, truth: Attr)
    requires DataInv(n, d, truth) && Enabled(n, INODE_OPS, a)
    requires a.CallDlm? || a.ClearPendingOf? || a.Recover?
    ensures DataInv(Apply(n, INODE_OPS, a), d, truth)
  {
    hide Seen, Pack;
    match a
    case CallDlm(_, _) => StillData(n, Apply(n, INODE_OPS, a), d, truth);
    case ClearPendingOf(_) => StillData(n, Apply(n, INODE_OPS, a), d, truth);
    case Recover(_) => StillData(n, Apply(n, INODE_OPS, a), d, truth);
  }

  /** What an AST does to the level and the refresh. */
  predicate Refreshes(l: LockState, ops: LockOps, granted: bool, r: LockState) {
    && r.level == (if granted then l.requested else l.level) && r.refreshing == l.refreshing
    && Holders(r) == Holders(l)
    && (r.needsRefresh <==>
          || l.needsRefresh
          || (granted && ops.requiresRefresh && l.action == Attach && l.requested > NL && !l.local)
          || (granted && ops.requiresRefresh && l.action == Convert && l.level == NL))
  }

  lemma AttachRefreshes(l: LockState, ops: LockOps)
    requires l.action == Attach
    ensures Refreshes(l, ops, true, HandleAttach(l, ops).(local := false))
  {
  }

  lemma ConvertRefreshes(l: LockState, ops: LockOps)
    requires l.action == Convert
    ensures Refreshes(l, ops, true, HandleConvert(l, ops))
  {
  }

  lemma DowncvtRefreshes(l: LockState, ops: LockOps)
    requires l.action == Downconvert
    ensures Refreshes(l, ops, true, HandleDowncvt(l))
  {
  }

  lemma HandleRefreshes(l: LockState, ops: LockOps, status: AstStatus)
    requires !LockingAstBug(l, status)
    ensures Refreshes(l, ops, status == AstGranted, HandleAst(l, ops, status))
  {
    hide HandleAttach, HandleConvert, HandleDowncvt, AttachBug, ConvertBug, DownconvertBug, Refreshes;
    if status == AstGranted {
      match l.action
      case Attach => AttachRefreshes(l, ops);
      case Convert => ConvertRefreshes(l, ops);
      case Downconvert => DowncvtRefreshes(l, ops);
      case NoAction =>
    } else {
      AgainRefreshes(l, ops);
    }
  }

  lemma AgainRefreshes(l: LockState, ops: LockOps)
    ensures Refreshes(l, ops, false, l.(busy := false))
  {
  }

  lemma AstRefresh(l: LockState, ops: LockOps, status: AstStatus)
    requires !LockingAstBug(l, status)
    ensures var r := LockingAst(l, ops, status);
      r.action == NoAction && Refreshes(l, ops, status == AstGranted, r)
  {
    hide HandleAst, LockingAstBug;
    HandleRefreshes(l, ops, status);
  }

  lemma AstData(n: Node, d: Data, truth: Attr)
    requires LiveInv(n) && DataInv(n, d, truth) && (n.req.Done? || n.req.Refused?)
    ensures DataInv(n.(l := LockingAst(n.l, INODE_OPS, AstStatusOf(n)), req := NoReq), d, truth)
  {
    hide Seen, Pack, CancelInv, WorkerInv, LockingAst, LockingAstBug;
    AstCore(n, INODE_OPS);
    AstRefresh(n.l, INODE_OPS, AstStatusOf(n));
  }

  lemma GrantData(n: Node, d: Data, truth: Attr, master: Lvb)
    requires LiveInv(n) && DataInv(n, d, truth) && n.req.Waiting?
    requires n.req.to > n.granted ==> Matches(master, truth)
    ensures var m := n.(granted := n.req.to, req := Done(n.req.to));
      && DataInv(m, LockData(n, m, d, Grant, master), truth)
      && (n.granted == EX && m.granted < EX ==> Matches(d.lksb, truth))
  {
    hide Seen, Pack, CancelInv, WorkerInv;
  }

  lemma DropData(n: Node, d: Data, a: Action, truth: Attr, master: Lvb)
    requires LiveInv(n) && DataInv(n, d, truth) && Enabled(n, INODE_OPS, a) && InodeGuard(n, d, a)
    requires a.Drop?
    ensures var m := Apply(n, INODE_OPS, a); DataInv(m, LockData(n, m, d, a, master), truth)
  {
    PackSeen(truth);
    hide Seen, Pack, CancelInv, WorkerInv;
  }

  /** The start of a downconvert leaves a current value block behind and finds nothing dirty. */
  lemma DowncvtData(n: Node, m: Node, d: Data, truth: Attr)
    requires LiveInv(n) && DataInv(n, d, truth) && !d.dirty && !n.l.busy && !n.gone
    requires m.granted == n.granted && m.gone == n.gone && m.l.level == n.l.level
    requires m.l.needsRefresh == n.l.needsRefresh && m.l.refreshing == n.l.refreshing
    requires Holders(m.l) == Holders(n.l)
    ensures DataInv(m, d.(lksb := if StuffsLvb(n.l, INODE_OPS) then Stuffed(d) else d.lksb), truth)
  {
    PackSeen(truth);
    hide Seen, Pack, CancelInv, ActionInv, WorkerInv, HolderInv;
  }

  lemma DataFacts(n: Node, d: Data, truth: Attr)
    requires DataInv(n, d, truth)
    ensures n.l.refreshing ==> n.l.needsRefresh && Holders(n.l) > 0
    ensures d.dirty ==> n.l.action == NoAction && !n.gone && !n.dc.Working? && n.granted == EX
  {
  }

  lemma UnblockData(n: Node, d: Data, checkpointed: bool, truth: Attr)
    requires LiveInv(n) && DataInv(n, d, truth) && (n.dc.Unblocking? || n.dc.Working?)
    requires checkpointed == !d.dirty
    ensures var m := DoUnblock(n, INODE_OPS, checkpointed);
      DataInv(m, d.(lksb := if StuffsLvb(n.l, INODE_OPS) && m.dc.Asking? then Stuffed(d) else d.lksb), truth)
  {
    hide Seen, Pack, LiveInv, DataInv, DoUnblock;
    QuietFacts(n);
    DataFacts(n, d, truth);
    UnblockStays(n, checkpointed);
    var m := DoUnblock(n, INODE_OPS, checkpointed);
    if m.dc.Asking? {
      DowncvtData(n, m, d, truth);
    } else {
      StillData(n, m, d, truth);
    }
  }

  /** What the downconvert thread's section leaves alone, and when it goes on to the worker or to ask
      for the lower level. */
  lemma UnblockStays(n: Node, checkpointed: bool)
    requires n.dc.Unblocking? || n.dc.Working?
    ensures var m := DoUnblock(n, INODE_OPS, checkpointed);
      && m.granted == n.granted && m.gone == n.gone && m.l.level == n.l.level && Holders(m.l) == Holders(n.l)
      && m.l.needsRefresh == n.l.needsRefresh && m.l.refreshing == n.l.refreshing
      && (m.dc.Asking? ==> !n.l.busy && checkpointed)
      && (!m.dc.Asking? ==> m.l.action == n.l.action) && (m.dc.Working? ==> checkpointed)
  {
    match Unblock(n.l, INODE_OPS, checkpointed).1
    case Settled =>
    case Requeue =>
    case Cancel =>
    case RunWorker(_, _) =>
    case Downcvt(_, _) =>
  }

  lemma WorkerDoneData(n: Node, d: Data, checkpointed: bool, truth: Attr)
    requires LiveInv(n) && DataInv(n, d, truth) && n.dc.Working? && checkpointed == !d.dirty
    ensures var m := DoWorkerDone(n, INODE_OPS, checkpointed);
      DataInv(m, d.(lksb := if StuffsLvb(n.l, INODE_OPS) && m.dc.Asking? then Stuffed(d) else d.lksb), truth)
  {
    if n.dc.blocking != n.l.blocking || n.dc.level != n.l.level {
      UnblockData(n, d, checkpointed, truth);
    } else {
      DowncvtData(n, DoWorkerDone(n, INODE_OPS, checkpointed), d, truth);
    }
  }

  lemma LockersData(n: Node, d: Data, a: Action, truth: Attr, master: Lvb)
    requires DataInv(n, d, truth) && Enabled(n, INODE_OPS, a) && InodeGuard(n, d, a)
    requires !Bug(n, INODE_OPS, a) && (OfLockers(a) || OfThread(a))
    ensures var m := Apply(n, INODE_OPS, a); DataInv(m, LockData(n, m, d, a, master), truth)
  {
    hide Seen, Pack;
    match a
    case Arrive(_, _) =>
    case GiveUp(_) =>
    case Take =>
    case CheckFreeing =>
    case Finish =>
    case Unlist =>
  }

  lemma ResourceData(n: Node, d: Data, a: Action, truth: Attr, master: Lvb)
    requires LiveInv(n) && DataInv(n, d, truth) && Enabled(n, INODE_OPS, a) && InodeGuard(n, d, a)
    requires !Bug(n, INODE_OPS, a) && OfResource(a)
    ensures var m := Apply(n, INODE_OPS, a); DataInv(m, LockData(n, m, d, a, master), truth)
  {
    hide Seen, Pack, CancelInv, WorkerInv, LevelInv, ReqInv;
    match a
    case Unlock(_) =>
    case BeginRefresh =>
    case EndRefresh(_) =>
    case MarkFreeing =>
    case Free =>
  }

  lemma RequestData(n: Node, d: Data, a: Action, truth: Attr, master: Lvb)
    requires LiveInv(n) && DataInv(n, d, truth) && Enabled(n, INODE_OPS, a) && InodeGuard(n, d, a)
    requires !Bug(n, INODE_OPS, a) && (a.Refuse? || a.CancelCall? || a.UnlockAstRuns? || a.Bast?)
    ensures var m := Apply(n, INODE_OPS, a); DataInv(m, LockData(n, m, d, a, master), truth)
  {
    hide Seen, Pack, CancelInv, WorkerInv;
    match a
    case Refuse =>
    case CancelCall =>
    case UnlockAstRuns =>
    case Bast(_) =>
  }

  lemma PlainData(n: Node, d: Data, a: Action, truth: Attr, master: Lvb)
    requires LiveInv(n) && DataInv(n, d, truth) && Enabled(n, INODE_OPS, a) && InodeGuard(n, d, a)
    requires !Bug(n, INODE_OPS, a)
    requires (Plain(a) && !a.Grant? && !a.Drop? && !a.DropCall?) || a.UnlockAstRuns? || a.Bast?
    ensures var m := Apply(n, INODE_OPS, a); DataInv(m, LockData(n, m, d, a, master), truth)
  {
    hide LiveInv, DataInv, Enabled, Bug, Apply, InodeGuard, LockData;
    if OfLockers(a) || OfThread(a) {
      LockersData(n, d, a, truth, master);
    } else if OfResource(a) {
      ResourceData(n, d, a, truth, master);
    } else {
      RequestData(n, d, a, truth, master);
    }
  }

  /** Handing over the value block needs a current one, and only two steps do. */
  lemma LockHandsOver(n: Node, d: Data, a: Action, truth: Attr)
    requires NodeInv(n) && DataInv(n, d, truth) && Enabled(n, INODE_OPS, a) && !Bug(n, INODE_OPS, a)
    requires n.granted == EX && Apply(n, INODE_OPS, a).granted < EX
    ensures Matches(d.lksb, truth)
  {
    GrantedNext(n, INODE_OPS, a);
    hide Apply, Bug, Pack, CallsInv, CancelInv, WorkerInv;
  }

  lemma DroppedWorkerData(n: Node, d: Data, checkpointed: bool, truth: Attr)
    requires DroppedInv(n) && DataInv(n, d, truth) && n.dc.Working?
    requires !AfterWorkerBug(n.l, INODE_OPS, checkpointed, n.dc.blocking, n.dc.level)
    ensures var m := DoWorkerDone(n, INODE_OPS, checkpointed);
      DataInv(m, d.(lksb := if StuffsLvb(n.l, INODE_OPS) && m.dc.Asking? then Stuffed(d) else d.lksb), truth)
  {
    PackSeen(truth);
    hide Seen, Pack, DroppedReq;
  }

  lemma DroppedUnblockData(n: Node, d: Data, checkpointed: bool, truth: Attr)
    requires DroppedInv(n) && DataInv(n, d, truth) && n.dc.Unblocking? && !UnblockBug(n.l, INODE_OPS, checkpointed)
    ensures var m := DoUnblock(n, INODE_OPS, checkpointed); DataInv(m, d, truth) && !m.dc.Asking?
  {
    hide Seen, Pack, DroppedReq;
  }

  /** The DLM's side of a drop. */
  lemma DroppedReqData(n: Node, d: Data, a: Action, truth: Attr, master: Lvb)
    requires DroppedInv(n) && DataInv(n, d, truth) && Enabled(n, INODE_OPS, a) && !Bug(n, INODE_OPS, a)
    requires a.Grant? || a.DropCall? || a.UnlockAstRuns?
    ensures DataInv(Apply(n, INODE_OPS, a), LockData(n, Apply(n, INODE_OPS, a), d, a, master), truth)
  {
    hide DroppedThread, Seen, Pack, Matches, Agrees;
    match a
    case Grant =>
    case DropCall =>
    case UnlockAstRuns =>
  }

  lemma DroppedCallData(n: Node, d: Data, a: Action, truth: Attr, master: Lvb)
    requires DroppedRes(n) && DataInv(n, d, truth) && Enabled(n, INODE_OPS, a)
    requires a.CallDlm? || a.ClearPendingOf? || a.Recover?
    ensures DataInv(Apply(n, INODE_OPS, a), LockData(n, Apply(n, INODE_OPS, a), d, a, master), truth)
  {
    hide Seen, Pack, Matches, Agrees;
    match a
    case CallDlm(_, _) =>
    case ClearPendingOf(_) =>
    case Recover(_) =>
  }

  lemma DroppedOtherData(n: Node, d: Data, a: Action, truth: Attr, master: Lvb)
    requires DroppedRes(n) && DataInv(n, d, truth) && Enabled(n, INODE_OPS, a) && !Bug(n, INODE_OPS, a)
    requires a.Bast? || OfThread(a) || a.EndRefresh? || a.CancelCall? || a.Free?
    ensures DataInv(Apply(n, INODE_OPS, a), LockData(n, Apply(n, INODE_OPS, a), d, a, master), truth)
  {
    hide Seen, Pack, Matches, Agrees;
    match a
    case Bast(_) =>
    case EndRefresh(_) =>
    case CancelCall =>
    case Finish =>
    case _ =>
  }

  /** The steps that a lock which is being dropped cannot take. */
  lemma DroppedNever(n: Node, a: Action)
    requires DroppedRes(n) && (n.req.Waiting? ==> !n.req.noqueue) && Enabled(n, INODE_OPS, a)
    ensures !a.Arrive? && !a.LockPass? && !a.GiveUp? && !a.Unlock? && !a.Refuse? && !a.BeginRefresh? && !a.MarkFreeing?
    ensures !a.Unlist? && !a.Drop?
  {
  }

  /** A lock that is being dropped has no holders, and its value block is current until it is handed
      over. */
  lemma DroppedData(n: Node, d: Data, a: Action, truth: Attr, master: Lvb)
    requires DroppedInv(n) && DataInv(n, d, truth) && Enabled(n, INODE_OPS, a) && !Bug(n, INODE_OPS, a)
    ensures DataInv(Apply(n, INODE_OPS, a), LockData(n, Apply(n, INODE_OPS, a), d, a, master), truth)
  {
    hide DroppedRes, DroppedThread, DataInv, LockData, DoUnblock, DoWorkerDone, LockingAst, UnblockBug, AfterWorkerBug,
      LockingAstBug, Seen, Pack;
    DroppedNever(n, a);
    match a
    case UnblockRuns(c) => DroppedUnblockData(n, d, c, truth); DroppedStuffs(n, d, a, master);
    case WorkerDone(c) => DroppedWorkerData(n, d, c, truth); DroppedStuffs(n, d, a, master);
    case Ast => DroppedAst(n);
    case Grant => DroppedReqData(n, d, a, truth, master);
    case DropCall => DroppedReqData(n, d, a, truth, master);
    case UnlockAstRuns => DroppedReqData(n, d, a, truth, master);
    case CallDlm(_, _) => DroppedCallData(n, d, a, truth, master);
    case ClearPendingOf(_) => DroppedCallData(n, d, a, truth, master);
    case Recover(_) => DroppedCallData(n, d, a, truth, master);
    case _ => DroppedOtherData(n, d, a, truth, master);
  }

  lemma DroppedStuffs(n: Node, d: Data, a: Action, master: Lvb)
    requires Enabled(n, INODE_OPS, a) && !Bug(n, INODE_OPS, a) && (a.UnblockRuns? || a.WorkerDone?)
    ensures var m := Apply(n, INODE_OPS, a);
      LockData(n, m, d, a, master) ==
      d.(lksb := if StuffsLvb(n.l, INODE_OPS) && m.dc.Asking? then Stuffed(d) else d.lksb)
  {
    hide Bug, DoUnblock, DoWorkerDone, Stuffed;
  }

  /** What a lock step does to one node's data, given a current value block for a grant. */
  lemma LockKeeps(n: Node, d: Data, a: Action, truth: Attr, master: Lvb)
    requires NodeInv(n) && DataInv(n, d, truth) && Enabled(n, INODE_OPS, a) && InodeGuard(n, d, a)
    requires !Bug(n, INODE_OPS, a)
    requires a.Grant? && n.req.to > n.granted ==> Matches(master, truth)
    ensures DataInv(Apply(n, INODE_OPS, a), LockData(n, Apply(n, INODE_OPS, a), d, a, master), truth)
  {
    hide LiveInv, DroppedInv, CallsInv, QueueInv, DataInv, Enabled, Bug, Apply, InodeGuard, LockData, Matches;
    if n.gone {
      DroppedData(n, d, a, truth, master);
    } else {
      LiveData(n, d, a, truth, master);
    }
  }

  lemma LiveData(n: Node, d: Data, a: Action, truth: Attr, master: Lvb)
    requires LiveNode(n) && DataInv(n, d, truth) && Enabled(n, INODE_OPS, a) && InodeGuard(n, d, a)
    requires !Bug(n, INODE_OPS, a) && !n.gone
    requires a.Grant? && n.req.to > n.granted ==> Matches(master, truth)
    ensures DataInv(Apply(n, INODE_OPS, a), LockData(n, Apply(n, INODE_OPS, a), d, a, master), truth)
  {
    hide LiveInv, CallsInv, DataInv, Bug, Seen, Pack, Matches, DoLockPass, DoCallDlm, DoClearPending, DoRecover,
      DoGiveUp, DoBast, DoUnblock, DoWorkerDone, DoCancel, DoFinish, LockingAst, UnlockAst;
    match a
    case LockPass(t) => LockPassData(n, t, d, truth);
    case CallDlm(_, _) => CallData(n, d, a, truth);
    case ClearPendingOf(_) => CallData(n, d, a, truth);
    case Recover(_) => CallData(n, d, a, truth);
    case Ast => AstData(n, d, truth);
    case Grant => GrantData(n, d, truth, master);
    case Drop => DropData(n, d, a, truth, master);
    case DropCall =>
    case UnblockRuns(c) => UnblockData(n, d, c, truth);
    case WorkerDone(c) => WorkerDoneData(n, d, c, truth);
    case _ => PlainData(n, d, a, truth, master);
  }

  /** A grant of a higher level finds a current value block: no one holds EX. */
  lemma GrantFindsCurrent(w: World, i: nat)
    requires WorldInv(w) && i < |w.nodes| && w.nodes[i].req.Waiting? && MayGrant(w.nodes, i)
    requires w.nodes[i].req.to > w.nodes[i].granted
    ensures Matches(w.master, w.truth)
  {
    hide DataInv, Matches, CallsInv, CancelInv, WorkerInv;
    assert NodeInv(w.nodes[i]);
    forall j | 0 <= j < |w.nodes|
      ensures w.nodes[j].granted != EX
    {
      if j != i {
        assert Compatible(w.nodes[i].req.to, w.nodes[j].granted);
      }
    }
  }

  lemma LockEventMaster(w: World, i: nat, a: Action)
    requires WorldInv(w) && EventEnabled(w, Lock(i, a))
    ensures var w' := Happen(w, Lock(i, a));
      NoneGranted(w'.nodes, EX) ==> Matches(w'.master, w'.truth)
  {
    hide DataInv, Matches, NodeInv, Enabled, Bug, Apply, LockData, InodeGuard, Compatible;
    var n, d := w.nodes[i], w.data[i];
    var w' := Happen(w, Lock(i, a));
    StepKeeps(w.nodes, INODE_OPS, i, a, w'.nodes);
    GrantedLevel(w'.nodes[i]);
    if NoneGranted(w'.nodes, EX) {
      if n.granted == EX {
        LockHandsOver(n, d, a, w.truth);
      } else {
        forall j | 0 <= j < |w.nodes|
          ensures w.nodes[j].granted != EX
        {
          assert w'.nodes[j].granted != EX;
        }
      }
    }
  }

  lemma LockEventDisk(w: World, i: nat, a: Action)
    requires WorldInv(w) && EventEnabled(w, Lock(i, a))
    ensures var w' := Happen(w, Lock(i, a));
      (forall j :: 0 <= j < |w'.data| ==> !w'.data[j].dirty) ==> w'.disk == w'.truth
  {
    hide DataInv, NodeInv, Enabled, Bug, Apply, InodeGuard, NoneGranted, ClusterInv;
    var w' := Happen(w, Lock(i, a));
    if forall j :: 0 <= j < |w'.data| ==> !w'.data[j].dirty {
      forall j | 0 <= j < |w.data|
        ensures !w.data[j].dirty
      {
        assert !w'.data[j].dirty;
      }
    }
  }

  lemma GrantEvent(w: World, i: nat, a: Action)
    requires WorldInv(w) && EventEnabled(w, Lock(i, a))
    ensures a.Grant? && w.nodes[i].req.to > w.nodes[i].granted ==> Matches(w.master, w.truth)
  {
    hide DataInv, Matches, NodeInv, Bug, InodeGuard, Compatible, NoneGranted;
    if a.Grant? && w.nodes[i].req.to > w.nodes[i].granted {
      GrantFindsCurrent(w, i);
    }
  }

  lemma LockEvent(w: World, i: nat, a: Action)
    requires WorldInv(w) && EventEnabled(w, Lock(i, a))
    ensures WorldInv(Happen(w, Lock(i, a)))
  {
    hide DataInv, Matches, NodeInv, Enabled, Bug, Apply, LockData, LockMaster, InodeGuard, Compatible, NoneGranted;
    GrantEvent(w, i, a);
    var n, d := w.nodes[i], w.data[i];
    var w' := Happen(w, Lock(i, a));
    StepKeeps(w.nodes, INODE_OPS, i, a, w'.nodes);
    LockKeeps(n, d, a, w.truth, w.master);
    LockEventMaster(w, i, a);
    LockEventDisk(w, i, a);
  }

  /** An EX holder on node i leaves the others nothing that depends on the truth, but for its generation
      while they do not know that the inode is deleted. */
  lemma WriteElsewhere(w: World, i: nat, j: nat, attr: Attr)
    requires WorldInv(w) && i < |w.nodes| && w.nodes[i].l.exHolders > 0 && j < |w.nodes| && j != i
    requires attr.generation == w.truth.generation || w.data[j].deleted
    ensures DataInv(w.nodes[j], w.data[j], attr) && !w.data[j].dirty
  {
    hide CoreInv, CallsInv, QueueInv, Seen, Pack;
    assert NodeInv(w.nodes[i]) && NodeInv(w.nodes[j]);
    assert DataInv(w.nodes[j], w.data[j], w.truth);
    HoldersCovered(w.nodes[i]);
    HoldersCovered(w.nodes[j]);
    assert Compatible(w.nodes[j].granted, w.nodes[i].granted);
  }

  lemma WriteHere(n: Node, d: Data, truth: Attr, attr: Attr)
    requires NodeInv(n) && DataInv(n, d, truth) && n.l.exHolders > 0 && !n.l.needsRefresh
    ensures n.granted == EX && DataInv(n, d.(cache := attr, dirty := true), attr)
    ensures DataInv(n, d.(cache := attr, dirty := true, deleted := false), attr)
  {
    hide Seen, Pack, CallsInv, CancelInv;
  }

  lemma WriteEvent(w: World, i: nat, attr: Attr)
    requires WorldInv(w) && EventEnabled(w, Write(i, attr))
    ensures WorldInv(Happen(w, Write(i, attr)))
  {
    hide DataInv, NodeInv, Compatible, Matches;
    var w' := Happen(w, Write(i, attr));
    WriteHere(w.nodes[i], w.data[i], w.truth, attr);
    forall j | 0 <= j < |w.nodes|
      ensures DataInv(w'.nodes[j], w'.data[j], attr)
    {
      if j != i {
        WriteElsewhere(w, i, j, attr);
      }
    }
    assert w'.data[i].dirty;
  }

  lemma ReuseEvent(w: World, i: nat, attr: Attr)
    requires WorldInv(w) && EventEnabled(w, Reuse(i, attr))
    ensures WorldInv(Happen(w, Reuse(i, attr)))
  {
    hide DataInv, NodeInv, Compatible, Matches;
    var w' := Happen(w, Reuse(i, attr));
    WriteHere(w.nodes[i], w.data[i], w.truth, attr);
    forall j | 0 <= j < |w.nodes|
      ensures DataInv(w'.nodes[j], w'.data[j], attr)
    {
      if j != i {
        WriteElsewhere(w, i, j, attr);
      }
    }
    assert w'.data[i].dirty;
  }

  /** Only one inode copy is dirty, and none while another node has a level to read at. */
  lemma DirtyAlone(w: World, i: nat, j: nat)
    requires WorldInv(w) && i < |w.nodes| && j < |w.nodes| && i != j
    requires w.data[j].dirty
    ensures w.nodes[i].granted < PR && !w.data[i].dirty
  {
    hide NodeInv, Seen, Pack;
    assert DataInv(w.nodes[j], w.data[j], w.truth) && DataInv(w.nodes[i], w.data[i], w.truth);
    assert Compatible(w.nodes[i].granted, w.nodes[j].granted);
  }

  lemma CheckpointEvent(w: World, i: nat)
    requires WorldInv(w) && EventEnabled(w, Checkpoint(i))
    ensures WorldInv(Happen(w, Checkpoint(i)))
  {
    hide NodeInv, Compatible, Matches, Agrees;
    assert DataInv(w.nodes[i], w.data[i], w.truth);
    var w' := Happen(w, Checkpoint(i));
  }

  lemma ReadEvent(w: World, i: nat)
    requires WorldInv(w) && EventEnabled(w, ReadAttrs(i))
    ensures WorldInv(Happen(w, ReadAttrs(i)))
  {
    hide CoreInv, CallsInv, Compatible, PackTime, UnpackTime;
    var n, d := w.nodes[i], w.data[i];
    assert NodeInv(n) && DataInv(n, d, w.truth);
    HoldersCovered(n);
    assert n.granted >= PR;
    if !Trusted(d) {
      forall j | 0 <= j < |w.data|
        ensures !w.data[j].dirty
      {
        if w.data[j].dirty && j != i {
          DirtyAlone(w, i, j);
        }
      }
    }
    var w' := Happen(w, ReadAttrs(i));
    assert DataInv(n, w'.data[i], w.truth);
    forall j | 0 <= j < |w.data|
      ensures w'.data[j].dirty == w.data[j].dirty && DataInv(w'.nodes[j], w'.data[j], w.truth)
    {
      assert DataInv(w.nodes[j], w.data[j], w.truth);
    }
    assert (forall j :: 0 <= j < |w'.data| ==> !w'.data[j].dirty) ==> w.disk == w.truth by {
      hide DataInv, NodeInv;
      if (forall j :: 0 <= j < |w'.data| ==> !w'.data[j].dirty) {
        forall j | 0 <= j < |w.data| ensures !w.data[j].dirty { assert !w'.data[j].dirty; }
      }
    }
  }

  lemma LearnEvent(w: World, i: nat)
    requires WorldInv(w) && EventEnabled(w, LearnDeleted(i))
    ensures WorldInv(Happen(w, LearnDeleted(i)))
  {
    hide NodeInv, Compatible, Matches, Agrees;
    var w' := Happen(w, LearnDeleted(i));
    forall j | 0 <= j < |w.data|
      ensures w'.data[j].dirty == w.data[j].dirty && DataInv(w'.nodes[j], w'.data[j], w.truth)
    {
      assert DataInv(w.nodes[j], w.data[j], w.truth);
    }
    assert (forall j :: 0 <= j < |w'.data| ==> !w'.data[j].dirty) ==> w.disk == w.truth by {
      hide DataInv, NodeInv;
      if (forall j :: 0 <= j < |w'.data| ==> !w'.data[j].dirty) {
        forall j | 0 <= j < |w.data| ensures !w.data[j].dirty { assert !w'.data[j].dirty; }
      }
    }
  }

  lemma EventKeeps(w: World, e: Event)
    requires WorldInv(w) && EventEnabled(w, e)
    ensures WorldInv(Happen(w, e))
  {
    match e
    case Lock(i, a) => LockEvent(w, i, a);
    case Write(i, attr) => WriteEvent(w, i, attr);
    case Reuse(i, attr) => ReuseEvent(w, i, attr);
    case Checkpoint(i) => CheckpointEvent(w, i);
    case ReadAttrs(i) => ReadEvent(w, i);
    case LearnDeleted(i) => LearnEvent(w, i);
    case LoseLvb =>
      hide DataInv, NodeInv, Compatible;
  }

  // ----- Over whole runs -----

  /** A run of the machine: the worlds passed through and the events between them. */
  predicate Behaviour(worlds: seq<World>, events: seq<Event>) {
    && |worlds| == |events| + 1 && Initial(worlds[0])
    && (forall k :: 0 <= k < |worlds| ==> |worlds[k].data| == |worlds[k].nodes|)
    && (forall k :: 0 <= k < |events| ==>
          EventEnabled(worlds[k], events[k]) && worlds[k + 1] == Happen(worlds[k], events[k]))
  }

  lemma InitialInv(w: World)
    requires Initial(w)
    ensures WorldInv(w)
  {
    StartInv();
    hide CoreInv, CallsInv, Pack, Seen;
    forall i | 0 <= i < |w.nodes|
      ensures NodeInv(w.nodes[i]) && DataInv(w.nodes[i], w.data[i], w.truth) && w.nodes[i].granted == IV
    {
      assert w.nodes[i] == NODE0;
    }
    assert Compatible(IV, IV);
  }

  lemma {:induction false} BehaviourKeeps(worlds: seq<World>, events: seq<Event>, k: nat)
    requires Behaviour(worlds, events) && k < |worlds|
    ensures WorldInv(worlds[k])
  {
    hide WorldInv, EventEnabled, Happen, Initial;
    if k == 0 {
      InitialInv(worlds[0]);
    } else {
      BehaviourKeeps(worlds, events, k - 1);
      EventKeeps(worlds[k - 1], events[k - 1]);
    }
  }

  /** Metadata coherence: a node that holds the inode lock with NEEDS_REFRESH clear sees the
      attributes the last EX holder of any node left, or what the value block can carry of them;
      and exactly those whenever the times and the link count fit the block. */
  lemma CachedIsCurrent(worlds: seq<World>, events: seq<Event>, k: nat, i: nat)
    requires Behaviour(worlds, events) && k < |worlds| && i < |worlds[k].nodes|
    requires Holders(worlds[k].nodes[i].l) > 0 && !worlds[k].nodes[i].l.needsRefresh
    ensures var cache, truth := worlds[k].data[i].cache, worlds[k].truth;
      && (cache == truth || cache == Seen(truth))
      && (Fits(truth) ==> cache == truth)
  {
    BehaviourKeeps(worlds, events, k);
    hide Behaviour, CallsInv, CancelInv, WorkerInv, ActionInv, Seen, Pack;
    var w := worlds[k];
    assert NodeInv(w.nodes[i]) && DataInv(w.nodes[i], w.data[i], w.truth);
    HoldersCovered(w.nodes[i]);
    SeenExactly(w.truth);
    HolderLevel(w.nodes[i]);
  }

  lemma HolderLevel(n: Node)
    requires NodeInv(n) && Holders(n.l) > 0
    ensures n.l.level >= PR && n.granted >= PR
  {
    hide CallsInv, CancelInv, WorkerInv;
  }

  /** The BUG_ON of the checkpoint test: below EX there is never anything to write back. */
  lemma OnlyExIsDirty(worlds: seq<World>, events: seq<Event>, k: nat, i: nat)
    requires Behaviour(worlds, events) && k < |worlds| && i < |worlds[k].nodes|
    requires worlds[k].data[i].dirty
    ensures worlds[k].nodes[i].l.level == EX
    ensures forall j :: 0 <= j < |worlds[k].nodes| && j != i ==>
              !worlds[k].data[j].dirty && worlds[k].nodes[j].l.exHolders == 0 && worlds[k].nodes[j].l.roHolders == 0
  {
    BehaviourKeeps(worlds, events, k);
    hide Behaviour, NodeInv, Seen, Pack;
    var w := worlds[k];
    assert DataInv(w.nodes[i], w.data[i], w.truth);
    forall j | 0 <= j < |w.nodes| && j != i
      ensures !w.data[j].dirty && w.nodes[j].l.exHolders == 0 && w.nodes[j].l.roHolders == 0
    {
      DirtyAlone(w, j, i);
      HoldersCovered(w.nodes[j]);
    }
  }

  /** When no node has unwritten changes the disk has what the last EX holder left, so a refresh
      that goes to disk reads it exactly. */
  lemma DiskIsCurrent(worlds: seq<World>, events: seq<Event>, k: nat, i: nat)
    requires Behaviour(worlds, events) && k < |worlds| && i < |worlds[k].nodes|
    requires worlds[k].nodes[i].l.refreshing
    ensures worlds[k].disk == worlds[k].truth
  {
    BehaviourKeeps(worlds, events, k);
    hide Behaviour, CoreInv, CallsInv, Seen, Pack;
    var w := worlds[k];
    assert NodeInv(w.nodes[i]) && DataInv(w.nodes[i], w.data[i], w.truth);
    HoldersCovered(w.nodes[i]);
    forall j | 0 <= j < |w.data|
      ensures !w.data[j].dirty
    {
      if w.data[j].dirty && j != i {
        DirtyAlone(w, i, j);
      }
    }
  }

  /** The check of the generation after a read from disk never fails, although inodes are wiped and
      their places reused: a node that is refreshing has the inode that is on disk. */
  lemma GenerationsMatch(worlds: seq<World>, events: seq<Event>, k: nat, i: nat)
    requires Behaviour(worlds, events) && k < |worlds| && i < |worlds[k].nodes|
    requires worlds[k].nodes[i].l.refreshing
    ensures worlds[k].data[i].cache.generation == worlds[k].disk.generation
  {
    BehaviourKeeps(worlds, events, k);
    DiskIsCurrent(worlds, events, k, i);
    hide Behaviour, NodeInv, Seen, Pack;
    assert DataInv(worlds[k].nodes[i], worlds[k].data[i], worlds[k].truth);
  }
}
