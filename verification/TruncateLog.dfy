/** The truncate log (alloc.c): freed runs of clusters are noted in a log of fixed size and given
    back to the bitmap later, from the last to the first. */
module TruncateLog {
  /** A run of physical clusters. */
  datatype Run = Run(start: nat, len: nat)

  function Of(r: Run): multiset<nat>
    decreases r.len
  {
    if r.len == 0 then multiset{} else Of(Run(r.start, r.len - 1)) + multiset{r.start + r.len - 1}
  }

  lemma {:induction false} OfHas(r: Run, c: nat)
    ensures Of(r)[c] == if r.start <= c < r.start + r.len then 1 else 0
    decreases r.len
  {
    if r.len > 0 {
      OfHas(Run(r.start, r.len - 1), c);
    }
  }

  lemma OfConcat(start: nat, a: nat, b: nat)
    ensures Of(Run(start, a + b)) == Of(Run(start, a)) + Of(Run(start + a, b))
  {
    hide Of;
    forall c: nat
      ensures Of(Run(start, a + b))[c] == Of(Run(start, a))[c] + Of(Run(start + a, b))[c]
    {
      OfHas(Run(start, a + b), c);
      OfHas(Run(start, a), c);
      OfHas(Run(start + a, b), c);
    }
  }

  /** All clusters of a list of runs. */
  function All(l: seq<Run>): multiset<nat> {
    if l == [] then multiset{} else All(l[..|l| - 1]) + Of(l[|l| - 1])
  }

  /** Those that a replay gives back: a run that starts at 0 is ignored as invalid. */
  function Replayed(l: seq<Run>): multiset<nat> {
    if l == [] then multiset{}
    else Replayed(l[..|l| - 1]) + if l[|l| - 1].start != 0 then Of(l[|l| - 1]) else multiset{}
  }

  lemma {:induction false} AllConcat(a: seq<Run>, b: seq<Run>)
    ensures All(a + b) == All(a) + All(b)
    decreases |b|
  {
    hide Of;
    if b == [] {
      assert a + b == a;
    } else {
      AllConcat(a, b[..|b| - 1]);
      assert (a + b)[..|a + b| - 1] == a + b[..|b| - 1];
    }
  }

  lemma {:induction false} ReplayedConcat(a: seq<Run>, b: seq<Run>)
    ensures Replayed(a + b) == Replayed(a) + Replayed(b)
    decreases |b|
  {
    hide Of;
    if b == [] {
      assert a + b == a;
    } else {
      ReplayedConcat(a, b[..|b| - 1]);
      assert (a + b)[..|a + b| - 1] == a + b[..|b| - 1];
    }
  }

  lemma ReplayedFrom(l: seq<Run>, i: nat)
    requires i < |l|
    ensures Replayed(l[i..]) == (if l[i].start != 0 then Of(l[i]) else multiset{}) + Replayed(l[i + 1..])
  {
    hide Of;
    assert l[i..] == [l[i]] + l[i + 1..];
    ReplayedConcat([l[i]], l[i + 1..]);
    assert [l[i]][..0] == [];
  }

  lemma ReplayedNone(l: seq<Run>)
    ensures Replayed(l[|l|..]) == multiset{}
  {
  }

  /** Runs that a caller may log: not empty, and not at cluster 0. */
  predicate Proper(l: seq<Run>) {
    forall i :: 0 <= i < |l| ==> l[i].start != 0 && l[i].len > 0
  }

  /** Those that a replay drops. */
  function Dropped(l: seq<Run>): multiset<nat> {
    if l == [] then multiset{}
    else Dropped(l[..|l| - 1]) + if l[|l| - 1].start != 0 then multiset{} else Of(l[|l| - 1])
  }

  lemma {:induction false} ReplayedAndDropped(l: seq<Run>)
    ensures All(l) == Replayed(l) + Dropped(l)
  {
    hide Of;
    if l != [] {
      ReplayedAndDropped(l[..|l| - 1]);
    }
  }

  /** A replay drops nothing exactly when none of the non-empty runs starts at 0. */
  lemma {:induction false} NoneDropped(l: seq<Run>)
    requires forall i :: 0 <= i < |l| ==> l[i].len > 0
    ensures Dropped(l) == multiset{} <==> Proper(l)
  {
    hide Of;
    if l != [] {
      var t, r := l[..|l| - 1], l[|l| - 1];
      NoneDropped(t);
      OfHas(r, r.start);
      assert l == t + [r];
      if r.start == 0 {
        assert Dropped(l)[0] > 0;
      }
    }
  }

  /** The bitmap takes every run that has a start. */
  predicate AllFreed(l: seq<Run>, frees: Run -> bool) {
    forall i :: 0 <= i < |l| && l[i].start != 0 ==> frees(l[i])
  }

  lemma NothingMissing(a: multiset<nat>, d: multiset<nat>)
    ensures a == a + d <==> d == multiset{}
  {
    if d != multiset{} {
      var c :| c in d;
      assert (a + d)[c] > a[c];
    }
  }

  lemma NoneLeft(l: seq<Run>)
    ensures l == [] ==> All(l) == multiset{}
  {
  }

  /** What is lost when the bitmap refuses run i. */
  lemma AllWithout(l: seq<Run>, i: nat)
    requires i < |l| && l[i].len > 0
    ensures All(l) == All(l[..i]) + Replayed(l[i + 1..]) + (Of(l[i]) + Dropped(l[i + 1..]))
    ensures l[i].start in Of(l[i]) + Dropped(l[i + 1..])
  {
    hide Of, Replayed, Dropped;
    assert l == l[..i] + ([l[i]] + l[i + 1..]);
    AllConcat(l[..i], [l[i]] + l[i + 1..]);
    AllConcat([l[i]], l[i + 1..]);
    assert [l[i]][..0] == [];
    ReplayedAndDropped(l[i + 1..]);
    OfHas(l[i], l[i].start);
  }

  /** What the log holds after a run was appended: a run that continues the last one extends it. */
  function Appended(l: seq<Run>, r: Run): seq<Run> {
    if l != [] && l[|l| - 1].start + l[|l| - 1].len == r.start then
      l[..|l| - 1] + [Run(l[|l| - 1].start, r.len + l[|l| - 1].len)]
    else l + [r]
  }

  lemma AppendedKeeps(l: seq<Run>, r: Run)
    ensures All(Appended(l, r)) == All(l) + Of(r)
    ensures Proper(l) && r.start != 0 && r.len > 0 ==> Proper(Appended(l, r))
    ensures |l| <= |Appended(l, r)| <= |l| + 1
  {
    hide Of, All;
    if l != [] && l[|l| - 1].start + l[|l| - 1].len == r.start {
      var t, last := l[..|l| - 1], l[|l| - 1];
      OfConcat(last.start, last.len, r.len);
      assert l == t + [last];
      AllSnoc(t, last);
      AllSnoc(t, Run(last.start, r.len + last.len));
    } else {
      AllSnoc(l, r);
    }
  }

  lemma AllSnoc(l: seq<Run>, r: Run)
    ensures All(l + [r]) == All(l) + Of(r)
  {
    hide Of;
    assert (l + [r])[..|l|] == l;
  }

  /** The log of a node, and what has been given back to the bitmap. */
  class Log {
    const recs: array<Run>
    var used: nat
    var freed: multiset<nat>

    ghost predicate Valid()
      reads this
    {
      0 < recs.Length && used <= recs.Length
    }

    ghost function Contents(): seq<Run>
      requires Valid()
      reads this, recs
    {
      recs[..used]
    }

    constructor (count: nat)
      requires count > 0
      ensures Valid() && fresh(recs) && recs.Length == count && Contents() == [] && freed == multiset{}
    {
      recs := new Run[count](_ => Run(0, 0));
      used, freed := 0, multiset{};
    }

    /** ocfs2_truncate_log_needs_flush(). */
    method NeedsFlush() returns (r: bool)
      requires Valid()
      ensures r <==> |Contents()| == recs.Length
    {
      r := used == recs.Length;
    }

    /** ocfs2_truncate_log_append(): one transaction.  A full log takes nothing, not even a run that
        would extend its last one. */
    method Append(start: nat, len: nat) returns (ok: bool)
      requires Valid()
      modifies this`used, recs
      ensures Valid() && (ok <==> |old(Contents())| < recs.Length)
      ensures Contents() == if ok then Appended(old(Contents()), Run(start, len)) else old(Contents())
    {
      if used >= recs.Length {
        return false;
      }
      ghost var was := Contents();
      var index, total := used, len;
      if used > 0 && recs[used - 1].start + recs[used - 1].len == start {
        index := index - 1;
        total := total + recs[index].len;
      } else {
        recs[index] := recs[index].(start := start);
        used := index + 1;
      }
      recs[index] := recs[index].(len := total);
      assert Contents()[..index] == was[..index];
      ok := true;
    }

    /** One transaction of ocfs2_replay_truncate_records(): the last record leaves the log, and its
        run goes back to the bitmap. */
    method ReplayOne(frees: bool) returns (ok: bool)
      requires Valid() && used > 0
      modifies this
      ensures Valid() && Contents() == old(Contents()[..used - 1])
      ensures var r := old(Contents()[used - 1]);
        && (ok <==> r.start == 0 || frees)
        && freed == old(freed) + if r.start != 0 && frees then Of(r) else multiset{}
    {
      used := used - 1;
      var rec := recs[used];
      ok := true;
      if rec.start != 0 {
        if frees {
          freed := freed + Of(rec);
        }
        ok := frees;
      }
    }

    /** ocfs2_replay_truncate_records(): from the last record to the first, until the bitmap refuses
        a run.  That run is lost: it has left the log by then.  `frees` is the bitmap's answer for a
        run. */
    method Replay(frees: Run -> bool) returns (ok: bool)
      requires Valid()
      modifies this
      ensures Valid() && used <= |old(Contents())| && Contents() == old(Contents())[..used]
      ensures ok <==> AllFreed(old(Contents()), frees)
      ensures ok ==> used == 0 && freed == old(freed) + Replayed(old(Contents()))
      ensures !ok ==> used < |old(Contents())| && old(Contents())[used].start != 0 && !frees(old(Contents())[used])
                      && freed == old(freed) + Replayed(old(Contents())[used + 1..])
    {
      hide Of, Replayed;
      ghost var l := Contents();
      ok := true;
      ReplayedNone(l);
      while used > 0
        invariant Valid() && used <= |l| && Contents() == l[..used]
        invariant freed == old(freed) + Replayed(l[used..])
        invariant forall i :: used <= i < |l| && l[i].start != 0 ==> frees(l[i])
        decreases used
      {
        ReplayedFrom(l, used - 1);
        ok := ReplayOne(frees(recs[used - 1]));
        if !ok {
          return;
        }
      }
      assert l[0..] == l;
    }

    /** A flush moves every cluster of the log to the bitmap if and only if every run has a start and
        the bitmap takes it; it empties the log if and only if the bitmap takes those with a start. */
    method Flush(frees: Run -> bool) returns (ok: bool)
      requires Valid() && forall i :: 0 <= i < used ==> recs[i].len > 0
      modifies this
      ensures Valid() && used <= |old(Contents())| && Contents() == old(Contents())[..used]
      ensures All(Contents()) + freed <= old(All(Contents()) + freed)
      ensures All(Contents()) + freed == old(All(Contents()) + freed) <==>
              forall i :: 0 <= i < |old(Contents())| ==> old(Contents())[i].start != 0 && frees(old(Contents())[i])
      ensures ok <==> AllFreed(old(Contents()), frees)
      ensures ok ==> Contents() == []
    {
      hide Of, All, Replayed, Dropped;
      ghost var l := Contents();
      ok := Replay(frees);
      if ok {
        NoneLeft(Contents());
        ReplayedAndDropped(l);
        NoneDropped(l);
        NothingMissing(All(Contents()) + freed, Dropped(l));
      } else {
        AllWithout(l, used);
        NothingMissing(All(Contents()) + freed, Of(l[used]) + Dropped(l[used + 1..]));
      }
    }

    /** Log a run, flushing first when the log is full.  It is logged if and only if there was room or
        the bitmap takes all that was in the log; then log and bitmap gain exactly the run. */
    method FreeRun(start: nat, len: nat, frees: Run -> bool) returns (ok: bool)
      requires Valid() && Proper(Contents()) && start != 0 && len > 0
      modifies this, recs
      ensures Valid() && Proper(Contents())
      ensures ok <==> |old(Contents())| < recs.Length || AllFreed(old(Contents()), frees)
      ensures ok ==> All(Contents()) + freed == old(All(Contents()) + freed) + Of(Run(start, len))
      ensures !ok ==> All(Contents()) + freed <= old(All(Contents()) + freed)
    {
      hide Of, All, Appended;
      var full := NeedsFlush();
      if full {
        ok := Flush(frees);
        if !ok {
          return;
        }
      }
      AppendedKeeps(Contents(), Run(start, len));
      ok := Append(start, len);
    }

    /** ocfs2_begin_truncate_log_recovery(): the log of a dead node is emptied and handed on. */
    method BeginRecovery() returns (copy: seq<Run>)
      requires Valid()
      modifies this`used
      ensures Valid() && copy == old(Contents()) && Contents() == []
    {
      copy := recs[..used];
      used := 0;
    }

    /** ocfs2_complete_truncate_log_recovery(): the runs of the other log are taken over one by one,
        until a flush on the way fails; how many were taken is returned. */
    method CompleteRecovery(copy: seq<Run>, frees: Run -> bool) returns (ok: bool, taken: nat)
      requires Valid() && Proper(Contents()) && Proper(copy)
      modifies this, recs
      ensures Valid() && Proper(Contents()) && taken <= |copy| && (ok <==> taken == |copy|)
      ensures ok ==> All(Contents()) + freed == old(All(Contents()) + freed) + All(copy)
      ensures !ok ==> All(Contents()) + freed <= old(All(Contents()) + freed) + All(copy[..taken])
      ensures (forall r :: frees(r)) ==> ok
    {
      hide Of;
      taken, ok := 0, true;
      while taken < |copy|
        invariant taken <= |copy| && Valid() && Proper(Contents())
        invariant All(Contents()) + freed == old(All(Contents()) + freed) + All(copy[..taken])
      {
        assert copy[..taken + 1][..taken] == copy[..taken];
        ok := FreeRun(copy[taken].start, copy[taken].len, frees);
        if !ok {
          return;
        }
        taken := taken + 1;
      }
      assert copy[..taken] == copy;
    }
  }

  /** A dead node's log is adopted: when no flush fails, what was in the two logs or given back still
      is, each cluster as often as before. */
  method Adopt(own: Log, dead: Log, frees: Run -> bool) returns (ok: bool)
    requires own != dead && own.recs != dead.recs
    requires own.Valid() && dead.Valid() && Proper(own.Contents()) && Proper(dead.Contents())
    modifies own, own.recs, dead
    ensures own.Valid() && dead.Valid() && Proper(own.Contents()) && dead.Contents() == []
    ensures ok ==> All(own.Contents()) + own.freed == old(All(own.Contents()) + own.freed + All(dead.Contents()))
    ensures (forall r :: frees(r)) ==> ok
  {
    var copy := dead.BeginRecovery();
    var taken;
    ok, taken := own.CompleteRecovery(copy, frees);
  }

  // ----- Over whole runs -----

  /** The logs of all nodes, what a recovery has in memory, and what has been given back. */
  datatype World = World(logs: seq<seq<Run>>, copy: seq<Run>, freed: multiset<nat>)

  /** The transactions on them. */
  datatype Event =
    | Logs(node: nat, run: Run)   // a run is appended
    | Replays(node: nat)          // the last record is given back
    | Begins(node: nat)           // recovery empties a dead node's log
    | Takes(node: nat)            // and appends the next of its runs to this one

  predicate Enabled(w: World, count: nat, e: Event) {
    match e
    case Logs(i, r) => i < |w.logs| && |w.logs[i]| < count && r.start != 0 && r.len > 0
    case Replays(i) => i < |w.logs| && w.logs[i] != []
    case Begins(i) => i < |w.logs| && w.copy == []
    case Takes(i) => i < |w.logs| && w.copy != [] && |w.logs[i]| < count
  }

  function Happen(w: World, count: nat, e: Event): World
    requires Enabled(w, count, e)
  {
    match e
    case Logs(i, r) => w.(logs := w.logs[i := Appended(w.logs[i], r)])
    case Replays(i) =>
      var l := w.logs[i];
      w.(logs := w.logs[i := l[..|l| - 1]], freed := w.freed + Of(l[|l| - 1]))
    case Begins(i) => w.(logs := w.logs[i := []], copy := w.logs[i])
    case Takes(i) => w.(logs := w.logs[i := Appended(w.logs[i], w.copy[0])], copy := w.copy[1..])
  }

  /** The runs that the events append for the first time. */
  function Logged(events: seq<Event>): seq<Run> {
    if events == [] then []
    else Logged(events[..|events| - 1]) + if events[|events| - 1].Logs? then [events[|events| - 1].run] else []
  }

  predicate Behaviour(worlds: seq<World>, events: seq<Event>, count: nat) {
    && |worlds| == |events| + 1
    && (forall i :: 0 <= i < |worlds[0].logs| ==> worlds[0].logs[i] == [])
    && worlds[0].copy == [] && worlds[0].freed == multiset{}
    && forall k :: 0 <= k < |events| ==>
         Enabled(worlds[k], count, events[k]) && worlds[k + 1] == Happen(worlds[k], count, events[k])
  }

  function InLogs(logs: seq<seq<Run>>): multiset<nat> {
    if logs == [] then multiset{} else InLogs(logs[..|logs| - 1]) + All(logs[|logs| - 1])
  }

  /** Changing one log changes what is in all of them by that log's difference. */
  lemma {:induction false} OneLog(logs: seq<seq<Run>>, i: nat, l: seq<Run>)
    requires i < |logs|
    ensures InLogs(logs[i := l]) + All(logs[i]) == InLogs(logs) + All(l)
  {
    hide All;
    var n := |logs| - 1;
    if i < n {
      OneLog(logs[..n], i, l);
      assert logs[i := l][..n] == logs[..n][i := l];
      assert logs[i := l][n] == logs[n] && logs[..n][i] == logs[i];
      Shift(InLogs(logs[..n][i := l]), All(logs[i]), InLogs(logs[..n]), All(l), All(logs[n]));
    } else {
      assert logs[i := l][..n] == logs[..n];
    }
  }

  lemma {:induction false} EmptyLogs(logs: seq<seq<Run>>)
    requires forall i :: 0 <= i < |logs| ==> logs[i] == []
    ensures InLogs(logs) == multiset{}
  {
    if logs != [] {
      EmptyLogs(logs[..|logs| - 1]);
    }
  }

  ghost predicate WorldInv(w: World, count: nat, logged: multiset<nat>) {
    && (forall i :: 0 <= i < |w.logs| ==> |w.logs[i]| <= count && Proper(w.logs[i])) && Proper(w.copy)
    && InLogs(w.logs) + All(w.copy) + w.freed == logged
  }

  lemma EventKeeps(w: World, count: nat, logged: multiset<nat>, e: Event)
    requires WorldInv(w, count, logged) && Enabled(w, count, e)
    ensures WorldInv(Happen(w, count, e), count, logged + if e.Logs? then Of(e.run) else multiset{})
  {
    hide Of, All, InLogs, Appended;
    match e
    case Logs(i, r) => {
      AppendedKeeps(w.logs[i], r);
      OneLog(w.logs, i, Appended(w.logs[i], r));
      Cancel(InLogs(Happen(w, count, e).logs), InLogs(w.logs) + Of(r), All(w.logs[i]));
    }
    case Replays(i) => {
      var l := w.logs[i];
      AllSnoc(l[..|l| - 1], l[|l| - 1]);
      assert l[..|l| - 1] + [l[|l| - 1]] == l;
      OneLog(w.logs, i, l[..|l| - 1]);
      Cancel(InLogs(Happen(w, count, e).logs) + Of(l[|l| - 1]), InLogs(w.logs), All(l[..|l| - 1]));
    }
    case Begins(i) => {
      NoneLeft([]);
      OneLog(w.logs, i, []);
    }
    case Takes(i) => {
      AppendedKeeps(w.logs[i], w.copy[0]);
      OneLog(w.logs, i, Appended(w.logs[i], w.copy[0]));
      AllHead(w.copy);
      Cancel(InLogs(Happen(w, count, e).logs), InLogs(w.logs) + Of(w.copy[0]), All(w.logs[i]));
    }
  }

  lemma Shift(p: multiset<nat>, a: multiset<nat>, q: multiset<nat>, b: multiset<nat>, x: multiset<nat>)
    requires p + a == q + b
    ensures (p + x) + a == (q + x) + b
  {
    forall c: nat
      ensures (p + x + a)[c] == (q + x + b)[c]
    {
      assert (p + a)[c] == (q + b)[c];
    }
  }

  lemma Cancel(a: multiset<nat>, b: multiset<nat>, c: multiset<nat>)
    requires a + c == b + c
    ensures a == b
  {
    forall x: nat
      ensures a[x] == b[x]
    {
      assert (a + c)[x] == (b + c)[x];
    }
  }

  lemma AllHead(l: seq<Run>)
    requires l != []
    ensures All(l) == Of(l[0]) + All(l[1..])
  {
    hide Of;
    assert l == [l[0]] + l[1..];
    AllConcat([l[0]], l[1..]);
    assert [l[0]][..0] == [];
  }

  lemma {:induction false} BehaviourKeeps(worlds: seq<World>, events: seq<Event>, count: nat, k: nat)
    requires Behaviour(worlds, events, count) && k < |worlds|
    ensures WorldInv(worlds[k], count, All(Logged(events[..k])))
  {
    hide WorldInv, Enabled, Happen, All, Of;
    if k == 0 {
      StartInv(worlds[0], count);
      NoneLeft(Logged(events[..0]));
    } else {
      BehaviourKeeps(worlds, events, count, k - 1);
      EventKeeps(worlds[k - 1], count, All(Logged(events[..k - 1])), events[k - 1]);
      assert events[..k][..k - 1] == events[..k - 1] && events[..k][k - 1] == events[k - 1];
      if events[k - 1].Logs? {
        AllSnoc(Logged(events[..k - 1]), events[k - 1].run);
        assert Logged(events[..k]) == Logged(events[..k - 1]) + [events[k - 1].run];
      } else {
        assert Logged(events[..k]) == Logged(events[..k - 1]);
        assert All(Logged(events[..k - 1])) + multiset{} == All(Logged(events[..k - 1]));
      }
    }
  }

  lemma StartInv(w: World, count: nat)
    requires (forall i :: 0 <= i < |w.logs| ==> w.logs[i] == []) && w.copy == [] && w.freed == multiset{}
    ensures WorldInv(w, count, multiset{})
  {
    EmptyLogs(w.logs);
  }

  /** No two of the runs share a cluster. */
  predicate Disjoint(l: seq<Run>) {
    forall i, j :: 0 <= i < j < |l| ==> l[i].start + l[i].len <= l[j].start || l[j].start + l[j].len <= l[i].start
  }

  /** Disjoint runs have each of their clusters once. */
  lemma {:induction false} DisjointOnce(l: seq<Run>, c: nat)
    requires Disjoint(l)
    ensures All(l)[c] == if exists i :: 0 <= i < |l| && l[i].start <= c < l[i].start + l[i].len then 1 else 0
  {
    hide Of;
    if l != [] {
      var t, r := l[..|l| - 1], l[|l| - 1];
      DisjointOnce(t, c);
      OfHas(r, c);
      if exists i :: 0 <= i < |l| && l[i].start <= c < l[i].start + l[i].len {
        var i :| 0 <= i < |l| && l[i].start <= c < l[i].start + l[i].len;
        assert i < |t| ==> t[i] == l[i];
      }
    }
  }

  lemma {:induction false} InOneLog(logs: seq<seq<Run>>, i: nat)
    requires i < |logs|
    ensures All(logs[i]) <= InLogs(logs)
  {
    if i < |logs| - 1 {
      InOneLog(logs[..|logs| - 1], i);
    }
  }

  /** Conservation over every run: at each transaction boundary a cluster of one of the runs that were
      logged so far is in exactly one of the logs, the copy of a recovery and the freed set, in each
      no more than once; no other cluster is in any of them; and no log is over its capacity. */
  lemma InExactlyOne(worlds: seq<World>, events: seq<Event>, count: nat, k: nat, c: nat)
    requires Behaviour(worlds, events, count) && k < |worlds| && Disjoint(Logged(events[..k]))
    ensures var w, l := worlds[k], Logged(events[..k]);
      && InLogs(w.logs)[c] + All(w.copy)[c] + w.freed[c] ==
           (if exists i :: 0 <= i < |l| && l[i].start <= c < l[i].start + l[i].len then 1 else 0)
      && forall i :: 0 <= i < |w.logs| ==> |w.logs[i]| <= count
  {
    hide Happen, Enabled, InLogs, All, Logged;
    BehaviourKeeps(worlds, events, count, k);
    DisjointOnce(Logged(events[..k]), c);
    var w := worlds[k];
    assert (InLogs(w.logs) + All(w.copy) + w.freed)[c] == InLogs(w.logs)[c] + All(w.copy)[c] + w.freed[c];
  }

  /** And it is in one log only. */
  lemma InOneLogOnly(logs: seq<seq<Run>>, i: nat, j: nat, c: nat)
    requires i < j < |logs| && c in All(logs[i]) && c in All(logs[j])
    ensures InLogs(logs)[c] >= 2
    decreases |logs|
  {
    hide All;
    var n := |logs| - 1;
    if j < n {
      InOneLogOnly(logs[..n], i, j, c);
    } else {
      InOneLog(logs[..n], i);
    }
  }
}
