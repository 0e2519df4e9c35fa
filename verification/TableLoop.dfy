/** The background loop of the node table, its refresh and revalidation jobs, and the calls
    that add nodes meanwhile, as one interleaved system.

  Every action is one uninterrupted piece of the program: a case of the loop's select, a
  stage of its shutdown, a locked section of a job, or one locked call from outside. */
module TableLoop {
  import opened Distance
  import opened Nodes
  import opened M = TableModel
  import E = TableEffects
  import P = TableProperties

  datatype Phase = Selecting | AwaitRefresh | AwaitRevalidate | Closed

  /** A revalidation job: started, between its two locked sections with the entry it picked,
      or about to report that it is done. */
  datatype Job = Started | Picked(last: Node, bi: nat) | Reporting

  /** A caller waiting for a refresh. `late` tells that the refresh it was attached to had
      already finished when the loop accepted it. */
  datatype Waiter = Waiter(id: nat, joinedAt: nat, late: bool)

  /** A waiter whose channel was closed, the refresh that caused it and when that finished. */
  datatype Release = Release(waiter: Waiter, job: nat, finishedAt: nat, releasedAt: nat)

  datatype State = State(
    phase: Phase,
    clock: nat,                // number of actions so far
    waiting: seq<Waiter>,
    released: seq<Release>,
    accepted: nat,             // waiters accepted so far; number 0 is `initDone`
    nextJob: nat,
    refresh: Option<nat>,      // `refreshDone`: the refresh job the loop listens to
    refreshing: set<nat>,      // refresh jobs that have not finished
    finished: map<nat, nat>,   // refresh jobs that have, and when
    timerArmed: bool,
    revalidate: Option<nat>,   // `revalidateDone`: the revalidation the loop listens to
    jobs: map<nat, Job>,       // revalidation jobs whose report was not received
    table: Table)

  datatype Action =
    | RefreshTick
    | RefreshRequest
    | RefreshSeen
    | RevalidateTimer
    | RevalidateSeen
    | CloseRequest
    | DrainRefresh
    | DrainRevalidate
    | RefreshFinish(job: nat)
    | Pick(job: nat, bi: nat)
    | PickNothing(job: nat)
    | Finish(job: nat, reply: Option<nat>, fetched: Option<Node>, choice: nat)
    | AddSeenCall(n: Node, now: int)
    | AddVerifiedCall(n: Node, now: int)

  /** The initial refresh is under way and `initDone` waits for it. */
  function Start(self: Id, limits: Limits): State {
    State(Selecting, 1, [Waiter(0, 0, false)], [], 1, 1, Some(0), {0}, map[], true, None, map[], EmptyTable(self, limits))
  }

  predicate RefreshOver(s: State) {
    s.refresh.Some? && s.refresh.value in s.finished
  }

  /** No revalidation is between its two locked sections. */
  predicate NonePicked(s: State) {
    forall j :: j in s.jobs ==> !s.jobs[j].Picked?
  }

  predicate Enabled(s: State, a: Action) {
    match a
    case RefreshTick => s.phase.Selecting?
    case RefreshRequest => s.phase.Selecting?
    case RefreshSeen => s.phase.Selecting? && RefreshOver(s)
    case RevalidateTimer => s.phase.Selecting? && s.timerArmed
    case RevalidateSeen =>
      s.phase.Selecting? && s.revalidate.Some? && s.revalidate.value in s.jobs && s.jobs[s.revalidate.value].Reporting?
    case CloseRequest => s.phase.Selecting?
    case DrainRefresh => s.phase.AwaitRefresh? && (s.refresh.None? || RefreshOver(s))
    case DrainRevalidate => s.phase.AwaitRevalidate? &&
      (s.revalidate.None? || (s.revalidate.value in s.jobs && s.jobs[s.revalidate.value].Reporting?))
    case RefreshFinish(job) => job in s.refreshing
    case Pick(job, bi) => job in s.jobs && s.jobs[job].Started? && bi < |s.table.buckets| && s.table.buckets[bi].entries != []
    case PickNothing(job) => job in s.jobs && s.jobs[job].Started? && P.AllEntries(s.table.buckets) == []
    case Finish(job, reply, fetched, choice) =>
      && job in s.jobs && s.jobs[job].Picked? && s.jobs[job].bi < |s.table.buckets|
      && (s.table.buckets[s.jobs[job].bi].replacements != [] ==> choice < |s.table.buckets[s.jobs[job].bi].replacements|)
    case AddSeenCall(n, now) => |s.table.buckets| == N_BUCKETS
    case AddVerifiedCall(n, now) => |s.table.buckets| == N_BUCKETS && NonePicked(s)
  }

  /** Starts a refresh unless the loop is already listening to one. */
  function WithRefresh(s: State): State {
    if s.refresh.Some? then s
    else s.(refresh := Some(s.nextJob), refreshing := s.refreshing + {s.nextJob}, nextJob := s.nextJob + 1)
  }

  /** Closes the channels of all waiting callers. */
  function ReleaseAll(s: State): State {
    if s.refresh.None? || s.refresh.value !in s.finished then s.(waiting := [])
    else
      var j := s.refresh.value;
      s.(released := s.released + seq(|s.waiting|, i requires 0 <= i < |s.waiting| =>
                       Release(s.waiting[i], j, s.finished[j], s.clock)),
         waiting := [])
  }

  function Effect(s: State, a: Action): State
    requires Enabled(s, a)
  {
    match a
    case RefreshTick => WithRefresh(s)
    case RefreshRequest =>
      WithRefresh(s.(waiting := s.waiting + [Waiter(s.accepted, s.clock, RefreshOver(s))], accepted := s.accepted + 1))
    case RefreshSeen => ReleaseAll(s).(refresh := None)
    case RevalidateTimer =>
      s.(timerArmed := false, revalidate := Some(s.nextJob), jobs := s.jobs[s.nextJob := Started], nextJob := s.nextJob + 1)
    case RevalidateSeen => s.(timerArmed := true, jobs := s.jobs - {s.revalidate.value}, revalidate := None)
    case CloseRequest => s.(phase := AwaitRefresh)
    case DrainRefresh => ReleaseAll(s).(phase := AwaitRevalidate)
    case DrainRevalidate =>
      s.(phase := Closed, jobs := if s.revalidate.Some? then s.jobs - {s.revalidate.value} else s.jobs)
    case RefreshFinish(job) => s.(refreshing := s.refreshing - {job}, finished := s.finished[job := s.clock])
    case Pick(job, bi) =>
      var e := s.table.buckets[bi].entries;
      s.(jobs := s.jobs[job := Picked(e[|e| - 1], bi)])
    case PickNothing(job) => s.(jobs := s.jobs[job := Reporting])
    case Finish(job, reply, fetched, choice) =>
      var p := s.jobs[job];
      s.(jobs := s.jobs[job := Reporting],
         table := Revalidated(s.table, p.bi, p.last, OutcomeOf(p.last, reply, fetched), choice))
    case AddSeenCall(n, now) => s.(table := TableAddSeen(s.table, n, now))
    case AddVerifiedCall(n, now) => s.(table := TableAddVerified(s.table, n, now, s.released != []))
  }

  function Apply(s: State, a: Action): State
    requires Enabled(s, a)
  {
    Effect(s, a).(clock := s.clock + 1)
  }

  ghost predicate Reaches(s: State, actions: seq<Action>, r: State)
    decreases actions
  {
    if actions == [] then r == s
    else Enabled(s, actions[0]) && Reaches(Apply(s, actions[0]), actions[1..], r)
  }

  // ---------- the invariant ----------

  /** At most one job of each kind, and the loop listens to it until it is over. */
  ghost predicate JobsOk(s: State) {
    && (forall j :: j in s.refreshing ==> s.refresh == Some(j) && j !in s.finished)
    && (s.refresh.Some? ==> s.refresh.value < s.nextJob && (s.refresh.value in s.refreshing || s.refresh.value in s.finished))
    && (forall j :: j in s.finished ==> j < s.nextJob)
    && (forall j :: j in s.jobs ==> s.revalidate == Some(j))
    && (s.phase != Closed && s.revalidate.Some? ==> s.revalidate.value in s.jobs)
    && (s.timerArmed <==> s.revalidate.None?)
    && (s.phase.AwaitRevalidate? || s.phase.Closed? ==> s.refreshing == {})
    && (s.phase.Closed? ==> s.jobs == map[])
  }

  function WaiterIds(s: State): seq<nat> {
    seq(|s.released|, i requires 0 <= i < |s.released| => s.released[i].waiter.id)
    + seq(|s.waiting|, i requires 0 <= i < |s.waiting| => s.waiting[i].id)
  }

  /** Accepted waiters are released in the order they came, each one once; nobody waits
      without a refresh to wait for. */
  ghost predicate WaitersOk(s: State) {
    && |s.released| + |s.waiting| == s.accepted && 0 < s.accepted
    && (forall i :: 0 <= i < |s.released| ==> s.released[i].waiter.id == i && ReleaseOk(s.released[i], s.clock))
    && (forall i :: 0 <= i < |s.waiting| ==> s.waiting[i].id == |s.released| + i && WaiterOk(s, s.waiting[i]))
    && (s.waiting != [] ==> s.refresh.Some?)
    && (s.phase.AwaitRevalidate? || s.phase.Closed? ==> s.waiting == [])
    && (forall j :: j in s.finished ==> s.finished[j] < s.clock)
  }

  /** A released waiter: after it joined and after the refresh finished; and that refresh
      finished after it joined exactly when it did not join late. */
  ghost predicate ReleaseOk(r: Release, clock: nat) {
    && r.waiter.joinedAt < r.releasedAt < clock
    && r.finishedAt < r.releasedAt
    && (r.waiter.joinedAt < r.finishedAt <==> !r.waiter.late)
    && (r.waiter.id == 0 ==> !r.waiter.late)
  }

  ghost predicate WaiterOk(s: State, w: Waiter) {
    && w.joinedAt < s.clock
    && (w.id == 0 ==> !w.late)
    && s.refresh.Some?
    && (w.late ==> s.refresh.value in s.finished && s.finished[s.refresh.value] < w.joinedAt)
    && (!w.late && s.refresh.value in s.finished ==> w.joinedAt < s.finished[s.refresh.value])
  }

  /** An entry picked for revalidation is still in the bucket it was picked from. */
  ghost predicate PicksOk(s: State) {
    forall j :: j in s.jobs && s.jobs[j].Picked? ==>
      s.jobs[j].bi < |s.table.buckets| && s.jobs[j].last in s.table.buckets[s.jobs[j].bi].entries
  }

  ghost predicate Inv(s: State) {
    JobsOk(s) && WaitersOk(s) && PicksOk(s) && TableInv(s.table)
  }

  lemma StartInv(self: Id, limits: Limits)
    ensures Inv(Start(self, limits))
  {
    EmptyTableInv(self, limits);
  }

  lemma JobsStep(s: State, a: Action)
    requires Enabled(s, a) && JobsOk(s)
    ensures JobsOk(Apply(s, a))
  {
    hide Revalidated, TableAddSeen, TableAddVerified;
  }

  /** Closing the channels of all waiting callers, once the refresh they wait for is over. */
  lemma ReleaseStep(s: State)
    requires JobsOk(s) && WaitersOk(s) && (s.refresh.None? || RefreshOver(s))
    ensures var r := ReleaseAll(s).(clock := s.clock + 1);
      && |r.released| == s.accepted && r.waiting == [] && r.accepted == s.accepted && r.finished == s.finished
      && forall i :: 0 <= i < |r.released| ==> r.released[i].waiter.id == i && ReleaseOk(r.released[i], r.clock)
  {
    var r := ReleaseAll(s).(clock := s.clock + 1);
    if s.refresh.Some? {
      assert |r.released| == |s.released| + |s.waiting|;
    }
    forall i | 0 <= i < |r.released|
      ensures r.released[i].waiter.id == i && ReleaseOk(r.released[i], r.clock)
    {
      if i < |s.released| {
        assert r.released[i] == s.released[i] && ReleaseOk(s.released[i], s.clock);
      } else {
        assert WaiterOk(s, s.waiting[i - |s.released|]);
      }
    }
  }

  lemma WaitersStep(s: State, a: Action)
    requires Enabled(s, a) && JobsOk(s) && WaitersOk(s)
    ensures WaitersOk(Apply(s, a))
  {
    hide Revalidated, TableAddSeen, TableAddVerified;
    if a.RefreshSeen? || a.DrainRefresh? {
      ReleaseStep(s);
      hide ReleaseAll, ReleaseOk;
    } else {
      WaitingStep(s, a);
    }
  }

  lemma WaitingStep(s: State, a: Action)
    requires Enabled(s, a) && JobsOk(s) && WaitersOk(s) && !a.RefreshSeen? && !a.DrainRefresh?
    ensures WaitersOk(Apply(s, a))
  {
    hide Revalidated, TableAddSeen, TableAddVerified;
    var r := Apply(s, a);
    forall i | 0 <= i < |r.waiting|
      ensures r.waiting[i].id == |r.released| + i && WaiterOk(r, r.waiting[i])
    {
      assert i < |s.waiting| ==> WaiterOk(s, s.waiting[i]);
    }
    assert r.released == s.released;
    forall i | 0 <= i < |r.released|
      ensures r.released[i].waiter.id == i && ReleaseOk(r.released[i], r.clock)
    {
      assert ReleaseOk(s.released[i], s.clock);
    }
    hide ReleaseOk, WaiterOk;
  }

  lemma PickedSurvives(t: Table, k: nat, last: Node, n: Node, now: int)
    requires |t.buckets| == N_BUCKETS && k < N_BUCKETS && last in t.buckets[k].entries
    ensures last in TableAddSeen(t, n, now).buckets[k].entries
  {
    hide BucketIndex;
    if n.id != t.self {
      var j := BucketIndex(t.self, n.id);
      P.AddSeenEffect(CellAt(t, j), t.limits, n, now);
    }
  }

  lemma PicksStep(s: State, a: Action)
    requires Enabled(s, a) && Inv(s)
    ensures PicksOk(Apply(s, a))
  {
    hide BucketIndex, TableInv, WaitersOk, TableAddVerified, TableAddSeen, Revalidated;
    var r := Apply(s, a);
    forall j | j in r.jobs && r.jobs[j].Picked?
      ensures r.jobs[j].bi < |r.table.buckets| && r.jobs[j].last in r.table.buckets[r.jobs[j].bi].entries
    {
      match a {
        case AddSeenCall(n, now) =>
          SameBuckets(s.table, n, now);
          PickedSurvives(s.table, s.jobs[j].bi, s.jobs[j].last, n, now);
        case _ =>
      }
    }
  }

  lemma SameBuckets(t: Table, n: Node, now: int)
    requires |t.buckets| == N_BUCKETS
    ensures |TableAddSeen(t, n, now).buckets| == N_BUCKETS
  {
  }

  lemma TableStep(s: State, a: Action)
    requires Enabled(s, a) && Inv(s)
    ensures TableInv(Apply(s, a).table)
  {
    hide TableInv, WaitersOk, TableAddVerified, TableAddSeen, Revalidated;
    match a {
      case AddSeenCall(n, now) => AddSeenKeepsInv(s.table, n, now);
      case AddVerifiedCall(n, now) => AddVerifiedKeepsInv(s.table, n, now, s.released != []);
      case Finish(job, reply, fetched, choice) =>
        BucketCount(s.table);
        RevalidatedKeepsInv(s.table, s.jobs[job].bi, s.jobs[job].last, OutcomeOf(s.jobs[job].last, reply, fetched), choice);
      case _ =>
    }
  }

  lemma BucketCount(t: Table)
    requires TableInv(t)
    ensures |t.buckets| == N_BUCKETS
  {
  }

  lemma InvStep(s: State, a: Action)
    requires Enabled(s, a) && Inv(s)
    ensures Inv(Apply(s, a))
  {
    hide TableInv, WaitersOk, JobsOk, PicksOk, Apply;
    JobsStep(s, a);
    WaitersStep(s, a);
    PicksStep(s, a);
    TableStep(s, a);
  }

  lemma {:induction false} InvOfRun(s: State, actions: seq<Action>, r: State)
    requires Inv(s) && Reaches(s, actions, r)
    ensures Inv(r)
    decreases actions
  {
    hide Inv;
    if actions != [] {
      InvStep(s, actions[0]);
      InvOfRun(Apply(s, actions[0]), actions[1..], r);
    }
  }

  // ---------- what holds in every run ----------

  /** In every reachable state the table is in order, whatever the loop, its jobs and the
      callers did in between. */
  lemma TableAlwaysInOrder(self: Id, limits: Limits, actions: seq<Action>, s: State)
    requires Reaches(Start(self, limits), actions, s)
    ensures TableInv(s.table)
  {
    StartInv(self, limits);
    InvOfRun(Start(self, limits), actions, s);
  }

  /** In every run of the table with its loop and jobs: what the calls and jobs do to the
      table is what is said above, and a job picks the last entry of its bucket. */
  lemma StepsOfTheTable(self: Id, limits: Limits, actions: seq<Action>, s: State, a: Action)
    requires Reaches(Start(self, limits), actions, s) && Enabled(s, a)
    ensures TableInv(s.table) && TableInv(Apply(s, a).table)
    ensures match a
      case AddSeenCall(n, now) => E.SeenPost(s.table, n, now, Apply(s, a).table)
      case AddVerifiedCall(n, now) => s.released != [] ==> E.VerifiedPost(s.table, n, now, Apply(s, a).table)
      case Finish(job, reply, fetched, choice) =>
        E.RevalidatedPost(s.table, s.jobs[job].bi, s.jobs[job].last, reply, fetched, choice, Apply(s, a).table)
      case Pick(job, bi) =>
        var e := s.table.buckets[bi].entries;
        Apply(s, a).jobs == s.jobs[job := Picked(e[|e| - 1], bi)] && Apply(s, a).table == s.table
      case _ => Apply(s, a).table == s.table
  {
    hide TableInv, E.SeenPost, E.VerifiedPost, E.RevalidatedPost, Revalidated, TableAddSeen, TableAddVerified;
    TableAlwaysInOrder(self, limits, actions, s);
    BucketCount(s.table);
    StartInv(self, limits);
    InvOfRun(Start(self, limits), actions, s);
    TableStep(s, a);
    match a {
      case AddSeenCall(n, now) => E.SeenNodeEffect(s.table, n, now);
      case AddVerifiedCall(n, now) => E.VerifiedNodeEffect(s.table, n, now);
      case Finish(job, reply, fetched, choice) =>
        E.RevalidationEffect(s.table, s.jobs[job].bi, s.jobs[job].last, reply, fetched, choice);
      case _ =>
    }
    hide Inv;
    BucketCount(Apply(s, a).table);
  }

  /** At most one refresh and one revalidation are in flight, callers wait only while there
      is a refresh to wait for, and the table reports itself closed only when no job is left. */
  lemma OneJobOfEachKind(self: Id, limits: Limits, actions: seq<Action>, s: State)
    requires Reaches(Start(self, limits), actions, s)
    ensures |s.refreshing| <= 1 && |s.jobs| <= 1
    ensures s.waiting != [] ==> s.refresh.Some?
    ensures s.timerArmed <==> s.revalidate.None?
    ensures s.phase.Closed? ==> s.refreshing == {} && s.jobs == map[] && s.waiting == []
  {
    hide TableInv;
    StartInv(self, limits);
    InvOfRun(Start(self, limits), actions, s);
    AtMostOne(s.refreshing, s.refresh);
    AtMostOne(s.jobs.Keys, s.revalidate);
  }

  /** A step of the revalidation `j` on its own. */
  predicate OfJob(a: Action, j: nat) {
    (a.Pick? || a.PickNothing? || a.Finish?) && a.job == j
  }

  /** A revalidation job can go on: it picks an entry, finds none, or finishes. */
  lemma JobCanStep(s: State, j: nat)
    requires Inv(s) && j in s.jobs && !s.jobs[j].Reporting?
    ensures exists a: Action :: OfJob(a, j) && Enabled(s, a)
  {
    hide TableInv, WaitersOk;
    if s.jobs[j].Picked? {
      assert OfJob(Finish(j, None, None, 0), j) && Enabled(s, Finish(j, None, None, 0));
    } else if P.AllEntries(s.table.buckets) == [] {
      assert OfJob(PickNothing(j), j) && Enabled(s, PickNothing(j));
    } else {
      var k := NonEmptyBucket(s.table.buckets);
      assert OfJob(Pick(j, k), j) && Enabled(s, Pick(j, k));
    }
  }

  lemma {:induction false} NonEmptyBucket(bs: seq<Bucket>) returns (k: nat)
    requires P.AllEntries(bs) != []
    ensures k < |bs| && bs[k].entries != []
  {
    if bs[0].entries != [] {
      k := 0;
    } else {
      k := NonEmptyBucket(bs[1..]);
      k := k + 1;
    }
  }

  /** Nothing gets stuck: while somebody waits, the refresh can finish or its end can be
      taken note of; after a close request the refresh, the revalidation or the loop itself
      can step until the table reports itself closed. */
  lemma NothingStuck(self: Id, limits: Limits, actions: seq<Action>, s: State)
    requires Reaches(Start(self, limits), actions, s)
    ensures s.waiting != [] ==>
      && s.refresh.Some?
      && (Enabled(s, RefreshFinish(s.refresh.value)) || Enabled(s, RefreshSeen) || Enabled(s, DrainRefresh))
    ensures s.phase.AwaitRefresh? && !Enabled(s, DrainRefresh) ==>
      s.refresh.Some? && Enabled(s, RefreshFinish(s.refresh.value))
    ensures s.phase.AwaitRevalidate? && !Enabled(s, DrainRevalidate) ==>
      s.revalidate.Some? && exists a: Action :: OfJob(a, s.revalidate.value) && Enabled(s, a)
  {
    hide TableInv;
    StartInv(self, limits);
    InvOfRun(Start(self, limits), actions, s);
    if s.phase.AwaitRevalidate? && !Enabled(s, DrainRevalidate) {
      JobCanStep(s, s.revalidate.value);
    }
  }

  /** Refresh `j` is under way and the loop listens to it, or it has finished; at `since` it
      had not finished, if `pending`. */
  ghost predicate Follows(s: State, j: nat, since: nat, pending: bool) {
    && (s.refresh == Some(j) || j in s.finished)
    && (j in s.refreshing || j in s.finished)
    && (pending && j in s.finished ==> since <= s.finished[j])
    && since <= s.clock
  }

  lemma FollowsStep(s: State, a: Action, j: nat, since: nat, pending: bool)
    requires Enabled(s, a) && JobsOk(s) && Follows(s, j, since, pending)
    ensures Follows(Apply(s, a), j, since, pending)
  {
    hide Revalidated, TableAddSeen, TableAddVerified, TableInv;
  }

  lemma {:induction false} FollowsOfRun(s: State, actions: seq<Action>, r: State, j: nat, since: nat, pending: bool)
    requires Inv(s) && Follows(s, j, since, pending) && Reaches(s, actions, r)
    ensures Follows(r, j, since, pending)
    decreases actions
  {
    hide TableInv, WaitersOk, PicksOk, JobsOk, Follows, Apply, Enabled;
    if actions != [] {
      InvStep(s, actions[0]);
      FollowsStep(s, actions[0], j, since, pending);
      FollowsOfRun(Apply(s, actions[0]), actions[1..], r, j, since, pending);
    }
  }

  /** After every tick and every accepted request there is one refresh that follows it: the
      loop listens to it until it has finished, in every continuation, and it finishes after
      the tick or request unless the loop had only not yet seen that it was over. */
  lemma RefreshFollows(self: Id, limits: Limits, before: seq<Action>, s: State, a: Action, after: seq<Action>, r: State)
    requires Reaches(Start(self, limits), before, s)
    requires Enabled(s, a) && (a.RefreshTick? || a.RefreshRequest?)
    requires Reaches(Apply(s, a), after, r)
    ensures exists j ::
      && Apply(s, a).refresh == Some(j)
      && (j in r.finished || (r.refresh == Some(j) && j in r.refreshing))
      && (!RefreshOver(s) && j in r.finished ==> s.clock < r.finished[j])
  {
    hide TableInv, Reaches;
    StartInv(self, limits);
    InvOfRun(Start(self, limits), before, s);
    InvStep(s, a);
    var t := Apply(s, a);
    var j := t.refresh.value;
    FollowsOfRun(t, after, r, j, t.clock, !RefreshOver(s));
  }

  /** The last step of the revalidation `j`. */
  predicate Ends(a: Action, j: nat) {
    (a.PickNothing? || a.Finish?) && a.job == j
  }

  /** The loop takes note of the end of its revalidation. */
  predicate TakesNote(a: Action) {
    a.RevalidateSeen? || a.DrainRevalidate?
  }

  /** A revalidation stays until the loop takes note of its end; it is over exactly after its
      last step. */
  lemma JobStep(s: State, a: Action, j: nat)
    requires JobsOk(s) && Enabled(s, a) && j in s.jobs && j < s.nextJob
    ensures var r := Apply(s, a);
      && j < r.nextJob
      && (j in r.jobs <==> !TakesNote(a))
      && (j in r.jobs ==> (r.jobs[j].Reporting? <==> s.jobs[j].Reporting? || Ends(a, j)))
  {
    hide Revalidated, TableAddSeen, TableAddVerified, TableInv;
  }

  lemma GoneStep(s: State, a: Action, j: nat)
    requires Enabled(s, a) && j !in s.jobs && j < s.nextJob
    ensures j !in Apply(s, a).jobs && j < Apply(s, a).nextJob
  {
    hide Revalidated, TableAddSeen, TableAddVerified, TableInv;
  }

  lemma {:induction false} GoneFrom(s: State, actions: seq<Action>, r: State, j: nat)
    requires j !in s.jobs && j < s.nextJob && Reaches(s, actions, r)
    ensures j !in r.jobs
    decreases actions
  {
    hide Apply, Enabled;
    if actions != [] {
      GoneStep(s, actions[0], j);
      GoneFrom(Apply(s, actions[0]), actions[1..], r, j);
    }
  }

  lemma {:induction false} JobFrom(s: State, actions: seq<Action>, r: State, j: nat)
    requires Inv(s) && j in s.jobs && j < s.nextJob && Reaches(s, actions, r)
    ensures j in r.jobs <==> forall a :: a in actions ==> !TakesNote(a)
    ensures j in r.jobs ==> (r.jobs[j].Reporting? <==> s.jobs[j].Reporting? || exists a :: a in actions && Ends(a, j))
    decreases actions
  {
    hide TableInv, WaitersOk, PicksOk, JobsOk, Apply, Enabled, TakesNote, Ends;
    if actions != [] {
      var t := Apply(s, actions[0]);
      assert forall a :: a in actions <==> a == actions[0] || a in actions[1..];
      InvStep(s, actions[0]);
      JobStep(s, actions[0], j);
      if j in t.jobs {
        JobFrom(t, actions[1..], r, j);
      } else {
        GoneFrom(t, actions[1..], r, j);
      }
    }
  }

  /** Each firing of the revalidation timer starts a job of its own. In every continuation it
      is there until the loop takes note of its end, the timer resting meanwhile; it has ended
      exactly after its last step, and until then it can go on. */
  lemma RevalidationFollows(self: Id, limits: Limits, before: seq<Action>, s: State, after: seq<Action>, r: State)
    requires Reaches(Start(self, limits), before, s)
    requires Enabled(s, RevalidateTimer) && Reaches(Apply(s, RevalidateTimer), after, r)
    ensures exists j ::
      && j !in s.jobs && Apply(s, RevalidateTimer).jobs == map[j := Started]
      && (j in r.jobs <==> forall a :: a in after ==> !TakesNote(a))
      && (j in r.jobs ==>
            && !r.timerArmed
            && (r.jobs[j].Reporting? <==> exists a :: a in after && Ends(a, j))
            && (!r.jobs[j].Reporting? ==> exists a: Action :: OfJob(a, j) && Enabled(r, a)))
  {
    hide TableInv, WaitersOk, PicksOk, Reaches, TakesNote, Ends, OfJob;
    StartInv(self, limits);
    InvOfRun(Start(self, limits), before, s);
    InvStep(s, RevalidateTimer);
    var t, j := Apply(s, RevalidateTimer), s.nextJob;
    InvOfRun(t, after, r);
    assert j !in s.jobs && t.jobs == map[j := Started];
    JobFrom(t, after, r, j);
    if j in r.jobs && !r.jobs[j].Reporting? {
      JobCanStep(r, j);
    }
  }

  lemma ClosingStep(s: State, a: Action)
    requires Enabled(s, a) && !s.phase.Selecting?
    ensures var r := Apply(s, a);
      && r.nextJob == s.nextJob && r.accepted == s.accepted
      && r.phase == match a
           case DrainRefresh => AwaitRevalidate
           case DrainRevalidate => Closed
           case _ => s.phase
  {
    hide Revalidated, TableAddSeen, TableAddVerified, TableInv;
  }

  /** Once closing, the loop starts no job and accepts nobody; it waits for the refresh, then
      for the revalidation, and is closed exactly after that. */
  lemma {:induction false} ClosingFrom(s: State, actions: seq<Action>, r: State)
    requires !s.phase.Selecting? && Reaches(s, actions, r)
    ensures r.nextJob == s.nextJob && r.accepted == s.accepted && !r.phase.Selecting?
    ensures r.phase.AwaitRefresh? <==> s.phase.AwaitRefresh? && DrainRefresh !in actions
    ensures r.phase.Closed? <==> s.phase.Closed? || DrainRevalidate in actions
    decreases actions
  {
    if actions != [] {
      assert forall a :: a in actions <==> a == actions[0] || a in actions[1..];
      ClosingStep(s, actions[0]);
      EnabledPhase(s, actions[0]);
      hide Apply, Enabled;
      ClosingFrom(Apply(s, actions[0]), actions[1..], r);
    }
  }

  lemma EnabledPhase(s: State, a: Action)
    requires Enabled(s, a)
    ensures a.DrainRefresh? ==> s.phase.AwaitRefresh?
    ensures a.DrainRevalidate? ==> s.phase.AwaitRevalidate?
    ensures s.phase.Closed? ==> !a.DrainRefresh? && !a.DrainRevalidate?
  {
  }

  /** After a request to close: no new job and no new waiter in any continuation; the loop has
      waited for the refresh and the revalidation exactly as its steps say. */
  lemma CloseFollows(s: State, after: seq<Action>, r: State)
    requires Enabled(s, CloseRequest) && Reaches(Apply(s, CloseRequest), after, r)
    ensures r.nextJob == s.nextJob && r.accepted == s.accepted && !r.phase.Selecting?
    ensures r.phase.AwaitRefresh? <==> DrainRefresh !in after
    ensures r.phase.Closed? <==> DrainRevalidate in after
  {
    hide Reaches;
    ClosingFrom(Apply(s, CloseRequest), after, r);
  }

  lemma AtMostOne(x: set<nat>, o: Option<nat>)
    requires forall j :: j in x ==> o == Some(j)
    ensures |x| <= 1
  {
    if o.Some? && o.value in x {
      assert x == {o.value};
    } else {
      assert x == {};
    }
  }

  /** Every accepted waiter is released exactly once or still waiting, in the order they
      came. A release follows a finished refresh; that refresh finished after the waiter
      joined if and only if it had not already finished when the waiter was accepted.
      `initDone`, waiter 0, is always released by a refresh that finished after the start. */
  lemma WaitersReleasedOnce(self: Id, limits: Limits, actions: seq<Action>, s: State)
    requires Reaches(Start(self, limits), actions, s)
    ensures WaiterIds(s) == seq(s.accepted, i => i)
    ensures forall r :: r in s.released ==>
      && r.finishedAt < r.releasedAt && r.waiter.joinedAt < r.releasedAt
      && (r.waiter.joinedAt < r.finishedAt <==> !r.waiter.late)
      && (r.waiter.id == 0 ==> !r.waiter.late)
  {
    hide TableInv;
    StartInv(self, limits);
    InvOfRun(Start(self, limits), actions, s);
    forall r | r in s.released
      ensures ReleaseOk(r, s.clock)
    {
      var i :| 0 <= i < |s.released| && s.released[i] == r;
    }
  }

  // ---------- the records of a run are true ----------

  /** When the requests of a run came, read from its actions. */
  function JoinTimes(actions: seq<Action>, clock: nat): seq<nat>
    decreases actions
  {
    if actions == [] then []
    else (if actions[0].RefreshRequest? then [clock] else []) + JoinTimes(actions[1..], clock + 1)
  }

  /** When the refresh jobs of a run finished, read from its actions. */
  function FinishTimes(actions: seq<Action>, clock: nat, before: map<nat, nat>): map<nat, nat>
    decreases actions
  {
    if actions == [] then before
    else FinishTimes(actions[1..], clock + 1,
                     if actions[0].RefreshFinish? then before[actions[0].job := clock] else before)
  }

  /** Whether the run has the end of a refresh the loop has not taken note of since. */
  function UnseenEnd(actions: seq<Action>, before: bool): bool
    decreases actions
  {
    if actions == [] then before
    else UnseenEnd(actions[1..], actions[0].RefreshFinish? || (before && !actions[0].RefreshSeen?))
  }

  /** When the accepted waiters joined, in order of acceptance. */
  function Joined(s: State): seq<nat> {
    seq(|s.released|, i requires 0 <= i < |s.released| => s.released[i].waiter.joinedAt)
    + seq(|s.waiting|, i requires 0 <= i < |s.waiting| => s.waiting[i].joinedAt)
  }

  lemma JoinedStep(s: State, a: Action)
    requires Enabled(s, a) && JobsOk(s) && WaitersOk(s)
    ensures Joined(Apply(s, a)) == Joined(s) + if a.RefreshRequest? then [s.clock] else []
    ensures Apply(s, a).clock == s.clock + 1
    ensures Apply(s, a).finished == if a.RefreshFinish? then s.finished[a.job := s.clock] else s.finished
    ensures RefreshOver(Apply(s, a)) <==> a.RefreshFinish? || (RefreshOver(s) && !a.RefreshSeen?)
  {
    hide Revalidated, TableAddSeen, TableAddVerified, ReleaseOk, WaiterOk;
    if a.DrainRefresh? && s.refresh.None? {
      assert s.waiting == [];
    }
  }

  lemma {:induction false} RecordsFrom(s: State, actions: seq<Action>, r: State)
    requires Inv(s) && Reaches(s, actions, r)
    ensures r.clock == s.clock + |actions|
    ensures Joined(r) == Joined(s) + JoinTimes(actions, s.clock)
    ensures r.finished == FinishTimes(actions, s.clock, s.finished)
    ensures RefreshOver(r) == UnseenEnd(actions, RefreshOver(s))
    decreases actions
  {
    hide TableInv, WaitersOk, JobsOk, PicksOk, Joined, RefreshOver, Apply, Enabled;
    if actions == [] {
      assert Joined(s) + [] == Joined(s);
    } else {
      var a := actions[0];
      JoinedStep(s, a);
      InvStep(s, a);
      RecordsFrom(Apply(s, a), actions[1..], r);
      var x := if a.RefreshRequest? then [s.clock] else [];
      assert Joined(s) + x + JoinTimes(actions[1..], s.clock + 1) == Joined(s) + (x + JoinTimes(actions[1..], s.clock + 1));
    }
  }

  /** In every run: the accepted waiters are `initDone` and the callers of the run's requests,
      each with the time of its request; a refresh counts as finished exactly if the run has
      its end, at that time; and the loop has a finished refresh to take note of exactly if a
      refresh ended since it last did. */
  lemma RecordsAreTrue(self: Id, limits: Limits, actions: seq<Action>, s: State)
    requires Reaches(Start(self, limits), actions, s)
    ensures Joined(s) == [0] + JoinTimes(actions, 1)
    ensures s.accepted == 1 + |JoinTimes(actions, 1)|
    ensures s.finished == FinishTimes(actions, 1, map[])
    ensures RefreshOver(s) == UnseenEnd(actions, false)
    ensures s.clock == 1 + |actions|
  {
    hide TableInv, Reaches;
    StartInv(self, limits);
    RecordsFrom(Start(self, limits), actions, s);
    InvOfRun(Start(self, limits), actions, s);
    assert Joined(Start(self, limits)) == [0];
  }

  /** The late waiter exists: a request accepted after the refresh finished but before the
      loop saw it is released by that refresh, without any later one. */
  lemma LateWaiter(self: Id, limits: Limits)
    ensures exists actions, s ::
      && Reaches(Start(self, limits), actions, s)
      && |s.released| == 2 && s.released[1].finishedAt < s.released[1].waiter.joinedAt
      && s.nextJob == 1
  {
    var s0 := Start(self, limits);
    var s1 := Apply(s0, RefreshFinish(0));
    var s2 := Apply(s1, RefreshRequest);
    var s3 := Apply(s2, RefreshSeen);
    assert Reaches(s3, [], s3);
    assert [RefreshSeen][1..] == [];
    assert Reaches(s2, [RefreshSeen], s3);
    assert [RefreshRequest, RefreshSeen][1..] == [RefreshSeen];
    assert Reaches(s1, [RefreshRequest, RefreshSeen], s3);
    assert [RefreshFinish(0), RefreshRequest, RefreshSeen][1..] == [RefreshRequest, RefreshSeen];
    assert Reaches(s0, [RefreshFinish(0), RefreshRequest, RefreshSeen], s3);
  }

  /** `AddVerifiedCall` must not come between the two halves of a revalidation: if the only
      entry of a bucket changes its address from `was` to another subnet while it is being
      revalidated and then does not answer, the counters no longer agree with the lists. */
  lemma OverlapBreaksAccounting(c: Cell, k: nat, self: Id, rest: multiset<Subnet>, lim: Limits, last: Node, ip: IP)
    requires CellOk(c, k, self, rest, lim)
    requires c.b.entries == [last] && c.b.replacements == []
    requires last.ip.Addr? && !last.ip.lan && ip.Addr? && !ip.lan && ip.subnet != last.ip.subnet
    requires AddIP(RemoveIP(c, last.ip), lim, ip).Some?
    ensures var moved := AddVerified(c, lim, last.(ip := ip), 0);
      CellOk(moved, k, self, rest, lim) && !CellOk(Replace(moved, last, 0), k, self, rest, lim)
  {
    hide BucketIndex;
    var n := last.(ip := ip);
    var moved := AddVerified(c, lim, n, 0);
    assert Belongs(c.b.entries[0], k, self);
    assert IndexOf(c.b.entries, n.id) == 0;
    AddVerifiedOk(c, k, self, rest, lim, n, 0);
    assert moved.b.entries == [n];
    P.ReplaceExactIff(moved, k, self, rest, lim, last, 0);
    var end := Replace(moved, last, 0);
    ChargesConcat(end.b.entries, end.b.replacements);
    assert ip.subnet in ChargeOf(ip);
  }
}
