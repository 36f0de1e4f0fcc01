/** The whole system: processes that share only the comment log, decide on snapshots of any age, and append. */
module Protocol {
  import opened Text
  import opened Markers
  import opened Log
  import opened Holders
  import opened HolderLaws
  import opened HolderOrder
  import opened Windows
  import opened Commands

  // ----- the ticket the commands act on -----

  function NewestFirst(log: seq<Comment>): (nodes: seq<Comment>)
    ensures Chronological(nodes) == log
  {
    seq(|log|, i requires 0 <= i < |log| => log[|log| - 1 - i])
  }

  /** `snapshot` is how much of the log a command saw; `now` when it decided; `at` when its comment landed. */
  class Ticket {
    var log: seq<Comment>
    var state: string

    constructor (state: string)
      ensures log == [] && this.state == state
    {
      log, this.state := [], state;
    }

    /** A usable claim keeps every run of the system a run of the system. It is let through exactly when it would hold
        the ticket on what it saw. It then holds the ticket, provided only harmless comments came between; refused on
        a current view, it does not. */
    method Claim(snapshot: nat, now: Time, at: Time, lane: string, run: string, tail: string, target: Option<string>)
      returns (hs: Infos, accepted: bool)
      requires snapshot <= |log|
      modifies this
      ensures HolderList(old(log)[..snapshot], now, hs)
      ensures accepted == ClaimAccepted(hs, lane, run)
      ensures log == if accepted then old(log) + [Comment(ClaimBody(lane, run, tail), at)] else old(log)
      ensures state == if accepted && target.Some? && target.value != "" && StateArg(target.value)
                       then BoardState(target.value) else old(state)
      ensures Usable(ClaimCommand(lane, run, tail)) ==>
        && (Behaviour(old(log)) && InOrder(old(log), at) ==> Behaviour(log))
        && (NoLegacyRuns(old(log)[..snapshot]) ==>
              && (accepted <==> run in Replay(old(log)[..snapshot] + [Comment(ClaimBody(lane, run, tail), now)]))
              && (accepted && now <= at && InertSince(old(log), snapshot, now) ==> run in Replay(log))
              && (!accepted && snapshot == |old(log)| ==> run !in Replay(log)))
    {
      ghost var before := log;
      hs := CurrentHolders(NewestFirst(log[..snapshot]), now);
      accepted := ClaimAccepted(hs, lane, run);
      if accepted {
        log := log + [Comment(ClaimBody(lane, run, tail), at)];
        // The state name is only checked here, after the comment is out.
        if target.Some? && target.value != "" && StateArg(target.value) {
          state := BoardState(target.value);
        }
      }
      hide *;
      if Usable(ClaimCommand(lane, run, tail)) {
        ClaimOutcome(before, snapshot, now, at, hs, lane, run, tail);
      }
    }

    /** Let through exactly when the caller's identity holds the ticket it saw. Landing on that very log, it adds and
        removes nobody and keeps the caller live for a full stale period. */
    method Beat(snapshot: nat, now: Time, at: Time, lane: string, runArg: Run, note: string)
      returns (hs: Infos, accepted: bool)
      requires snapshot <= |log|
      modifies this`log
      ensures HolderList(old(log)[..snapshot], now, hs)
      ensures accepted == BeatTarget(hs, lane, runArg).Some?
      ensures !accepted ==> log == old(log)
      ensures accepted ==>
        && log == old(log) + [Comment(BeatBody(lane, BeatTarget(hs, lane, runArg).value.run, note), at)]
      ensures Usable(BeatCommand(lane, runArg, note)) ==>
        && (Behaviour(old(log)) && InOrder(old(log), at) ==> Behaviour(log))
        && (NoLegacyRuns(old(log)[..snapshot]) ==>
              && (accepted <==> IdKey(lane, runArg) in Replay(old(log)[..snapshot]))
              && (accepted && snapshot == |old(log)| ==>
                    Replay(log).Keys == Replay(old(log)).Keys
                    && forall later :: later - at <= STALE ==> IdKey(lane, runArg) in Live(log, Replay(log), later)))
    {
      ghost var before := log;
      hs := CurrentHolders(NewestFirst(log[..snapshot]), now);
      var target := BeatTarget(hs, lane, runArg);
      accepted := target.Some?;
      if accepted {
        log := log + [Comment(BeatBody(lane, target.value.run, note), at)];
      }
      hide *;
      if Usable(BeatCommand(lane, runArg, note)) {
        BeatOutcome(before, snapshot, now, at, hs, lane, runArg, note);
      }
    }

    /** Removes exactly the caller's run if its view shows that run as a holder, whatever else has landed since, and
        clears the ticket otherwise; the state moves exactly when nobody live is left in place, as judged on a
        current view. */
    method Release(snapshot: nat, now: Time, at: Time, lane: string, runArg: Run, note: string, target: string)
      returns (hs: Infos, accepted: bool)
      requires snapshot <= |log|
      modifies this
      ensures HolderList(old(log)[..snapshot], now, hs)
      ensures accepted == (StateArg(target) && PlanRelease(hs, lane, runArg).Post?)
      ensures !accepted ==> log == old(log) && state == old(state)
      ensures accepted ==>
        && log == old(log) + [Comment(ReleaseBody(lane, PlanRelease(hs, lane, runArg).run, target, note), at)]
        && state == if PlanRelease(hs, lane, runArg).moves then BoardState(target) else old(state)
      ensures Usable(ReleaseCommand(lane, runArg, target, note)) ==>
        && (Behaviour(old(log)) && InOrder(old(log), at) ==> Behaviour(log))
        && (accepted <==> ReleaseAllowed(old(log)[..snapshot], now, runArg))
        && (accepted ==> Replay(log) == Spared(Replay(old(log)), Replay(old(log)[..snapshot]), runArg))
        && (accepted && snapshot == |old(log)| && at == now ==>
              state == if Live(old(log), Replay(log), now) == map[] then BoardState(target) else old(state))
    {
      ghost var before := log;
      hs := CurrentHolders(NewestFirst(log[..snapshot]), now);
      var plan := PlanRelease(hs, lane, runArg);
      accepted := StateArg(target) && plan.Post?;
      if accepted {
        log := log + [Comment(ReleaseBody(lane, plan.run, target, note), at)];
        if plan.moves {
          state := BoardState(target);
        }
      }
      hide *;
      if Usable(ReleaseCommand(lane, runArg, target, note)) {
        ReleaseOutcome(before, snapshot, now, at, hs, lane, runArg, target, note);
      }
    }
  }

  // ----- steps -----

  datatype Command =
    | ClaimCommand(lane: string, run: string, tail: string)
    | BeatCommand(lane: string, runArg: Run, note: string)
    | ReleaseCommand(lane: string, runArg: Run, target: string, note: string)

  /** Arguments the script is meant for. */
  ghost predicate Usable(cmd: Command) {
    match cmd
    case ClaimCommand(lane, run, _) => LaneArg(lane) && RunArg(Some(run)) && !LegacyName(Some(run))
    case BeatCommand(lane, runArg, _) => LaneArg(lane) && RunOption(runArg) && !LegacyName(runArg)
    case ReleaseCommand(lane, runArg, target, _) =>
      LaneArg(lane) && RunOption(runArg) && !LegacyName(runArg) && StateArg(target)
  }

  /** The comment a command posts, given the holders its snapshot shows; `None` when it is refused. */
  function PostedBody(cmd: Command, hs: Infos): Option<string> {
    match cmd
    case ClaimCommand(lane, run, tail) =>
      if ClaimAccepted(hs, lane, run) then Some(ClaimBody(lane, run, tail)) else None
    case BeatCommand(lane, runArg, note) =>
      var t := BeatTarget(hs, lane, runArg);
      if t.Some? then Some(BeatBody(lane, t.value.run, note)) else None
    case ReleaseCommand(lane, runArg, target, note) =>
      var plan := PlanRelease(hs, lane, runArg);
      if plan.Post? then Some(ReleaseBody(lane, plan.run, target, note)) else None
  }

  /** `cmd`, decided at `now` on the first `k` comments, posts `body`. */
  ghost predicate Decided(log: seq<Comment>, body: string, cmd: Command, k: nat, now: Time, hs: Infos) {
    k <= |log| && Usable(cmd) && HolderList(log[..k], now, hs) && PostedBody(cmd, hs) == Some(body)
  }

  ghost predicate ByCommand(log: seq<Comment>, body: string) {
    exists cmd, k, now, hs :: Decided(log, body, cmd, k, now, hs)
  }

  /** Anything else that lands on the ticket: prose, and markers of older copies of the script. */
  ghost predicate Outside(body: string) {
    !Anonymous(body) && (ParseMarker(body).Some? ==> !LegacyName(ParseMarker(body).value.run))
  }

  ghost predicate InOrder(log: seq<Comment>, at: Time) {
    log != [] ==> log[|log| - 1].at <= at
  }

  ghost predicate MayFollow(log: seq<Comment>, c: Comment) {
    InOrder(log, c.at) && (ByCommand(log, c.body) || Outside(c.body))
  }

  /** A run of the system, given by the log it produces; its states are the prefixes. */
  ghost predicate Behaviour(log: seq<Comment>) {
    forall j :: 0 <= j < |log| ==> MayFollow(log[..j], log[j])
  }

  // ----- what the commands achieve -----

  /** What landed after the snapshot changed no holder and refreshed only holders live at `now`. */
  ghost predicate InertSince(log: seq<Comment>, snapshot: nat, now: Time)
    requires snapshot <= |log|
  {
    var seen := log[..snapshot];
    Harmless(Replay(seen), Live(seen, Replay(seen), now), log[snapshot..])
  }

  /** What a release leaves of `hs`, decided on the holders `seen`. */
  ghost function Spared(hs: HolderMap, seen: HolderMap, runArg: Run): HolderMap {
    if Given(runArg) && exists k :: k in seen && seen[k].run == runArg
    then map k | k in hs && hs[k].run != runArg :: hs[k]
    else map[]
  }

  /** A release is let through when nobody is live, when its run is a holder's, or without a run when the earliest
      live holder has none. */
  ghost predicate ReleaseAllowed(seen: seq<Comment>, now: Time, runArg: Run) {
    || Live(seen, Replay(seen), now) == map[]
    || (if Given(runArg) then exists k :: k in Replay(seen) && Replay(seen)[k].run == runArg
        else exists k :: EarliestLive(seen, now, k) && k in Replay(seen) && Replay(seen)[k].run.None?)
  }

  lemma {:induction false} BehaviourAppend(log: seq<Comment>, c: Comment)
    requires Behaviour(log) && MayFollow(log, c)
    ensures Behaviour(log + [c])
  {
    hide MayFollow;
    var log' := log + [c];
    forall j | 0 <= j < |log'| ensures MayFollow(log'[..j], log'[j]) {
      assert log'[..j] == if j < |log| then log[..j] else log;
    }
  }

  lemma PostingIsBehaviour(log: seq<Comment>, body: string, at: Time, cmd: Command, k: nat, now: Time, hs: Infos)
    requires Behaviour(log) && InOrder(log, at) && Decided(log, body, cmd, k, now, hs)
    ensures Behaviour(log + [Comment(body, at)])
  {
    hide Behaviour, Decided, InOrder, Outside;
    BehaviourAppend(log, Comment(body, at));
  }

  lemma ClaimOutcome(log: seq<Comment>, k: nat, now: Time, at: Time, hs: Infos, lane: string, run: string, tail: string)
    requires k <= |log| && HolderList(log[..k], now, hs) && Usable(ClaimCommand(lane, run, tail))
    ensures var log' := log + [Comment(ClaimBody(lane, run, tail), at)];
      && (NoLegacyRuns(log[..k]) ==>
            (ClaimAccepted(hs, lane, run) <==> run in Replay(log[..k] + [Comment(ClaimBody(lane, run, tail), now)])))
      && (ClaimAccepted(hs, lane, run) && Behaviour(log) && InOrder(log, at) ==> Behaviour(log'))
      && (NoLegacyRuns(log[..k]) && now <= at && InertSince(log, k, now) && ClaimAccepted(hs, lane, run) ==>
            run in Replay(log'))
      && (NoLegacyRuns(log[..k]) && k == |log| && !ClaimAccepted(hs, lane, run) ==> run !in Replay(log))
  {
    hide HolderList, ClaimAccepted, ClaimBody, Behaviour, InOrder, Replay, Harmless, NoLegacyRuns, LaneArg, RunArg;
    hide LegacyName, Live;
    var seen := log[..k];
    assert log == seen + log[k..];
    if NoLegacyRuns(seen) {
      ClaimGuardAgrees(seen, now, hs, lane, run, tail);
    }
    if ClaimAccepted(hs, lane, run) {
      if Behaviour(log) && InOrder(log, at) {
        PostingIsBehaviour(log, ClaimBody(lane, run, tail), at, ClaimCommand(lane, run, tail), k, now, hs);
      }
      if NoLegacyRuns(seen) && now <= at && InertSince(log, k, now) {
        AcceptedClaimHolds(seen, log[k..], now, at, hs, lane, run, tail);
      }
    } else if NoLegacyRuns(seen) && k == |log| {
      assert seen == log;
      RefusedHoldsNothing(log, now, hs, lane, run);
    }
  }

  lemma RefusedHoldsNothing(log: seq<Comment>, now: Time, hs: Infos, lane: string, run: string)
    requires HolderList(log, now, hs) && NoLegacyRuns(log) && !LegacyName(Some(run)) && !ClaimAccepted(hs, lane, run)
    ensures run !in Replay(log)
  {
    hide Replay, HolderList, LegacyName, LiveOf, CanJoin;
    ReplayKeyed(log);
    ReplayLegacyFree(log);
    OwnAgrees(log, now, hs, lane, run);
  }

  lemma BeatOutcome(log: seq<Comment>, k: nat, now: Time, at: Time, hs: Infos, lane: string, runArg: Run, note: string)
    requires k <= |log| && HolderList(log[..k], now, hs) && Usable(BeatCommand(lane, runArg, note))
    ensures var t := BeatTarget(hs, lane, runArg);
      && (NoLegacyRuns(log[..k]) ==> (t.Some? <==> IdKey(lane, runArg) in Replay(log[..k])))
      && (t.Some? ==>
            var log' := log + [Comment(BeatBody(lane, t.value.run, note), at)];
            && (Behaviour(log) && InOrder(log, at) ==> Behaviour(log'))
            && (NoLegacyRuns(log[..k]) && k == |log| ==>
                  Replay(log').Keys == Replay(log).Keys
                  && forall later :: later - at <= STALE ==> IdKey(lane, runArg) in Live(log', Replay(log'), later)))
  {
    hide HolderList, BeatTarget, BeatBody, Behaviour, InOrder, Replay, NoLegacyRuns, LaneArg, RunOption;
    hide LegacyName, Fresh, IdKey;
    var seen := log[..k];
    var t := BeatTarget(hs, lane, runArg);
    if NoLegacyRuns(seen) {
      BeatGuard(seen, now, hs, lane, runArg);
    }
    if t.Some? {
      var log' := log + [Comment(BeatBody(lane, t.value.run, note), at)];
      if Behaviour(log) && InOrder(log, at) {
        PostingIsBehaviour(log, BeatBody(lane, t.value.run, note), at, BeatCommand(lane, runArg, note), k, now, hs);
      }
      if NoLegacyRuns(seen) && k == |log| {
        assert seen == log;
        BeatRefreshes(log, now, at, hs, lane, runArg, note, at);
        forall later | later - at <= STALE ensures IdKey(lane, runArg) in Live(log', Replay(log'), later) {
          BeatRefreshes(log, now, at, hs, lane, runArg, note, later);
        }
      }
    }
  }

  /** The snapshot's list and its replay show the same runs. */
  lemma ListedRuns(seen: seq<Comment>, now: Time, hs: Infos, runArg: Run)
    requires HolderList(seen, now, hs)
    ensures (exists x :: x in hs && x.run == runArg) <==> exists k :: k in Replay(seen) && Replay(seen)[k].run == runArg
  {
    hide Replay, LastHit, IdKey;
    if x :| x in hs && x.run == runArg {
      assert InfoKey(x) in Replay(seen);
    }
    if k :| k in Replay(seen) && Replay(seen)[k].run == runArg {
      assert Describe(seen, Replay(seen)[k], now) in hs;
    }
  }

  /** The first live holder of the list, as the replay sees it. */
  lemma FirstLive(seen: seq<Comment>, now: Time, hs: Infos)
    requires HolderList(seen, now, hs) && LiveOf(hs) != []
    ensures var x := LiveOf(hs)[0];
      && EarliestLive(seen, now, InfoKey(x)) && InfoKey(x) in Replay(seen)
      && x.run == Replay(seen)[InfoKey(x)].run && (Given(x.run) <==> x.run.Some?)
  {
    hide Replay, LastHit, IdKey, Stable, EarliestLive, LiveOf, NoSpace;
    FirstOfLive(hs);
    var a :| 0 <= a < |hs| && hs[a] == LiveOf(hs)[0] && IsLive(hs[a]) && NoneLiveBefore(hs, a);
    FirstLiveIsEarliest(seen, now, hs, a);
    ListRunsGiven(seen, now, hs);
    assert hs[a] in hs;
  }

  lemma PlanIsPost(hs: Infos, lane: string, runArg: Run)
    ensures PlanRelease(hs, lane, runArg).Post? <==>
      || LiveOf(hs) == []
      || (if Given(runArg) then exists x :: x in hs && x.run == runArg else !Given(LiveOf(hs)[0].run))
  {
    hide IsLive;
    assert forall x :: x in LiveOf(hs) ==> x in hs;
  }

  /** A release is refused exactly when the replay of its snapshot says so. */
  lemma ReleaseGuard(seen: seq<Comment>, now: Time, hs: Infos, lane: string, runArg: Run)
    requires HolderList(seen, now, hs)
    ensures PlanRelease(hs, lane, runArg).Post? <==> ReleaseAllowed(seen, now, runArg)
  {
    hide Replay, HolderList, Live, EarliestLive, LiveOf, InfoKey, PlanRelease, Describe;
    PlanIsPost(hs, lane, runArg);
    ListedRuns(seen, now, hs, runArg);
    LiveListed(seen, now, hs);
    if LiveOf(hs) != [] {
      FirstLive(seen, now, hs);
      var first := InfoKey(LiveOf(hs)[0]);
      forall k | EarliestLive(seen, now, k) ensures k == first {
        EarliestIsUnique(seen, now, k, first);
      }
    }
  }

  lemma ReleaseOutcome(log: seq<Comment>, k: nat, now: Time, at: Time, hs: Infos, lane: string, runArg: Run,
                       target: string, note: string)
    requires k <= |log| && HolderList(log[..k], now, hs) && Usable(ReleaseCommand(lane, runArg, target, note))
    ensures var plan := PlanRelease(hs, lane, runArg);
      && (plan.Post? <==> ReleaseAllowed(log[..k], now, runArg))
      && (plan.Post? ==>
            var log' := log + [Comment(ReleaseBody(lane, plan.run, target, note), at)];
            && (Behaviour(log) && InOrder(log, at) ==> Behaviour(log'))
            && Replay(log') == Spared(Replay(log), Replay(log[..k]), runArg)
            && (k == |log| && at == now ==> (plan.moves <==> Live(log, Replay(log'), now) == map[])))
  {
    hide HolderList, PlanRelease, ReleaseBody, ReleaseAllowed, Behaviour, InOrder, Replay, LaneArg, RunOption;
    hide StateArg, LegacyName, Live;
    var plan := PlanRelease(hs, lane, runArg);
    ReleaseGuard(log[..k], now, hs, lane, runArg);
    if plan.Post? {
      ListedRuns(log[..k], now, hs, runArg);
      ReleaseScope(log, hs, lane, runArg, target, note, at);
      if Behaviour(log) && InOrder(log, at) {
        var cmd := ReleaseCommand(lane, runArg, target, note);
        PostingIsBehaviour(log, ReleaseBody(lane, plan.run, target, note), at, cmd, k, now, hs);
      }
      if k == |log| && at == now {
        assert log[..k] == log;
        MovesOnlyWhenLast(log, now, hs, lane, runArg, target, note);
      }
    }
  }

  // ----- safety of every reachable state -----

  lemma CommandPostsClean(log: seq<Comment>, body: string, cmd: Command, k: nat, now: Time, hs: Infos)
    requires Decided(log, body, cmd, k, now, hs)
    ensures Outside(body)
  {
    hide ParseMarker, ClaimBody, BeatBody, ReleaseBody, LegacyName, StateArg, Anonymous, IdentityHit, HolderList;
    hide NoSpace;
    match cmd
    case ClaimCommand(lane, run, tail) =>
      ClaimRoundTrip(lane, run, tail);
    case BeatCommand(lane, runArg, note) =>
      ListRunsGiven(log[..k], now, hs);
      BeatIsFind(hs, lane, runArg);
      BeatRoundTrip(lane, runArg, note);
    case ReleaseCommand(lane, runArg, target, note) =>
      ReleaseRoundTrip(lane, PlanRelease(hs, lane, runArg).run, target, note);
      NoRunIsNotLegacy();
  }

  lemma NoRunIsNotLegacy()
    ensures !LegacyName(None)
  {
  }

  lemma PostedIsClean(log: seq<Comment>, c: Comment)
    requires MayFollow(log, c)
    ensures Outside(c.body)
  {
    hide Outside, Decided;
    if ByCommand(log, c.body) {
      var cmd, k, now, hs :| Decided(log, c.body, cmd, k, now, hs);
      CommandPostsClean(log, c.body, cmd, k, now, hs);
    }
  }

  lemma {:induction false} BehaviourIsSorted(log: seq<Comment>, j: nat)
    requires Behaviour(log) && j <= |log|
    ensures Sorted(log[..j])
    decreases j
  {
    hide ByCommand, Outside;
    if j > 0 {
      BehaviourIsSorted(log, j - 1);
      assert MayFollow(log[..j - 1], log[j - 1]);
    }
  }

  lemma BehaviourIsClean(log: seq<Comment>)
    requires Behaviour(log)
    ensures Sorted(log) && Named(log) && NoLegacyRuns(log)
  {
    hide ParseMarker, Anonymous, LegacyName, MayFollow, Sorted;
    BehaviourIsSorted(log, |log|);
    assert log[..|log|] == log;
    forall j | 0 <= j < |log| ensures Outside(log[j].body) {
      PostedIsClean(log[..j], log[j]);
    }
  }

  /** In every state that any interleaving of commands on stale snapshots can reach: one holder, or the two
      reviewer letters; and a window report exists in which no two windows of a lane overlap. */
  lemma ReachableStatesAreSafe(log: seq<Comment>, j: nat, now: Time)
    requires Behaviour(log) && j <= |log|
    ensures OneOrBothReviewers(Replay(log[..j])) && Keyed(Replay(log[..j]))
    ensures !Raises(log[..j]) && Ordered(WindowList(log[..j], now)) && Spans(WindowList(log[..j], now))
  {
    hide MayFollow, Replay, Sorted, Named, NoLegacyRuns, OneOrBothReviewers, Raises, Ordered, Spans, WindowList;
    var init := log[..j];
    forall i | 0 <= i < |init| ensures MayFollow(init[..i], init[i]) {
      assert init[..i] == log[..i];
    }
    BehaviourIsClean(init);
    MutualExclusion(init);
    WindowsOrdered(init, now);
  }

  // ----- a ticket served -----

  /** A command with the number of comments it has seen, when it decides and when its comment lands. */
  datatype Request = Request(cmd: Command, seen: nat, now: Time, at: Time)

  ghost predicate Servable(requests: seq<Request>) {
    && (forall i :: 0 <= i < |requests| ==> Usable(requests[i].cmd))
    && (forall i, j :: 0 <= i <= j < |requests| ==> requests[i].at <= requests[j].at)
  }

  method ServeOne(ticket: Ticket, r: Request)
    modifies ticket
    ensures Usable(r.cmd) && Behaviour(old(ticket.log)) && InOrder(old(ticket.log), r.at) ==> Behaviour(ticket.log)
    ensures ticket.log == old(ticket.log) || (|ticket.log| > 0 && ticket.log[|ticket.log| - 1].at == r.at)
  {
    hide *;
    var snapshot := if r.seen <= |ticket.log| then r.seen else |ticket.log|;
    match r.cmd
    case ClaimCommand(lane, run, tail) =>
      var hs, ok := ticket.Claim(snapshot, r.now, r.at, lane, run, tail, None);
    case BeatCommand(lane, runArg, note) =>
      var hs, ok := ticket.Beat(snapshot, r.now, r.at, lane, runArg, note);
    case ReleaseCommand(lane, runArg, target, note) =>
      var hs, ok := ticket.Release(snapshot, r.now, r.at, lane, runArg, note, target);
  }

  /** Whatever usable commands are served, on views of any age: the log stays a run of the system, so the ticket
      has one holder or the two reviewer letters, and its window report exists and is ordered. */
  method Serve(ticket: Ticket, requests: seq<Request>, now: Time)
    requires Servable(requests) && Behaviour(ticket.log)
    requires requests != [] ==> InOrder(ticket.log, requests[0].at)
    modifies ticket
    ensures Behaviour(ticket.log) && OneOrBothReviewers(Replay(ticket.log))
    ensures !Raises(ticket.log) && Ordered(WindowList(ticket.log, now)) && Spans(WindowList(ticket.log, now))
  {
    hide Behaviour, Usable, Replay, OneOrBothReviewers, Raises, Ordered, Spans, WindowList;
    var i := 0;
    while i < |requests|
      invariant 0 <= i <= |requests|
      invariant Behaviour(ticket.log)
      invariant i < |requests| ==> InOrder(ticket.log, requests[i].at)
    {
      ServeOne(ticket, requests[i]);
      i := i + 1;
    }
    assert ticket.log[..|ticket.log|] == ticket.log;
    ReachableStatesAreSafe(ticket.log, |ticket.log|, now);
  }

  // ----- a holder among considerate others -----

  /** A command step that cannot take the ticket away from `run`: releases name a different run
      that their own (possibly stale) snapshot shows as a holder. */
  ghost predicate Considerate(log: seq<Comment>, c: Comment, run: string) {
    exists cmd, k, now, hs :: Decided(log, c.body, cmd, k, now, hs) && SparesRun(cmd, hs, run)
  }

  ghost predicate SparesRun(cmd: Command, hs: Infos, run: string) {
    cmd.ReleaseCommand? ==>
      && Given(cmd.runArg) && cmd.runArg != Some(run)
      && exists x: HolderInfo :: x in hs && x.run == cmd.runArg
  }

  lemma ConsiderateDoesNotDissolve(log: seq<Comment>, c: Comment, run: string)
    requires Considerate(log, c, run)
    ensures !Dissolves(c, run)
  {
    hide ParseMarker, ClaimBody, BeatBody, ReleaseBody, LegacyName, StateArg, Anonymous, IdentityHit, HolderList;
    hide NoSpace;
    var cmd, k, now, hs :| Decided(log, c.body, cmd, k, now, hs) && SparesRun(cmd, hs, run);
    match cmd
    case ClaimCommand(lane, r, tail) =>
      ClaimRoundTrip(lane, r, tail);
    case BeatCommand(lane, runArg, note) =>
      ListRunsGiven(log[..k], now, hs);
      BeatIsFind(hs, lane, runArg);
      BeatRoundTrip(lane, runArg, note);
    case ReleaseCommand(lane, runArg, target, note) =>
      ReleaseRoundTrip(lane, PlanRelease(hs, lane, runArg).run, target, note);
  }

  /** While the others use the commands considerately, a holder that posts in time keeps the ticket, however
      stale the others' snapshots are. */
  lemma HolderKeepsTicket(log: seq<Comment>, k: nat, run: string)
    requires k <= |log| && HoldsRun(Replay(log[..k]), run) && !LegacyName(Some(run)) && run != ""
    requires forall j :: k <= j < |log| ==> Considerate(log[..j], log[j], run) || MarkerOf(log[j]).None?
    requires forall j :: k <= j < |log| && ForeignClaim(log[j], run) ==> RunFresh(log[..j], run, log[j].at)
    ensures HoldsRun(Replay(log), run)
  {
    hide ParseMarker, Replay, Considerate, LegacyName, RunFresh, ForeignClaim;
    var pre, ext := log[..k], log[k..];
    assert log == pre + ext;
    forall j | 0 <= j < |ext|
      ensures !Dissolves(ext[j], run)
      ensures ForeignClaim(ext[j], run) ==> RunFresh(pre + ext[..j], run, ext[j].at)
    {
      assert ext[j] == log[k + j] && pre + ext[..j] == log[..k + j];
      if Considerate(log[..k + j], log[k + j], run) {
        ConsiderateDoesNotDissolve(log[..k + j], log[k + j], run);
      }
    }
    HeartbeatKeepsClaim(pre, ext, run);
  }
}
