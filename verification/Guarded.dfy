/** What the guards of the commands add to the safety of the replays: a command that decides on the current log
    keeps holders and windows together, unless it acts for a run under another lane or takes over from one. */
module Guarded {
  import opened Text
  import opened Markers
  import opened Log
  import opened Holders
  import opened HolderLaws
  import opened Agreement
  import opened Commands
  import opened Protocol

  /** Without the guards, the runs of the system are just the logs in time order with readable markers: that every
      reachable state is safe owes nothing to what the commands refuse. */
  lemma BehaviourExactly(log: seq<Comment>)
    ensures Behaviour(log) <==> Sorted(log) && Named(log) && NoLegacyRuns(log)
  {
    hide ParseMarker, Anonymous, LegacyName, ByCommand, Named, NoLegacyRuns;
    if Behaviour(log) {
      BehaviourIsClean(log);
    }
    if Sorted(log) && Named(log) && NoLegacyRuns(log) {
      forall j | 0 <= j < |log| ensures MayFollow(log[..j], log[j]) {
        CleanFollows(log, j);
      }
    }
  }

  lemma CleanFollows(log: seq<Comment>, j: nat)
    requires Sorted(log) && Named(log) && NoLegacyRuns(log) && j < |log|
    ensures MayFollow(log[..j], log[j])
  {
    hide ParseMarker, Anonymous, LegacyName, ByCommand;
    assert j > 0 ==> log[j - 1].at <= log[j].at;
  }

  /** `run` holds under a lane other than `lane`, and no live run holds `lane`. */
  ghost predicate OffLane(hs: HolderMap, live: HolderMap, lane: string, run: string) {
    run in hs && hs[run].lane != lane && forall k :: k in live && live[k].lane == lane ==> live[k].run.None?
  }

  /** The only ways for an accepted command to part the replays: to speak for a run under a lane it does not hold,
      or to take the ticket over from another lane. */
  ghost predicate Strays(hs: HolderMap, live: HolderMap, cmd: Command) {
    match cmd
    case ClaimCommand(lane, run, _) =>
      || OffLane(hs, live, lane, run)
      || (run !in hs && LEGACY + lane !in hs && live == map[] && exists k :: k in hs && hs[k].lane != lane)
    case BeatCommand(lane, runArg, _) => runArg.Some? && OffLane(hs, live, lane, runArg.value)
    case ReleaseCommand(lane, runArg, _, _) => Given(runArg) && runArg.value in hs && hs[runArg.value].lane != lane
  }

  /** An accepted claim is never a losing one. */
  lemma ClaimDoesNotLose(log: seq<Comment>, now: Time, hs: Infos, lane: string, run: string, tail: string)
    requires HolderList(log, now, hs) && NoLegacyRuns(log) && ClaimAccepted(hs, lane, run)
    requires LaneArg(lane) && RunArg(Some(run)) && !LegacyName(Some(run))
    ensures var m := Replay(log);
      ClaimKeeps(m, Live(log, m, now), lane, Some(run))
      <==> !Strays(m, Live(log, m, now), ClaimCommand(lane, run, tail))
  {
    hide HolderList, NoLegacyRuns, ClaimAccepted, LaneArg, RunArg, LegacyName, Replay, CanCoholdJoin, Live, ClaimBody;
    ClaimGuardAgrees(log, now, hs, lane, run, tail);
    ClaimAppended(log, lane, run, tail, now);
  }

  lemma BeatKeeps(log: seq<Comment>, now: Time, hs: Infos, lane: string, runArg: Run, note: string)
    requires HolderList(log, now, hs) && NoLegacyRuns(log) && BeatTarget(hs, lane, runArg).Some? && !LegacyName(runArg)
    ensures var m := Replay(log);
      ClaimKeeps(m, Live(log, m, now), lane, runArg) <==> !Strays(m, Live(log, m, now), BeatCommand(lane, runArg, note))
  {
    hide HolderList, NoLegacyRuns, BeatTarget, LegacyName, Replay, CanCoholdJoin, Live;
    BeatGuard(log, now, hs, lane, runArg);
    ReplayKeyed(log);
    ReplayLegacyFree(log);
    HolderOfRun(Replay(log), lane, runArg);
  }

  lemma ReleaseKeeps(log: seq<Comment>, now: Time, hs: Infos, lane: string, runArg: Run, target: string, note: string)
    requires HolderList(log, now, hs) && NoLegacyRuns(log) && !LegacyName(runArg)
    requires LaneArg(lane) && RunOption(runArg) && StateArg(target) && PlanRelease(hs, lane, runArg).Post?
    ensures var m, run := Replay(log), PlanRelease(hs, lane, runArg).run;
      (run.Some? && run.value in m ==> m[run.value].lane == lane)
      <==> !Strays(m, Live(log, m, now), ReleaseCommand(lane, runArg, target, note))
  {
    hide HolderList, NoLegacyRuns, PlanRelease, LegacyName, Replay, Live, LaneArg, RunOption, StateArg, ReleaseBody;
    ReleaseScope(log, hs, lane, runArg, target, note, now);
    ListedRuns(log, now, hs, runArg);
    if runArg.Some? && runArg.value in Replay(log) {
      ReplayKeyed(log);
      ReplayLegacyFree(log);
      HolderOfRun(Replay(log), lane, runArg);
    }
  }

  lemma PlannedRun(hs: Infos, lane: string, runArg: Run)
    requires RunOption(runArg) && PlanRelease(hs, lane, runArg).Post?
    ensures RunArg(PlanRelease(hs, lane, runArg).run)
  {
  }

  /** A command decided on the current log keeps the replays together if and only if it does not stray: it is never
      a claim that loses. */
  lemma GuardedStep(log: seq<Comment>, body: string, cmd: Command, now: Time, hs: Infos)
    requires Decided(log, body, cmd, |log|, now, hs) && NoLegacyRuns(log) && Together(log)
    ensures NoLegacyRuns(log + [Comment(body, now)])
    ensures Together(log + [Comment(body, now)]) <==> !Strays(Replay(log), Live(log, Replay(log), now), cmd)
  {
    hide ParseMarker, HolderList, Together, Replay, Live, Strays, ClaimKeeps, LegacyName, Anonymous, IdentityHit;
    hide LaneArg, NoSpace, StateArg, ClaimBody, BeatBody, ReleaseBody, PlanRelease, BeatTarget, ClaimAccepted;
    var c := Comment(body, now);
    assert log[..|log|] == log;
    CommandPostsClean(log, body, cmd, |log|, now, hs);
    StepTogether(log, c);
    match cmd
    case ClaimCommand(lane, run, tail) =>
      ClaimRoundTrip(lane, run, tail);
      ClaimDoesNotLose(log, now, hs, lane, run, tail);
    case BeatCommand(lane, runArg, note) =>
      BeatGuard(log, now, hs, lane, runArg);
      BeatRoundTrip(lane, runArg, note);
      BeatKeeps(log, now, hs, lane, runArg, note);
    case ReleaseCommand(lane, runArg, target, note) =>
      PlannedRun(hs, lane, runArg);
      ReleaseRoundTrip(lane, PlanRelease(hs, lane, runArg).run, target, note);
      ReleaseKeeps(log, now, hs, lane, runArg, target, note);
  }

  /** Prose, or a command decided on the current log that does not stray. */
  ghost predicate InTurn(log: seq<Comment>, c: Comment) {
    || MarkerOf(c).None?
    || exists cmd, hs :: Decided(log, c.body, cmd, |log|, c.at, hs)
                         && !Strays(Replay(log), Live(log, Replay(log), c.at), cmd)
  }

  /** As long as commands take turns, holders and open windows are the same claims, across lanes. */
  lemma {:induction false} TurnsAgree(log: seq<Comment>)
    requires forall j :: 0 <= j < |log| ==> InTurn(log[..j], log[j])
    ensures NoLegacyRuns(log) && Together(log)
    decreases |log|
  {
    if log == [] {
      NothingAgrees();
    } else {
      hide ParseMarker, Together, Replay, Decided, Strays, LegacyName;
      var n := |log| - 1;
      var init, c := log[..n], log[n];
      assert log == init + [c];
      forall j | 0 <= j < n ensures InTurn(init[..j], init[j]) {
        assert init[..j] == log[..j];
      }
      TurnsAgree(init);
      if MarkerOf(c).None? {
        StepTogether(init, c);
      } else {
        var cmd, hs :| Decided(init, c.body, cmd, n, c.at, hs)
                       && !Strays(Replay(init), Live(init, Replay(init), c.at), cmd);
        assert c == Comment(c.body, c.at);
        GuardedStep(init, c.body, cmd, c.at, hs);
      }
    }
  }
}
