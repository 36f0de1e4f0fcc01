/** The guarded commands of `main()`: claim, beat and release. Each reads a snapshot of the log, decides on
    the holder list computed from it, and then posts one comment. */
module Commands {
  import opened Text
  import opened Markers
  import opened Log
  import opened Holders
  import opened HolderLaws

  type Infos = seq<HolderInfo>

  /** The listed holders that are live, in list order. */
  function LiveOf(hs: Infos): (live: Infos)
    ensures forall x :: x in live <==> x in hs && IsLive(x)
  {
    if hs == [] then [] else (if IsLive(hs[0]) then [hs[0]] else []) + LiveOf(hs[1..])
  }

  /** Its first entry is the first live one of the list. */
  lemma {:induction false} FirstOfLive(hs: Infos)
    requires LiveOf(hs) != []
    ensures exists a :: 0 <= a < |hs| && hs[a] == LiveOf(hs)[0] && IsLive(hs[a]) && NoneLiveBefore(hs, a)
  {
    hide IsLive;
    if IsLive(hs[0]) {
      assert NoneLiveBefore(hs, 0);
    } else {
      FirstOfLive(hs[1..]);
      var t := hs[1..];
      var a :| 0 <= a < |t| && t[a] == LiveOf(t)[0] && IsLive(t[a]) && NoneLiveBefore(t, a);
      assert hs[a + 1] == t[a];
      assert forall i :: 0 < i < a + 1 ==> hs[i] == t[i - 1];
      assert NoneLiveBefore(hs, a + 1);
    }
  }

  ghost predicate NoneLiveBefore(hs: Infos, a: int)
    requires a <= |hs|
  {
    forall i :: 0 <= i < a ==> !IsLive(hs[i])
  }

  predicate CanJoin(lane: string, live: Infos) {
    && CoholdLane(lane)
    && (live == [] || ((forall x :: x in live ==> CoholdLane(x.lane) && x.lane != lane) && |live| < 2))
  }

  /** Whether the argument counts as given: an empty text does not. */
  predicate Given(runArg: Run) {
    runArg.Some? && runArg.value != ""
  }

  /** The first holder whose run is `run`; with no run, the first run-less holder of `lane`. */
  function FindHolder(hs: Infos, lane: string, runArg: Run): (r: Option<HolderInfo>)
    ensures r.Some? ==> r.value in hs && r.value.run == runArg && (runArg.None? ==> r.value.lane == lane)
    ensures r.None? ==> forall x :: x in hs ==> x.run != runArg || (runArg.None? && x.lane != lane)
  {
    if hs == [] then None
    else if hs[0].run == runArg && (runArg.None? ==> hs[0].lane == lane) then Some(hs[0])
    else FindHolder(hs[1..], lane, runArg)
  }

  // ----- the three guards -----

  /** Not refused: nobody live, an own claim (or a run-less one of this lane to upgrade), or a co-hold to join. */
  predicate ClaimAccepted(hs: Infos, lane: string, run: string) {
    var live := LiveOf(hs);
    var own := exists x :: x in hs && (x.run == Some(run) || (x.run.None? && x.lane == lane));
    live == [] || own || CanJoin(lane, live)
  }

  /** First live holder, else first holder. */
  function Primary(hs: Infos): Option<HolderInfo> {
    if LiveOf(hs) != [] then Some(LiveOf(hs)[0]) else if hs != [] then Some(hs[0]) else None
  }

  /** The holder a heartbeat speaks for; `None` when it is refused. */
  function BeatTarget(hs: Infos, lane: string, runArg: Run): Option<HolderInfo> {
    var found, h := FindHolder(hs, lane, runArg), Primary(hs);
    var target :=
      if found.None? && runArg.None? && h.Some? && h.value.run.None? && h.value.lane == lane then h else found;
    if target.None? then None
    else if Given(target.value.run) then
      if Given(runArg) && target.value.run == runArg then target else None
    else if target.value.lane == lane then target
    else None
  }

  datatype ReleasePlan = Refused | Post(run: Run, moves: bool)

  function PlanRelease(hs: Infos, lane: string, runArg: Run): ReleasePlan {
    var live := LiveOf(hs);
    var target := FindHolder(hs, lane, runArg);
    if live != [] && Given(runArg) && (forall x :: x in live ==> x.run != runArg)
       && !(target.Some? && target.value.run == runArg) then Refused
    else if live != [] && !Given(runArg) && Given(live[0].run) then Refused
    else
      var run := if target.Some? && Given(target.value.run) && target.value.run == runArg then runArg else None;
      Post(run, run.None? || forall x :: x in live ==> x.run == run)
  }

  /** What `--run` lets through: any text without white space, the empty one included. */
  predicate RunOption(runArg: Run) {
    runArg.Some? ==> NoSpace(runArg.value)
  }

  // ----- the list and the replay say the same -----

  lemma {:induction false} LiveDistinct(hs: Infos)
    requires Distinct(hs)
    ensures Distinct(LiveOf(hs))
  {
    hide InfoKey;
    if hs != [] {
      assert hs == [hs[0]] + hs[1..];
      LiveDistinct(hs[1..]);
      var t := LiveOf(hs[1..]);
      forall j | 0 <= j < |t| ensures InfoKey(hs[0]) != InfoKey(t[j]) {
        assert t[j] in hs[1..];
      }
    }
  }

  lemma LiveListed(log: seq<Comment>, now: Time, hs: Infos)
    requires HolderList(log, now, hs)
    ensures forall x :: x in LiveOf(hs) ==>
      var live := Live(log, Replay(log), now);
      InfoKey(x) in live && x.lane == live[InfoKey(x)].lane && x.run == live[InfoKey(x)].run
    ensures forall k :: k in Live(log, Replay(log), now) ==>
      var h := Replay(log)[k]; Describe(log, h, now) in LiveOf(hs)
    ensures LiveOf(hs) == [] <==> Live(log, Replay(log), now) == map[]
  {
    hide LastHit, Replay, IdKey;
    var live := Live(log, Replay(log), now);
    if k :| k in live {
      assert Describe(log, Replay(log)[k], now) in LiveOf(hs);
    }
    if LiveOf(hs) != [] {
      assert LiveOf(hs)[0] in LiveOf(hs);
    }
  }

  lemma AloneMeansSmall(live: HolderMap)
    requires forall a, b :: a in live && b in live ==> a == b
    ensures |live| < 2
  {
    if live != map[] {
      var a :| a in live.Keys;
      assert live.Keys == {a};
      assert |live| == |live.Keys|;
    }
  }

  lemma JoinFromList(lane: string, list: Infos, live: HolderMap)
    requires Exclusive(live) && CanJoin(lane, list)
    requires forall k :: k in live ==> exists x :: x in list && x.lane == live[k].lane
    ensures CanCoholdJoin(lane, live)
  {
    AloneMeansSmall(live);
  }

  lemma JoinFromMap(lane: string, list: Infos, live: HolderMap)
    requires Distinct(list) && CanCoholdJoin(lane, live)
    requires forall x :: x in list ==> InfoKey(x) in live && x.lane == live[InfoKey(x)].lane
    ensures CanJoin(lane, list)
  {
    hide CoholdLane, InfoKey;
    if |list| >= 2 {
      assert list[0] in list && list[1] in list;
      Singleton(live, InfoKey(list[0]), InfoKey(list[1]));
    }
  }

  lemma JoinAgrees(log: seq<Comment>, now: Time, hs: Infos, lane: string)
    requires HolderList(log, now, hs) && Exclusive(Replay(log))
    ensures CanJoin(lane, LiveOf(hs)) <==> CanCoholdJoin(lane, Live(log, Replay(log), now))
  {
    hide Replay, LastHit, Fresh, IsLive, CanJoin, CanCoholdJoin, CoholdLane, IdKey;
    var list, live := LiveOf(hs), Live(log, Replay(log), now);
    LiveListed(log, now, hs);
    LiveDistinct(hs);
    if CanJoin(lane, list) {
      forall k | k in live ensures exists x :: x in list && x.lane == live[k].lane {
        assert Describe(log, Replay(log)[k], now) in list;
      }
      JoinFromList(lane, list, live);
    }
    if CanCoholdJoin(lane, live) {
      JoinFromMap(lane, list, live);
    }
  }

  // ----- claim: the guard and the replay agree -----

  /** Which holders a run-scoped claim would continue or upgrade. */
  lemma OwnAgrees(log: seq<Comment>, now: Time, hs: Infos, lane: string, run: string)
    requires HolderList(log, now, hs)
    requires Keyed(Replay(log)) && RunsNotLegacy(Replay(log)) && !LegacyName(Some(run))
    ensures (exists x :: x in hs && (x.run == Some(run) || (x.run.None? && x.lane == lane)))
       <==> run in Replay(log) || LEGACY + lane in Replay(log)
  {
    hide Replay, LastHit;
    var m := Replay(log);
    if x :| x in hs && (x.run == Some(run) || (x.run.None? && x.lane == lane)) {
      assert InfoKey(x) in m;
    }
    if run in m {
      var x := Describe(log, m[run], now);
      assert x in hs;
      assert LEGACY <= LEGACY + m[run].lane;
      assert x.run == Some(run);
    }
    if LEGACY + lane in m {
      LegacyKey(m, lane);
      assert Describe(log, m[LEGACY + lane], now) in hs;
    }
  }

  /** The `claim` command is let through on a snapshot exactly when its marker, replayed at that instant,
      makes the caller a holder. */
  lemma ClaimGuardAgrees(log: seq<Comment>, now: Time, hs: Infos, lane: string, run: string, tail: string)
    requires HolderList(log, now, hs) && NoLegacyRuns(log)
    requires LaneArg(lane) && RunArg(Some(run)) && !LegacyName(Some(run))
    ensures ClaimAccepted(hs, lane, run) <==> run in Replay(log + [Comment(ClaimBody(lane, run, tail), now)])
  {
    hide ParseMarker, ClaimBody, Replay, CanJoin, CanCoholdJoin, Exclusive, OneOrBothReviewers, LegacyName, Fresh;
    hide HolderList;
    var c := Comment(ClaimBody(lane, run, tail), now);
    ClaimRoundTrip(lane, run, tail);
    StepClaim(log, c, Holder(lane, Some(run), now));
    MutualExclusion(log);
    ReplayLegacyFree(log);
    LiveListed(log, now, hs);
    JoinAgrees(log, now, hs, lane);
    OwnAgrees(log, now, hs, lane, run);
  }

  /** Comments that change no holder and refresh only holders that are live already: prose, and heartbeats. */
  ghost predicate Harmless(hs: HolderMap, live: HolderMap, gap: seq<Comment>) {
    forall i :: 0 <= i < |gap| ==>
      && (MarkerOf(gap[i]).Some? ==> exists k :: k in hs && ClaimsKey(gap[i], k))
      && forall k :: k in hs && k !in live ==> !IdentityHit(gap[i].body, hs[k].lane, hs[k].run)
  }

  lemma HarmlessStep(log: seq<Comment>, hs: HolderMap, c: Comment)
    requires SameClaims(hs, Replay(log)) && (MarkerOf(c).Some? ==> exists k :: k in hs && ClaimsKey(c, k))
    ensures SameClaims(hs, Replay(log + [c]))
  {
    hide ParseMarker, CanCoholdJoin, Replay;
    ReplayAppend(log, c);
  }

  /** After harmless comments the same claims hold, and those that were not live have not been heard. */
  lemma {:induction false} HarmlessGap(log: seq<Comment>, live: HolderMap, gap: seq<Comment>)
    requires Harmless(Replay(log), live, gap)
    ensures SameClaims(Replay(log), Replay(log + gap))
    ensures forall k :: k in Replay(log) && k !in live ==>
      LastHit(log + gap, Replay(log)[k].lane, Replay(log)[k].run)
      == LastHit(log, Replay(log)[k].lane, Replay(log)[k].run)
    decreases |gap|
  {
    hide ClaimsKey, MarkerOf, IdentityHit, LastHit, Replay;
    if gap == [] {
      assert log + gap == log;
    } else {
      var n := |gap| - 1;
      HarmlessGap(log, live, gap[..n]);
      SplitLast(log, gap);
      HarmlessStep(log + gap[..n], Replay(log), gap[n]);
      forall k | k in Replay(log) && k !in live
        ensures LastHit(log + gap, Replay(log)[k].lane, Replay(log)[k].run)
             == LastHit(log, Replay(log)[k].lane, Replay(log)[k].run)
      {
        LastHitAppend(log + gap[..n], gap[n], Replay(log)[k].lane, Replay(log)[k].run);
      }
    }
  }

  /** `fewer` holds some of the claims of `live`, up to their dates. */
  ghost predicate Fewer(fewer: HolderMap, live: HolderMap) {
    forall k :: k in fewer ==> k in live && fewer[k].lane == live[k].lane
  }

  /** Co-holding stays possible while live holders expire. */
  lemma ExpiryKeepsJoin(lane: string, live: HolderMap, fewer: HolderMap)
    requires CanCoholdJoin(lane, live) && Fewer(fewer, live)
    ensures CanCoholdJoin(lane, fewer)
  {
    assert fewer.Keys <= live.Keys;
    FewerKeys(fewer, live);
  }

  lemma ClaimStillWins(hs: HolderMap, live: HolderMap, hs': HolderMap, fewer: HolderMap, lane: string, run: string,
                       now: Time, at: Time)
    requires SameClaims(hs, hs') && Fewer(fewer, live)
    requires run in OnClaim(hs, live, lane, Some(run), now)
    ensures run in OnClaim(hs', fewer, lane, Some(run), at)
  {
    hide CoholdLane;
    if fewer != map[] && CanCoholdJoin(lane, live) {
      ExpiryKeepsJoin(lane, live, fewer);
    }
  }

  lemma ExpiryShrinks(log: seq<Comment>, gap: seq<Comment>, now: Time, at: Time)
    requires Harmless(Replay(log), Live(log, Replay(log), now), gap) && now <= at
    ensures SameClaims(Replay(log), Replay(log + gap))
    ensures Fewer(Live(log + gap, Replay(log + gap), at), Live(log, Replay(log), now))
  {
    hide Replay, LastHit, Harmless;
    HarmlessGap(log, Live(log, Replay(log), now), gap);
  }

  /** An accepted claim that lands later, with only harmless comments in between, still makes the caller a holder. */
  lemma AcceptedClaimHolds(log: seq<Comment>, gap: seq<Comment>, now: Time, at: Time, hs: Infos,
                           lane: string, run: string, tail: string)
    requires HolderList(log, now, hs) && NoLegacyRuns(log)
    requires LaneArg(lane) && RunArg(Some(run)) && !LegacyName(Some(run))
    requires ClaimAccepted(hs, lane, run) && now <= at && Harmless(Replay(log), Live(log, Replay(log), now), gap)
    ensures run in Replay(log + gap + [Comment(ClaimBody(lane, run, tail), at)])
  {
    hide MarkerOf, ClaimBody, Replay, OnClaim, Harmless, LegacyName, ClaimAccepted, HolderList, Live, SameClaims, Fewer;
    hide LaneArg, RunArg, IdentityHit, Anonymous;
    var m, m' := Replay(log), Replay(log + gap);
    ClaimGuardAgrees(log, now, hs, lane, run, tail);
    ClaimAppended(log, lane, run, tail, now);
    ClaimAppended(log + gap, lane, run, tail, at);
    ExpiryShrinks(log, gap, now, at);
    ClaimStillWins(m, Live(log, m, now), m', Live(log + gap, m', at), lane, run, now, at);
  }

  lemma ClaimAppended(log: seq<Comment>, lane: string, run: string, tail: string, at: Time)
    requires LaneArg(lane) && RunArg(Some(run))
    ensures Replay(log + [Comment(ClaimBody(lane, run, tail), at)])
         == OnClaim(Replay(log), Live(log, Replay(log), at), lane, Some(run), at)
  {
    hide ParseMarker, ClaimBody, Replay, OnClaim, Live;
    ClaimRoundTrip(lane, run, tail);
    StepClaim(log, Comment(ClaimBody(lane, run, tail), at), Holder(lane, Some(run), at));
  }

  // ----- beat -----

  /** Runs read from markers are never empty. */
  ghost predicate RunsGiven(hs: HolderMap) {
    forall k :: k in hs ==> RunArg(hs[k].run)
  }

  lemma RunsGivenClaim(hs: HolderMap, live: HolderMap, lane: string, run: Run, at: Time)
    requires RunsGiven(hs) && Within(live, hs) && RunArg(run)
    ensures RunsGiven(OnClaim(hs, live, lane, run, at))
  {
  }

  lemma {:induction false} ReplayRunsGiven(log: seq<Comment>)
    ensures RunsGiven(Replay(log))
    decreases |log|
  {
    if log != [] {
      hide ParseMarker, OnClaim, RunArg;
      var n := |log| - 1;
      ReplayRunsGiven(log[..n]);
      var m := MarkerOf(log[n]);
      if m.Some? {
        ParsedRunIsToken(log[n].body);
        var live := Live(log[..n], Replay(log[..n]), log[n].at);
        RunsGivenClaim(Replay(log[..n]), live, m.value.lane, m.value.run, log[n].at);
      }
    }
  }

  lemma ListRunsGiven(log: seq<Comment>, now: Time, hs: Infos)
    requires HolderList(log, now, hs)
    ensures forall x :: x in hs ==> RunArg(x.run)
  {
    ReplayRunsGiven(log);
    hide LastHit, Replay;
  }

  /** On such lists the beat guard is just the search for the caller's own holder. */
  lemma BeatIsFind(hs: Infos, lane: string, runArg: Run)
    requires forall x :: x in hs ==> RunArg(x.run)
    ensures BeatTarget(hs, lane, runArg) == FindHolder(hs, lane, runArg)
  {
  }

  /** A heartbeat is let through exactly for a current holder: the run given, or run-less on the caller's lane. */
  lemma BeatGuard(log: seq<Comment>, now: Time, hs: Infos, lane: string, runArg: Run)
    requires HolderList(log, now, hs) && NoLegacyRuns(log) && !LegacyName(runArg)
    ensures BeatTarget(hs, lane, runArg).Some? <==> IdKey(lane, runArg) in Replay(log)
    ensures BeatTarget(hs, lane, runArg).Some? ==>
      BeatTarget(hs, lane, runArg).value.run == runArg && (runArg.Some? ==> runArg.value != "")
  {
    ListRunsGiven(log, now, hs);
    BeatIsFind(hs, lane, runArg);
    hide LastHit, Replay, BeatTarget;
    var m := Replay(log);
    ReplayKeyed(log);
    ReplayLegacyFree(log);
    var t := FindHolder(hs, lane, runArg);
    if t.Some? {
      assert InfoKey(t.value) in m;
    }
    var key := IdKey(lane, runArg);
    if key in m {
      assert LEGACY <= LEGACY + lane && LEGACY <= LEGACY + m[key].lane;
      if runArg.None? {
        LegacyKey(m, lane);
      }
      var x := Describe(log, m[key], now);
      assert x in hs && x.run == runArg;
    }
  }

  /** An accepted heartbeat that lands on the snapshot it was decided on adds and removes nobody, and keeps
      its holder live for a full stale period. */
  lemma BeatRefreshes(log: seq<Comment>, now: Time, at: Time, hs: Infos, lane: string, runArg: Run, note: string,
                      later: Time)
    requires HolderList(log, now, hs) && NoLegacyRuns(log) && !LegacyName(runArg)
    requires LaneArg(lane) && RunOption(runArg) && BeatTarget(hs, lane, runArg).Some?
    requires later - at <= STALE
    ensures var log' := log + [Comment(BeatBody(lane, runArg, note), at)];
      && Replay(log').Keys == Replay(log).Keys
      && IdKey(lane, runArg) in Live(log', Replay(log'), later)
  {
    hide ParseMarker, IdentityHit, BeatBody, Replay, LastHit, HolderList, BeatTarget;
    var c := Comment(BeatBody(lane, runArg, note), at);
    BeatGuard(log, now, hs, lane, runArg);
    BeatRoundTrip(lane, runArg, note);
    OwnMarkerHits(log, c);
    StepClaim(log, c, Holder(lane, runArg, at));
    ReplayKeyed(log);
    ReplayLegacyFree(log);
    var key := IdKey(lane, runArg);
    var log' := log + [c];
    assert LastHit(log', lane, runArg) == Some(at);
    if runArg.Some? {
      SameHits(log', Replay(log)[key].lane, lane, runArg.value);
      assert LEGACY <= LEGACY + Replay(log)[key].lane;
    } else {
      LegacyKey(Replay(log), lane);
    }
  }

  // ----- release -----

  lemma ReleaseStep(log: seq<Comment>, lane: string, run: Run, target: string, note: string, at: Time)
    requires LaneArg(lane) && RunArg(run) && StateArg(target)
    ensures Replay(log + [Comment(ReleaseBody(lane, run, target, note), at)]) == OnRelease(Replay(log), run)
  {
    hide ParseMarker, ReleaseBody, Replay, StateArg;
    ReleaseRoundTrip(lane, run, target, note);
    ReplayAppend(log, Comment(ReleaseBody(lane, run, target, note), at));
  }

  /** A release that names a run its snapshot shows as a holder is safe however stale that snapshot is:
      on every log it may land on, it removes that run and nothing else. Any other accepted release
      carries no run and clears the ticket. */
  lemma ReleaseScope(later: seq<Comment>, hs: Infos, lane: string, runArg: Run, target: string, note: string, at: Time)
    requires LaneArg(lane) && RunOption(runArg) && StateArg(target)
    requires PlanRelease(hs, lane, runArg).Post?
    ensures var run := PlanRelease(hs, lane, runArg).run;
      var after := Replay(later + [Comment(ReleaseBody(lane, run, target, note), at)]);
      if Given(runArg) && exists x :: x in hs && x.run == runArg
      then run == runArg && Within(after, Replay(later))
           && forall k :: k in Replay(later) ==> (k in after <==> Replay(later)[k].run != runArg)
      else run == None && after == map[]
  {
    hide ReleaseBody, Replay, StateArg, LaneArg, LiveOf;
    var run := PlanRelease(hs, lane, runArg).run;
    ReleaseStep(later, lane, run, target, note, at);
  }

  /** What a refusal rules out. */
  lemma AcceptedPlan(hs: Infos, lane: string, runArg: Run)
    requires PlanRelease(hs, lane, runArg).Post? && LiveOf(hs) != []
    ensures if Given(runArg) then PlanRelease(hs, lane, runArg).run == runArg
            else PlanRelease(hs, lane, runArg).run.None? && !Given(LiveOf(hs)[0].run)
  {
  }

  /** The plan in terms of the live holders: with a run given it names that run; without one, some live holder has
      no run either. */
  lemma PlanOnLive(log: seq<Comment>, now: Time, hs: Infos, lane: string, runArg: Run)
    requires HolderList(log, now, hs) && RunOption(runArg) && PlanRelease(hs, lane, runArg).Post?
    ensures var live, run := Live(log, Replay(log), now), PlanRelease(hs, lane, runArg).run;
      && RunArg(run)
      && (forall k :: k in live && live[k].run.Some? ==> live[k].run.value != "")
      && (live != map[] ==>
            if Given(runArg) then run == runArg else run.None? && exists k :: k in live && live[k].run.None?)
  {
    hide Replay, HolderList, Fresh, LiveOf, NoSpace;
    ListRunsGiven(log, now, hs);
    LiveListed(log, now, hs);
    ReplayRunsGiven(log);
    if LiveOf(hs) != [] {
      AcceptedPlan(hs, lane, runArg);
      assert LiveOf(hs)[0] in LiveOf(hs);
    }
  }

  /** On a current snapshot: an accepted release dissolves a live run-scoped claim that is not the caller's
      exactly when it was given no run; so never while every live holder is run-scoped. */
  lemma ReleaseVictims(log: seq<Comment>, now: Time, hs: Infos, lane: string, runArg: Run, target: string, note: string)
    requires HolderList(log, now, hs) && LaneArg(lane) && RunOption(runArg) && StateArg(target)
    requires PlanRelease(hs, lane, runArg).Post?
    ensures var live := Live(log, Replay(log), now);
      var after := Replay(log + [Comment(ReleaseBody(lane, PlanRelease(hs, lane, runArg).run, target, note), now)]);
      && ((exists k :: k in live && live[k].run.Some? && live[k].run != runArg && k !in after)
          <==> (!Given(runArg) && exists k :: k in live && live[k].run.Some?))
      && ((forall k :: k in live ==> live[k].run.Some?) ==>
            forall k :: k in live && live[k].run != runArg ==> k in after && after[k] == live[k])
  {
    hide ReleaseBody, Replay, StateArg, LaneArg, HolderList, Live, PlanRelease, NoSpace;
    PlanOnLive(log, now, hs, lane, runArg);
    ReleaseStep(log, lane, PlanRelease(hs, lane, runArg).run, target, note, now);
    assert Within(Live(log, Replay(log), now), Replay(log));
  }

  /** The workflow state moves exactly when no holder that the release leaves in place was live before it. */
  lemma MovesOnlyWhenLast(log: seq<Comment>, now: Time, hs: Infos, lane: string, runArg: Run, target: string,
                          note: string)
    requires HolderList(log, now, hs) && LaneArg(lane) && RunOption(runArg) && StateArg(target)
    requires PlanRelease(hs, lane, runArg).Post?
    ensures PlanRelease(hs, lane, runArg).moves <==>
      var body := ReleaseBody(lane, PlanRelease(hs, lane, runArg).run, target, note);
      Live(log, Replay(log + [Comment(body, now)]), now) == map[]
  {
    hide ReleaseBody, Replay, StateArg, LaneArg, HolderList, Fresh, LastHit, LiveOf;
    var plan := PlanRelease(hs, lane, runArg);
    ReleaseStep(log, lane, plan.run, target, note, now);
    LiveListed(log, now, hs);
    var live := Live(log, Replay(log), now);
    var after := Live(log, OnRelease(Replay(log), plan.run), now);
    if k :| k in after {
      assert k in live && Describe(log, Replay(log)[k], now) in LiveOf(hs);
    }
    if x :| x in LiveOf(hs) && plan.run.Some? && x.run != plan.run {
      assert InfoKey(x) in after;
    }
  }

  /** `body` refreshes one of `hs`. */
  ghost predicate Touches(body: string, hs: HolderMap) {
    exists k :: k in hs && IdentityHit(body, hs[k].lane, hs[k].run)
  }

  /** On the log that the release creates: nobody is live exactly when the state moved and the release's own text
      refreshes no holder that it leaves in place. */
  lemma FreeAfterRelease(log: seq<Comment>, now: Time, hs: Infos, lane: string, runArg: Run, target: string,
                         note: string)
    requires HolderList(log, now, hs) && LaneArg(lane) && RunOption(runArg) && StateArg(target)
    requires PlanRelease(hs, lane, runArg).Post?
    ensures var plan := PlanRelease(hs, lane, runArg);
      var body := ReleaseBody(lane, plan.run, target, note);
      var log' := log + [Comment(body, now)];
      Live(log', Replay(log'), now) == map[] <==> plan.moves && !Touches(body, Replay(log'))
  {
    hide ReleaseBody, Replay, StateArg, LaneArg, HolderList, PlanRelease, IdentityHit, NoSpace, LastHit;
    var body := ReleaseBody(lane, PlanRelease(hs, lane, runArg).run, target, note);
    MovesOnlyWhenLast(log, now, hs, lane, runArg, target, note);
    LiveAfterComment(log, Replay(log + [Comment(body, now)]), Comment(body, now));
  }

  lemma LiveAfterComment(log: seq<Comment>, hs: HolderMap, c: Comment)
    ensures Live(log + [c], hs, c.at) == map[] <==> Live(log, hs, c.at) == map[] && !Touches(c.body, hs)
  {
    hide IdentityHit, LastHit;
    forall k | k in hs
      ensures k in Live(log + [c], hs, c.at) <==> k in Live(log, hs, c.at) || IdentityHit(c.body, hs[k].lane, hs[k].run)
    {
      LastHitAppend(log, c, hs[k].lane, hs[k].run);
    }
    var live, live' := Live(log, hs, c.at), Live(log + [c], hs, c.at);
    assert live == map[] <==> forall k :: k in hs ==> k !in live;
    assert live' == map[] <==> forall k :: k in hs ==> k !in live';
  }
}
