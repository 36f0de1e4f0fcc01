/** What every replay of a ticket log guarantees about its holders. */
module HolderLaws {
  import opened Text
  import opened Markers
  import opened Log
  import opened Holders

  // ----- mutual exclusion -----

  /** Any two holders are the two reviewer letters. */
  ghost predicate Exclusive(hs: HolderMap) {
    forall a, b :: a in hs && b in hs && a != b ==>
      CoholdLane(hs[a].lane) && CoholdLane(hs[b].lane) && hs[a].lane != hs[b].lane
  }

  ghost predicate OneOrBothReviewers(hs: HolderMap) {
    || |hs| <= 1
    || exists a, b :: a in hs && b in hs && hs.Keys == {a, b}
         && hs[a].lane == "reviewer-A" && hs[b].lane == "reviewer-B"
  }

  lemma ExclusiveMeans(hs: HolderMap)
    requires Exclusive(hs)
    ensures OneOrBothReviewers(hs)
  {
    if |hs| > 1 {
      var a :| a in hs.Keys;
      var rest := hs.Keys - {a};
      assert |rest| == |hs.Keys| - 1;
      var b :| b in rest;
      NoThird(hs, a, b);
      if hs[a].lane == "reviewer-A" {
        assert hs.Keys == {a, b};
      } else {
        assert hs.Keys == {b, a};
      }
    }
  }

  lemma NoThird(hs: HolderMap, a: string, b: string)
    requires Exclusive(hs) && a in hs && b in hs && a != b
    ensures hs.Keys == {a, b}
  {
  }

  predicate LegacyName(run: Run) {
    run.Some? && LEGACY <= run.value
  }

  /** A claim that would "upgrade" a key which is not a run-less claim but a run spelled `legacy:<lane>`,
      and thereby change the lane of one side of a co-hold. */
  ghost predicate Collides(hs: HolderMap, c: Comment) {
    var m := MarkerOf(c);
    m.Some? && m.value.Claim? && ClaimCollides(hs, m.value.lane, m.value.run)
  }

  lemma Singleton(live: HolderMap, a: string, b: string)
    requires |live| < 2 && a in live && b in live
    ensures a == b
  {
    var rest := live.Keys - {a};
    assert |rest| == |live.Keys| - 1;
    assert b == a || b in rest;
  }

  ghost predicate ClaimCollides(hs: HolderMap, lane: string, run: Run) {
    && run.Some? && run.value !in hs
    && LEGACY + lane in hs && hs[LEGACY + lane].lane != lane
    && exists other :: other in hs && other != LEGACY + lane
  }

  lemma ExclusiveUpgrade(hs: HolderMap, leg: string, key: string, entry: Holder)
    requires Exclusive(hs) && leg in hs && key !in hs
    ensures Exclusive(Drop(hs, leg)[key := entry])
       <==> (entry.lane == hs[leg].lane || forall other :: other in hs ==> other == leg)
  {
    var hs' := Drop(hs, leg)[key := entry];
    if other :| other in hs && other != leg {
      assert hs'[other] == hs[other] && hs'[key] == entry;
    }
  }

  lemma ExclusiveJoin(live: HolderMap, key: string, entry: Holder)
    requires Exclusive(live) && live != map[] && CanCoholdJoin(entry.lane, live)
    ensures Exclusive(live[key := entry])
  {
  }

  lemma ExclusiveClaim(hs: HolderMap, live: HolderMap, lane: string, run: Run, at: Time)
    requires Exclusive(hs) && Within(live, hs)
    ensures Exclusive(OnClaim(hs, live, lane, run, at)) <==> !ClaimCollides(hs, lane, run)
  {
    var key, leg, entry := IdKey(lane, run), LEGACY + lane, Holder(lane, run, at);
    if key in hs {
    } else if run.Some? && leg in hs {
      ExclusiveUpgrade(hs, leg, key, entry);
    } else if live != map[] && CanCoholdJoin(lane, live) {
      ExclusiveJoin(live, key, entry);
    }
  }

  /** Exactly one kind of comment can break exclusion, and only in a co-held state. */
  lemma ExclusiveStep(older: seq<Comment>, hs: HolderMap, c: Comment)
    requires Keyed(hs) && Exclusive(hs)
    ensures Exclusive(Step(older, hs, c)) <==> !Collides(hs, c)
  {
    var m := MarkerOf(c);
    if m.Some? && m.value.Claim? {
      ExclusiveClaim(hs, Live(older, hs, c.at), m.value.lane, m.value.run, c.at);
    }
  }

  ghost predicate NoLegacyRuns(log: seq<Comment>) {
    forall i :: 0 <= i < |log| && MarkerOf(log[i]).Some? ==> !LegacyName(MarkerOf(log[i]).value.run)
  }

  ghost predicate RunsNotLegacy(hs: HolderMap) {
    forall k :: k in hs ==> !LegacyName(hs[k].run)
  }

  lemma LegacyFreeStep(older: seq<Comment>, hs: HolderMap, c: Comment)
    requires RunsNotLegacy(hs)
    requires MarkerOf(c).Some? ==> !LegacyName(MarkerOf(c).value.run)
    ensures RunsNotLegacy(Step(older, hs, c))
  {
  }

  lemma {:induction false} ReplayLegacyFree(log: seq<Comment>)
    requires NoLegacyRuns(log)
    ensures RunsNotLegacy(Replay(log))
    decreases |log|
  {
    if log != [] {
      hide Step, ParseMarker;
      var n := |log| - 1;
      assert NoLegacyRuns(log[..n]);
      ReplayLegacyFree(log[..n]);
      LegacyFreeStep(log[..n], Replay(log[..n]), log[n]);
    }
  }

  /** A key `legacy:<lane>` then really is the run-less claim of that lane. */
  lemma LegacyKey(hs: HolderMap, lane: string)
    requires Keyed(hs) && RunsNotLegacy(hs) && LEGACY + lane in hs
    ensures hs[LEGACY + lane].lane == lane && hs[LEGACY + lane].run.None?
  {
    var h := hs[LEGACY + lane];
    assert LEGACY <= LEGACY + lane;
    assert (LEGACY + h.lane)[|LEGACY|..] == h.lane;
    assert (LEGACY + lane)[|LEGACY|..] == lane;
  }

  /** Mutual exclusion, for every log whatever order or age of snapshot its comments were posted from. */
  lemma {:induction false} MutualExclusion(log: seq<Comment>)
    requires NoLegacyRuns(log)
    ensures Exclusive(Replay(log)) && OneOrBothReviewers(Replay(log)) && Keyed(Replay(log))
    decreases |log|
  {
    hide Step, Exclusive, OneOrBothReviewers, ParseMarker;
    ReplayKeyed(log);
    if log == [] {
      NobodyIsExclusive();
    } else {
      var n := |log| - 1;
      var hs := Replay(log[..n]);
      assert NoLegacyRuns(log[..n]);
      MutualExclusion(log[..n]);
      ReplayLegacyFree(log[..n]);
      ExclusiveStep(log[..n], hs, log[n]);
      var m := MarkerOf(log[n]);
      if m.Some? && LEGACY + m.value.lane in hs {
        LegacyKey(hs, m.value.lane);
      }
    }
    ExclusiveMeans(Replay(log));
  }

  lemma NobodyIsExclusive()
    ensures Exclusive(map[])
  {
  }

  // ----- heartbeat safety -----

  /** `c` is a RELEASE that can dissolve `run`. */
  predicate Dissolves(c: Comment, run: string) {
    var m := MarkerOf(c);
    m.Some? && m.value.Release? && (m.value.run.None? || m.value.run == Some(run))
  }

  predicate ForeignClaim(c: Comment, run: string) {
    var m := MarkerOf(c);
    m.Some? && m.value.Claim? && IdKey(m.value.lane, m.value.run) != run
  }

  predicate HoldsRun(hs: HolderMap, run: string) {
    run in hs && hs[run].run == Some(run)
  }

  /** The run has posted within the stale limit before `ref`; the lane plays no part for a run identity. */
  predicate RunFresh(log: seq<Comment>, run: string, ref: Time) {
    Fresh(log, "", Some(run), ref)
  }

  lemma HoldStep(older: seq<Comment>, hs: HolderMap, c: Comment, run: string)
    requires HoldsRun(hs, run) && !LegacyName(Some(run)) && run != ""
    requires !Dissolves(c, run)
    requires ForeignClaim(c, run) ==> RunFresh(older, run, c.at)
    ensures HoldsRun(Step(older, hs, c), run)
  {
    hide ParseMarker, LastHit, CoholdLane;
    if ForeignClaim(c, run) {
      var m := MarkerOf(c).value;
      assert Idle(older, hs[run].lane, Some(run), c.at) == Idle(older, "", Some(run), c.at) by {
        SameHits(older, hs[run].lane, "", run);
      }
      assert LEGACY <= LEGACY + m.lane;
      assert run in Live(older, hs, c.at);
    }
  }

  /** A run identity is refreshed by its run alone; its lane plays no part. */
  lemma {:induction false} SameHits(log: seq<Comment>, lane1: string, lane2: string, run: string)
    requires run != ""
    ensures LastHit(log, lane1, Some(run)) == LastHit(log, lane2, Some(run))
    decreases |log|
  {
    if log != [] {
      SameHits(log[..|log| - 1], lane1, lane2, run);
    }
  }

  /** A holder survives any continuation in which nobody releases its run (or the whole ticket) and
      it has posted within the stale limit before each foreign claim. */
  lemma {:induction false} HeartbeatKeepsClaim(log: seq<Comment>, ext: seq<Comment>, run: string)
    requires HoldsRun(Replay(log), run) && !LegacyName(Some(run)) && run != ""
    requires forall j :: 0 <= j < |ext| ==> !Dissolves(ext[j], run)
    requires forall j :: 0 <= j < |ext| && ForeignClaim(ext[j], run) ==>
      RunFresh(log + ext[..j], run, ext[j].at)
    ensures HoldsRun(Replay(log + ext), run)
    decreases |ext|
  {
    if ext == [] {
      assert log + ext == log;
    } else {
      var n := |ext| - 1;
      var init := ext[..n];
      forall j | 0 <= j < |init| && ForeignClaim(init[j], run)
        ensures RunFresh(log + init[..j], run, init[j].at)
      {
        assert init[..j] == ext[..j];
      }
      HeartbeatKeepsClaim(log, init, run);
      SplitLast(log, ext);
      ReplayAppend(log + init, ext[n]);
      HoldStep(log + init, Replay(log + init), ext[n], run);
    }
  }

  /** The only ways to lose a held run: its own or a run-less RELEASE, or a claim by a new identity that is
      let in (nobody live, or a co-hold to join) while the run is stale. */
  lemma HoldLostExactly(older: seq<Comment>, hs: HolderMap, c: Comment, run: string)
    requires HoldsRun(hs, run) && !LegacyName(Some(run)) && run != ""
    ensures !HoldsRun(Step(older, hs, c), run) <==>
      || Dissolves(c, run)
      || (&& MarkerOf(c).Some? && MarkerOf(c).value.Claim?
          && !RunFresh(older, run, c.at)
          && var lane, r := MarkerOf(c).value.lane, MarkerOf(c).value.run;
             && IdKey(lane, r) !in hs && (r.Some? ==> LEGACY + lane !in hs)
             && CanEnter(lane, Live(older, hs, c.at)))
  {
    hide ParseMarker, LastHit, CoholdLane;
    var m := MarkerOf(c);
    if m.Some? && m.value.Claim? {
      assert Idle(older, hs[run].lane, Some(run), c.at) == Idle(older, "", Some(run), c.at) by {
        SameHits(older, hs[run].lane, "", run);
      }
      assert LEGACY <= LEGACY + m.value.lane;
    }
  }

  predicate CanEnter(lane: string, live: HolderMap) {
    live == map[] || CanCoholdJoin(lane, live)
  }

  // ----- nobody holds without claiming -----

  predicate ClaimsKey(c: Comment, key: string) {
    var m := MarkerOf(c);
    m.Some? && m.value.Claim? && IdKey(m.value.lane, m.value.run) == key
  }

  lemma StepKeys(older: seq<Comment>, hs: HolderMap, c: Comment)
    ensures forall k :: k in Step(older, hs, c) ==> k in hs || ClaimsKey(c, k)
  {
  }

  lemma {:induction false} HoldsOnlyByClaiming(log: seq<Comment>, ext: seq<Comment>, key: string)
    requires key !in Replay(log)
    requires forall j :: 0 <= j < |ext| ==> !ClaimsKey(ext[j], key)
    ensures key !in Replay(log + ext)
    decreases |ext|
  {
    if ext == [] {
      assert log + ext == log;
    } else {
      var n := |ext| - 1;
      HoldsOnlyByClaiming(log, ext[..n], key);
      SplitLast(log, ext);
      ReplayAppend(log + ext[..n], ext[n]);
      StepKeys(log + ext[..n], Replay(log + ext[..n]), ext[n]);
    }
  }

  /** When the identity last claimed, heartbeats included. */
  function LastClaim(log: seq<Comment>, key: string): Option<Time>
    decreases |log|
  {
    if log == [] then None
    else
      var n := |log| - 1;
      if ClaimsKey(log[n], key) then Some(log[n].at) else LastClaim(log[..n], key)
  }

  ghost predicate Dated(log: seq<Comment>, hs: HolderMap) {
    forall k :: k in hs ==> LastClaim(log, k) == Some(hs[k].at)
  }

  lemma DatedStep(log: seq<Comment>, hs: HolderMap, c: Comment)
    requires Dated(log, hs) && Keyed(hs)
    ensures Dated(log + [c], Step(log, hs, c))
  {
    hide ParseMarker, Fresh, CanCoholdJoin;
    var hs' := Step(log, hs, c);
    assert (log + [c])[..|log|] == log;
    forall k | k in hs' ensures LastClaim(log + [c], k) == Some(hs'[k].at) {
    }
  }

  /** The date shown for a holder is that of its newest claim or heartbeat. */
  lemma {:induction false} HoldersAreDated(log: seq<Comment>)
    ensures Dated(log, Replay(log))
    decreases |log|
  {
    if log != [] {
      hide Step, ClaimsKey;
      var n := |log| - 1;
      HoldersAreDated(log[..n]);
      ReplayKeyed(log[..n]);
      DatedStep(log[..n], Replay(log[..n]), log[n]);
      assert log[..n] + [log[n]] == log;
    }
  }

  // ----- earliest claim wins -----

  function ClaimedBy(c: Comment): seq<Holder> {
    match MarkerOf(c)
    case Some(Claim(lane, run)) => [Holder(lane, run, c.at)]
    case _ => []
  }

  /** The claims of a log, in order, as the entries they ask for. */
  function Claims(log: seq<Comment>): seq<Holder>
    decreases |log|
  {
    if log == [] then [] else Claims(log[..|log| - 1]) + ClaimedBy(log[|log| - 1])
  }

  lemma {:induction false} ClaimsStart(log: seq<Comment>)
    requires log != [] && ClaimedBy(log[0]) != []
    ensures Claims(log) != [] && Claims(log)[0] == ClaimedBy(log[0])[0]
    decreases |log|
  {
    hide ClaimedBy;
    if |log| > 1 {
      ClaimsStart(log[..|log| - 1]);
    } else {
      assert log[..0] == [];
    }
  }

  /** In a sorted log every claim with a run has been heard since it was posted. */
  lemma {:induction false} ClaimsAreHeard(log: seq<Comment>, i: nat)
    requires Sorted(log) && i < |Claims(log)| && Claims(log)[i].run.Some?
    ensures Claims(log)[i].at <= log[|log| - 1].at
    ensures var e := Claims(log)[i]; LastHit(log, e.lane, e.run).Some? && e.at <= LastHit(log, e.lane, e.run).value
    decreases |log|
  {
    hide ParseMarker, IdentityHit, LastHit;
    var n := |log| - 1;
    var init, c := log[..n], log[n];
    assert log == init + [c];
    if i < |Claims(init)| {
      ClaimsAreHeard(init, i);
      LastHitAppend(init, c, Claims(log)[i].lane, Claims(log)[i].run);
    } else {
      OwnMarkerHits(init, c);
    }
  }

  /** Claims by runs, all within the stale limit of the first; a run may claim again, which is a heartbeat. */
  ghost predicate Burst(es: seq<Holder>) {
    && es != []
    && (forall i, j :: 0 <= i <= j < |es| ==> es[i].at <= es[j].at)
    && (forall i :: 0 <= i < |es| ==> es[i].run.Some? && !LegacyName(es[i].run))
    && (forall i :: 0 <= i < |es| ==> es[i].at - es[0].at <= STALE)
  }

  predicate Partners(lane1: string, lane2: string) {
    CoholdLane(lane1) && CoholdLane(lane2) && lane1 != lane2
  }

  /** The same claims, up to their dates. */
  ghost predicate SameClaims(hs: HolderMap, hs': HolderMap) {
    hs.Keys == hs'.Keys && forall k :: k in hs ==> hs'[k].lane == hs[k].lane && hs'[k].run == hs[k].run
  }

  /** Another run on the other reviewer letter. */
  predicate Joins(first: Holder, e: Holder) {
    Partners(first.lane, e.lane) && e.run != first.run
  }

  /** Index of the first claim of the other reviewer letter by another run; 0 when there is none. */
  function FirstPartner(es: seq<Holder>): (p: nat)
    requires es != []
    ensures p < |es|
    ensures p > 0 ==> Joins(es[0], es[p])
    ensures forall i :: 0 < i < |es| && (p == 0 || i < p) ==> !Joins(es[0], es[i])
    decreases |es|
  {
    var n := |es| - 1;
    if n == 0 then 0
    else
      var p := FirstPartner(es[..n]);
      if p == 0 && Joins(es[0], es[n]) then n else p
  }

  /** The earliest claimant, plus the earliest claimant of the other letter if the winner is a reviewer letter. */
  function Winners(es: seq<Holder>): HolderMap
    requires es != []
  {
    var first := map[IdKey(es[0].lane, es[0].run) := es[0]];
    var p := FirstPartner(es);
    if p == 0 then first else first[IdKey(es[p].lane, es[p].run) := es[p]]
  }

  lemma NotLegacyKey(hs: HolderMap, lane: string)
    requires Keyed(hs) && forall k :: k in hs ==> hs[k].run.Some? && !LegacyName(hs[k].run)
    ensures LEGACY + lane !in hs
  {
  }

  lemma RepeatedClaim(hs: HolderMap, e: Holder, ws: HolderMap)
    requires SameClaims(ws, hs) && IdKey(e.lane, e.run) in hs
    ensures SameClaims(ws, OnClaim(hs, hs, e.lane, e.run, e.at))
  {
    hide CanCoholdJoin, IdKey;
  }

  /** The winner `first` alone is live: another run joins on the other letter, and loses otherwise. */
  lemma SecondClaim(hs: HolderMap, first: Holder, e: Holder)
    requires first.run.Some? && e.run.Some? && e.run != first.run && LEGACY + e.lane !in hs
    requires SameClaims(map[first.run.value := first], hs)
    ensures OnClaim(hs, hs, e.lane, e.run, e.at)
         == if Joins(first, e) then hs[e.run.value := e] else hs
  {
    assert hs.Keys == {first.run.value} && |hs| == |hs.Keys| == 1;
    assert hs[first.run.value].lane == first.lane;
  }

  /** Both letters are live: everybody else loses. */
  lemma ThirdClaim(hs: HolderMap, e: Holder)
    requires |hs| == 2 && e.run.Some? && e.run.value !in hs && LEGACY + e.lane !in hs
    ensures OnClaim(hs, hs, e.lane, e.run, e.at) == hs
  {
  }

  /** One more claim, all current winners being live. */
  lemma NextWinner(es: seq<Holder>, hs: HolderMap)
    requires Burst(es) && |es| > 1 && SameClaims(Winners(es[..|es| - 1]), hs)
    ensures var n := |es| - 1;
      SameClaims(Winners(es), OnClaim(hs, hs, es[n].lane, es[n].run, es[n].at))
  {
    hide OnClaim, CoholdLane, LegacyName;
    var n := |es| - 1;
    var e := es[n];
    var p, ws := FirstPartner(es[..n]), Winners(es[..n]);
    NotLegacyKey(hs, e.lane);
    if e.run.value in hs {
      RepeatedClaim(hs, e, ws);
      assert Winners(es) == ws;
    } else if p == 0 {
      SecondClaim(hs, es[0], e);
    } else {
      WinnersSize(es[..n]);
      assert |hs| == |hs.Keys| && |ws| == |ws.Keys|;
      ThirdClaim(hs, e);
    }
  }

  lemma WinnersSize(es: seq<Holder>)
    requires Burst(es)
    ensures |Winners(es)| == if FirstPartner(es) == 0 then 1 else 2
  {
  }

  lemma LiveWinners(log: seq<Comment>, burst: seq<Comment>, hs: HolderMap, ref: Time)
    requires Sorted(burst) && Burst(Claims(burst)) && ref - Claims(burst)[0].at <= STALE
    requires SameClaims(Winners(Claims(burst)), hs)
    ensures Live(log + burst, hs, ref) == hs
  {
    hide ParseMarker, LastHit, Claims;
    var es := Claims(burst);
    var p := FirstPartner(es);
    ClaimsAreHeard(burst, 0);
    ClaimsAreHeard(burst, p);
    LastHitConcat(log, burst, es[0].lane, es[0].run);
    LastHitConcat(log, burst, es[p].lane, es[p].run);
    assert es[0].at <= es[p].at;
    LiveIsAll(log + burst, hs, ref);
  }

  lemma StepClaim(log: seq<Comment>, c: Comment, e: Holder)
    requires MarkerOf(c) == Some(Claim(e.lane, e.run)) && c.at == e.at
    ensures Replay(log + [c]) == OnClaim(Replay(log), Live(log, Replay(log), e.at), e.lane, e.run, e.at)
  {
  }

  ghost predicate NoReleases(log: seq<Comment>) {
    forall i :: 0 <= i < |log| && MarkerOf(log[i]).Some? ==> MarkerOf(log[i]).value.Claim?
  }

  /** Starts with a claim and releases nothing; its claims form a burst, with any prose in between. */
  ghost predicate Contest(log: seq<Comment>) {
    && log != [] && ClaimedBy(log[0]) != []
    && Sorted(log) && NoReleases(log) && Burst(Claims(log))
  }

  /** Nobody is live at the claim `h`, and `h` neither continues nor upgrades an older one. */
  ghost predicate Vacant(log: seq<Comment>, h: Holder) {
    && Live(log, Replay(log), h.at) == map[]
    && IdKey(h.lane, h.run) !in Replay(log) && LEGACY + h.lane !in Replay(log)
  }

  /** From a state with no live holder, a contest leaves exactly the winners among its claims, each dated by its
      newest claim. */
  lemma {:induction false} EarliestClaimWins(log: seq<Comment>, burst: seq<Comment>)
    requires Contest(burst) && Vacant(log, ClaimedBy(burst[0])[0])
    ensures Claims(burst) != [] && SameClaims(Winners(Claims(burst)), Replay(log + burst))
    ensures Dated(log + burst, Replay(log + burst))
    decreases |burst|
  {
    hide Contest, Vacant, Replay, Claims, ClaimedBy, Winners, SameClaims, Dated;
    ContestMeans(burst);
    HoldersAreDated(log + burst);
    var n := |burst| - 1;
    var b, c := burst[..n], burst[n];
    SplitLast(log, burst);
    assert burst == b + [c];
    if n == 0 {
      assert log + b == log;
      FirstWinner(log, c);
    } else {
      ContestInit(b, c);
      ContestMeans(b);
      EarliestClaimWins(log, b);
      LaterClaims(log, b, c);
    }
  }

  lemma ContestMeans(burst: seq<Comment>)
    requires Contest(burst)
    ensures burst != [] && ClaimedBy(burst[0]) != [] && Claims(burst) != []
  {
  }

  lemma BurstPrefix(es: seq<Holder>, init: seq<Holder>)
    requires Burst(es) && init != [] && init <= es
    ensures Burst(init)
  {
  }

  lemma ContestInit(b: seq<Comment>, c: Comment)
    requires b != [] && Contest(b + [c])
    ensures Contest(b)
  {
    hide MarkerOf, ClaimedBy, Burst;
    assert b == (b + [c])[..|b|] && b[0] == (b + [c])[0];
    ClaimsStart(b);
    BurstPrefix(Claims(b + [c]), Claims(b));
  }

  lemma FirstWinner(log: seq<Comment>, c: Comment)
    requires ClaimedBy(c) != [] && Vacant(log, ClaimedBy(c)[0])
    ensures Claims([c]) == ClaimedBy(c) && SameClaims(Winners(Claims([c])), Replay(log + [c]))
  {
    hide ParseMarker, Live, Replay, CanCoholdJoin, SameClaims;
    StepClaim(log, c, ClaimedBy(c)[0]);
    assert [c][..0] == [];
    SameAsItself(Replay(log + [c]));
  }

  lemma SameAsItself(hs: HolderMap)
    ensures SameClaims(hs, hs)
  {
  }

  lemma LaterClaims(log: seq<Comment>, b: seq<Comment>, c: Comment)
    requires Contest(b) && Contest(b + [c]) && SameClaims(Winners(Claims(b)), Replay(log + b))
    ensures SameClaims(Winners(Claims(b + [c])), Replay(log + b + [c]))
  {
    assert (b + [c])[|b|] == c;
    hide ParseMarker, Replay, Live, Winners, OnClaim, SameClaims;
    var es := Claims(b + [c]);
    assert (b + [c])[..|b|] == b;
    if MarkerOf(c).None? {
      assert es == Claims(b);
      ReplayAppend(log + b, c);
    } else {
      var last := |es| - 1;
      assert es[..last] == Claims(b) && es[last] == ClaimedBy(c)[0];
      LiveWinners(log, b, Replay(log + b), c.at);
      StepClaim(log + b, c, es[last]);
      NextWinner(es, Replay(log + b));
    }
  }

  lemma LiveIsAll(log: seq<Comment>, hs: HolderMap, ref: Time)
    requires forall k :: k in hs ==> Fresh(log, hs[k].lane, hs[k].run, ref)
    ensures Live(log, hs, ref) == hs
  {
  }

  // ----- the collision that exclusion excludes -----

  function Posted(lane: string, run: string, at: Time): Comment {
    Comment(ClaimBody(lane, run, ""), at)
  }

  /** With a run spelled like a run-less key, both co-holders can end up on the same letter. */
  lemma CollisionBreaksExclusion(c0: Comment, c1: Comment, c2: Comment, h0: Holder, h1: Holder, h2: Holder)
    requires MarkerOf(c0) == Some(Claim(h0.lane, h0.run)) && c0.at == h0.at
    requires MarkerOf(c1) == Some(Claim(h1.lane, h1.run)) && c1.at == h1.at
    requires MarkerOf(c2) == Some(Claim(h2.lane, h2.run)) && c2.at == h2.at
    requires Partners(h0.lane, h1.lane) && h2.lane == h0.lane && h0.at == h1.at == h2.at
    requires h0.run.Some? && h1.run == Some(LEGACY + h0.lane) && h2.run.Some? && h0.run != h2.run
    requires !LegacyName(h0.run) && !LegacyName(h2.run)
    ensures !OneOrBothReviewers(Replay([c0] + [c1] + [c2]))
  {
    hide MarkerOf, Replay, Live, Fresh, OnClaim, OneOrBothReviewers, CoholdLane;
    assert LEGACY <= LEGACY + h0.lane;
    CollidingStart(c0, h0);
    CollidingJoin([c0], c1, h0, h1);
    StepClaim([c0] + [c1], c2, h2);
    CollidingUpgrade(h0, h1, h2, Live([c0] + [c1], Replay([c0] + [c1]), h2.at));
    SameLetterTwice(h0, h2);
  }

  lemma CollidingStart(c: Comment, h: Holder)
    requires MarkerOf(c) == Some(Claim(h.lane, h.run)) && c.at == h.at && h.run.Some?
    ensures Replay([c]) == map[h.run.value := h] && Fresh([c], h.lane, h.run, h.at)
  {
    hide ParseMarker, IdentityHit, OnClaim, LastHit;
    OwnMarkerHits([], c);
    StepClaim([], c, h);
    FirstClaim(h);
    assert [] + [c] == [c];
  }

  lemma SameLetterTwice(h0: Holder, h2: Holder)
    requires h0.run.Some? && h2.run.Some? && h0.run != h2.run && h0.lane == h2.lane
    ensures !OneOrBothReviewers(map[h0.run.value := h0, h2.run.value := h2])
  {
  }

  lemma LegacyRunBreaksExclusion(at: Time)
    ensures !OneOrBothReviewers(Replay(
      [Posted("reviewer-A", "a", at)] + [Posted("reviewer-B", "legacy:reviewer-A", at)]
      + [Posted("reviewer-A", "b", at)]))
  {
    hide ParseMarker, ClaimBody, OneOrBothReviewers, Replay, LaneArg, RunArg, IdentityHit, Anonymous;
    LettersAreLanes();
    var x := "legacy:reviewer-A";
    ClaimRoundTrip("reviewer-A", "a", "");
    ClaimRoundTrip("reviewer-B", x, "");
    ClaimRoundTrip("reviewer-A", "b", "");
    assert LEGACY + "reviewer-A" == x;
    CollisionBreaksExclusion(
      Posted("reviewer-A", "a", at), Posted("reviewer-B", x, at), Posted("reviewer-A", "b", at),
      Holder("reviewer-A", Some("a"), at), Holder("reviewer-B", Some(x), at), Holder("reviewer-A", Some("b"), at));
  }

  lemma FirstClaim(h: Holder)
    ensures OnClaim(map[], map[], h.lane, h.run, h.at) == map[IdKey(h.lane, h.run) := h]
  {
  }

  lemma CollidingJoin(log: seq<Comment>, c: Comment, h0: Holder, h1: Holder)
    requires h0.run.Some? && h1.run.Some? && h0.run != h1.run && Partners(h0.lane, h1.lane)
    requires !LegacyName(h0.run) && h1.at == c.at && Fresh(log, h0.lane, h0.run, c.at)
    requires Replay(log) == map[h0.run.value := h0]
    requires MarkerOf(c) == Some(Claim(h1.lane, h1.run))
    ensures Replay(log + [c]) == map[h0.run.value := h0, h1.run.value := h1]
  {
    hide ParseMarker, Fresh;
    var hs := Replay(log);
    StepClaim(log, c, h1);
    LiveIsAll(log, hs, c.at);
    assert LEGACY <= LEGACY + h1.lane;
    assert hs.Keys == {h0.run.value} && |hs| == |hs.Keys| == 1;
  }

  lemma CollidingUpgrade(h0: Holder, h1: Holder, h2: Holder, live: HolderMap)
    requires h0.run.Some? && h1.run == Some(LEGACY + h2.lane) && h2.run.Some?
    requires h0.run != h1.run && h2.run != h0.run && h2.run != h1.run
    ensures OnClaim(map[h0.run.value := h0, h1.run.value := h1], live, h2.lane, h2.run, h2.at)
         == map[h0.run.value := h0, h2.run.value := h2]
  {
  }

  lemma LettersAreLanes()
    ensures LaneArg("reviewer-A") && LaneArg("reviewer-B")
    ensures RunArg(Some("legacy:reviewer-A")) && RunArg(Some("a")) && RunArg(Some("b"))
  {
    NoEquals("reviewer-A");
    NoEquals("reviewer-B");
  }

  lemma NoEquals(s: string)
    requires '=' !in s
    ensures !Contains(s, "run=")
  {
    forall i | 0 <= i <= |s| - |"run="| ensures !MatchAt(s, "run=", i) {
      MatchChars(s, "run=", i);
      assert "run="[3] == '=';
    }
  }

  /** No log, collisions included, ever yields more than two holders. */
  lemma {:induction false} AtMostTwo(log: seq<Comment>)
    ensures |Replay(log)| <= 2
    decreases |log|
  {
    if log != [] {
      var n := |log| - 1;
      var hs := Replay(log[..n]);
      AtMostTwo(log[..n]);
      var m := MarkerOf(log[n]);
      if m.Some? && m.value.Release? {
        FewerKeys(OnRelease(hs, m.value.run), hs);
      } else if m.Some? {
        TwoAfterClaim(hs, Live(log[..n], hs, log[n].at), m.value.lane, m.value.run, log[n].at);
      }
    }
  }

  lemma FewerKeys(a: HolderMap, b: HolderMap)
    requires a.Keys <= b.Keys
    ensures |a| <= |b|
  {
    assert b.Keys == a.Keys + (b.Keys - a.Keys);
  }

  lemma KeysAfterClaim(hs: HolderMap, live: HolderMap, lane: string, run: Run, at: Time)
    ensures var key, leg, keys := IdKey(lane, run), LEGACY + lane, OnClaim(hs, live, lane, run, at).Keys;
      || keys == hs.Keys
      || (leg in hs.Keys && keys == hs.Keys - {leg} + {key})
      || keys == {key}
      || (|live| < 2 && keys == live.Keys + {key})
  {
    hide CoholdLane, IdKey;
  }

  lemma TwoAfterClaim(hs: HolderMap, live: HolderMap, lane: string, run: Run, at: Time)
    requires |hs| <= 2
    ensures |OnClaim(hs, live, lane, run, at)| <= 2
  {
    hide OnClaim, IdKey;
    KeysAfterClaim(hs, live, lane, run, at);
    assert |hs| == |hs.Keys| && |live| == |live.Keys|;
    assert |OnClaim(hs, live, lane, run, at)| == |OnClaim(hs, live, lane, run, at).Keys|;
  }
}
