/** How the two replays of one log relate: when the holders of `holders()` and the open windows of
    `windows()` are the same claims, lane by lane and across lanes. */
module Agreement {
  import opened Text
  import opened Markers
  import opened Log
  import opened Holders
  import opened HolderLaws
  import opened Windows

  /** The run of each lane's open window. */
  function OpenRuns(s: Scan): map<string, Run>
    requires InRange(s)
  {
    map lane | lane in s.open :: s.out[s.open[lane]].run
  }

  /** Every holder owns the open window of its lane, and every open window is a holder's. */
  ghost predicate Owns(hs: HolderMap, open: map<string, Run>) {
    && (forall k :: k in hs ==> hs[k].lane in open && open[hs[k].lane] == hs[k].run)
    && (forall lane :: lane in open ==>
          var key := IdKey(lane, open[lane]); key in hs && hs[key].lane == lane && hs[key].run == open[lane])
  }

  /** What the step theorem starts from. */
  ghost predicate Sound(hs: HolderMap, open: map<string, Run>) {
    Keyed(hs) && Exclusive(hs) && RunsNotLegacy(hs) && Owns(hs, open)
  }

  /** When a claim keeps the replays together, in terms of the holders before it. */
  ghost predicate ClaimKeeps(hs: HolderMap, live: HolderMap, lane: string, run: Run) {
    var key := IdKey(lane, run);
    if key in hs then hs[key].lane == lane || exists k :: k in live && live[k].lane == lane && live[k].run.Some?
    else if run.Some? && LEGACY + lane in hs then true
    else if live == map[] then forall k :: k in hs ==> hs[k].lane == lane
    else CanCoholdJoin(lane, live) || exists k :: k in live && live[k].lane == lane
  }

  /** When a comment keeps the replays together: a claim by the rule above; a release with a run unless that
      run holds under another lane; everything else always. */
  ghost predicate Keeps(older: seq<Comment>, hs: HolderMap, c: Comment) {
    match MarkerOf(c)
    case None => true
    case Some(Release(lane, run)) => run.Some? && run.value in hs ==> hs[run.value].lane == lane
    case Some(Claim(lane, run)) => ClaimKeeps(hs, Live(older, hs, c.at), lane, run)
  }

  // ----- the scan seen through `OpenRuns` -----

  function RunsAfterClaim(open: map<string, Run>, lane: string, run: Run, stale: bool): map<string, Run> {
    if lane !in open || (IdKey(lane, open[lane]) != IdKey(lane, run) && (stale || (open[lane].None? && run.Some?)))
    then open[lane := run] else open
  }

  function RunsAfterRelease(open: map<string, Run>, lane: string, run: Run): map<string, Run> {
    if run.None? then map[] else if lane in open && open[lane] == run then open - {lane} else open
  }

  lemma ClaimOpens(s: Scan, lane: string, run: Run, at: Time, stale: bool, end: Option<Time>)
    requires OpenExactly(s)
    ensures OpenRuns(ClaimWindow(s, lane, run, at, stale, end)) == RunsAfterClaim(OpenRuns(s), lane, run, stale)
  {
    hide IdKey;
    if lane in s.open {
      var i, w := s.open[lane], s.out[s.open[lane]];
      SetRun(s, lane, w.(run := run));
      SetRun(s, lane, w.(end := end));
      NewRun(s.(out := s.out[i := w.(end := end)]), lane, run, at);
      hide OpenRuns, OpenExactly, OpenNew;
      assert OpenRuns(s).Keys == s.open.Keys && OpenRuns(s)[lane] == w.run by { RunsOf(s, lane); }
    } else {
      NewRun(s, lane, run, at);
    }
  }

  lemma RunsOf(s: Scan, lane: string)
    requires InRange(s) && lane in s.open
    ensures OpenRuns(s).Keys == s.open.Keys && OpenRuns(s)[lane] == s.out[s.open[lane]].run
  {
  }

  lemma SetRun(s: Scan, lane: string, w: Window)
    requires OpenExactly(s) && lane in s.open
    ensures OpenRuns(s.(out := s.out[s.open[lane] := w])) == OpenRuns(s)[lane := w.run]
  {
    assert forall l :: l in s.open && l != lane ==> s.open[l] != s.open[lane];
  }

  lemma NewRun(s: Scan, lane: string, run: Run, at: Time)
    requires InRange(s)
    ensures OpenRuns(OpenNew(s, lane, run, at)) == OpenRuns(s)[lane := run]
  {
  }

  lemma ReleaseOpens(s: Scan, lane: string, run: Run, at: Time)
    requires OpenExactly(s)
    ensures OpenRuns(CloseAll(s, at)) == map[]
    ensures run.Some? ==> OpenRuns(CloseOwn(s, lane, run, at)) == RunsAfterRelease(OpenRuns(s), lane, run)
  {
  }

  // ----- one claim -----

  /** The open window of `lane` is stale exactly when its holder is not live. */
  ghost predicate Judged(hs: HolderMap, live: HolderMap, open: map<string, Run>, lane: string, stale: bool) {
    Within(live, hs) && (lane in open ==> (stale <==> IdKey(lane, open[lane]) !in live))
  }

  lemma HolderOfRun(hs: HolderMap, lane: string, run: Run)
    requires Keyed(hs) && RunsNotLegacy(hs) && !LegacyName(run) && IdKey(lane, run) in hs
    ensures hs[IdKey(lane, run)].run == run && (run.None? ==> hs[IdKey(lane, run)].lane == lane)
  {
    assert LEGACY <= LEGACY + hs[IdKey(lane, run)].lane;
    if run.None? {
      LegacyKey(hs, lane);
    }
  }

  /** No two holders share a lane. */
  lemma OneOnLane(hs: HolderMap, lane: string, key: string)
    requires Exclusive(hs) && key in hs && hs[key].lane == lane
    ensures forall k :: k in hs && hs[k].lane == lane ==> k == key
  {
  }

  /** One holder replaces whoever was on its lane, and its window theirs. */
  lemma Replaced(hs: HolderMap, rest: HolderMap, open: map<string, Run>, h: Holder)
    requires Owns(hs, open) && Within(rest, hs) && IdKey(h.lane, h.run) !in rest
    requires forall k :: k in hs ==> (k in rest <==> hs[k].lane != h.lane)
    ensures Owns(rest[IdKey(h.lane, h.run) := h], open[h.lane := h.run])
  {
    hide IdKey;
  }

  lemma Removed(hs: HolderMap, open: map<string, Run>, key: string)
    requires Owns(hs, open) && Exclusive(hs) && key in hs
    ensures Owns(Drop(hs, key), open - {hs[key].lane})
  {
    hide IdKey, Exclusive;
    OneOnLane(hs, hs[key].lane, key);
    var hs', open' := Drop(hs, key), open - {hs[key].lane};
    assert forall k :: k in hs' ==> k in hs && hs'[k] == hs[k] && hs[k].lane != hs[key].lane;
  }

  lemma OwnClaim(hs: HolderMap, live: HolderMap, open: map<string, Run>, lane: string, run: Run, at: Time, stale: bool)
    requires Sound(hs, open) && !LegacyName(run) && Judged(hs, live, open, lane, stale)
    requires IdKey(lane, run) in hs
    ensures Owns(OnClaim(hs, live, lane, run, at), RunsAfterClaim(open, lane, run, stale))
       <==> ClaimKeeps(hs, live, lane, run)
  {
    hide LegacyName, CanCoholdJoin, Exclusive, Keyed, RunsNotLegacy, Owns;
    var key := IdKey(lane, run);
    HolderOfRun(hs, lane, run);
    DatesDoNotMatter(hs, key, at, open);
    if hs[key].lane == lane {
      OpenOfHolder(hs, open, key);
    } else {
      SecondLane(hs, key, at, open, lane, run);
      if lane in open {
        var other := IdKey(lane, open[lane]);
        HolderOfOpen(hs, open, lane);
        OneOnLane(hs, lane, other);
        assert RunsAfterClaim(open, lane, run, stale) == if stale || open[lane].None? then open[lane := run] else open;
        assert other in live ==> live[other] == hs[other];
      } else {
        NobodyOnLane(hs, open, lane);
      }
    }
  }

  lemma OpenOfHolder(hs: HolderMap, open: map<string, Run>, key: string)
    requires Owns(hs, open) && key in hs
    ensures hs[key].lane in open && open[hs[key].lane] == hs[key].run
  {
  }

  lemma NobodyOnLane(hs: HolderMap, open: map<string, Run>, lane: string)
    requires Owns(hs, open) && lane !in open
    ensures forall k :: k in hs ==> hs[k].lane != lane
  {
  }

  lemma HolderOfOpen(hs: HolderMap, open: map<string, Run>, lane: string)
    requires Owns(hs, open) && lane in open
    ensures var key := IdKey(lane, open[lane]); key in hs && hs[key].lane == lane && hs[key].run == open[lane]
  {
  }

  lemma DatesDoNotMatter(hs: HolderMap, key: string, at: Time, open: map<string, Run>)
    requires Owns(hs, open) && key in hs
    ensures Owns(hs[key := hs[key].(at := at)], open)
  {
    hide IdKey;
  }

  lemma SecondLane(hs: HolderMap, key: string, at: Time, open: map<string, Run>, lane: string, run: Run)
    requires key in hs && key == IdKey(lane, run) && hs[key].lane != lane
    ensures !Owns(hs[key := hs[key].(at := at)], open[lane := run])
  {
    assert open[lane := run][lane] == run;
  }

  lemma UpgradingClaim(hs: HolderMap, live: HolderMap, open: map<string, Run>, lane: string, run: Run, at: Time,
                       stale: bool)
    requires Sound(hs, open) && !LegacyName(run) && Judged(hs, live, open, lane, stale)
    requires IdKey(lane, run) !in hs && run.Some? && LEGACY + lane in hs
    ensures Owns(OnClaim(hs, live, lane, run, at), RunsAfterClaim(open, lane, run, stale))
  {
    var leg := LEGACY + lane;
    LegacyKey(hs, lane);
    OneOnLane(hs, lane, leg);
    hide LegacyName, CanCoholdJoin, Exclusive;
    Replaced(hs, Drop(hs, leg), open, Holder(lane, run, at));
  }

  lemma FreshClaim(hs: HolderMap, live: HolderMap, open: map<string, Run>, lane: string, run: Run, at: Time,
                   stale: bool)
    requires Sound(hs, open) && !LegacyName(run) && Judged(hs, live, open, lane, stale)
    requires IdKey(lane, run) !in hs && !(run.Some? && LEGACY + lane in hs) && live == map[]
    ensures Owns(OnClaim(hs, live, lane, run, at), RunsAfterClaim(open, lane, run, stale))
       <==> forall k :: k in hs ==> hs[k].lane == lane
  {
    hide LegacyName, CanCoholdJoin, Exclusive;
    var after := RunsAfterClaim(open, lane, run, stale);
    assert after == open[lane := run];
    if k :| k in hs && hs[k].lane != lane {
      assert hs[k].lane in after;
    } else {
      Replaced(hs, map[], open, Holder(lane, run, at));
    }
  }

  lemma JoiningClaim(hs: HolderMap, live: HolderMap, open: map<string, Run>, lane: string, run: Run, at: Time,
                     stale: bool)
    requires Sound(hs, open) && !LegacyName(run) && Judged(hs, live, open, lane, stale)
    requires IdKey(lane, run) !in hs && !(run.Some? && LEGACY + lane in hs)
    requires live != map[] && CanCoholdJoin(lane, live)
    ensures Owns(OnClaim(hs, live, lane, run, at), RunsAfterClaim(open, lane, run, stale))
  {
    hide LegacyName;
    Siblings(hs, live, lane);
    hide Exclusive, CoholdLane, CanCoholdJoin;
    assert RunsAfterClaim(open, lane, run, stale) == open[lane := run];
    Replaced(hs, live, open, Holder(lane, run, at));
  }

  /** Whoever a joining claim drops is on its own lane. */
  lemma Siblings(hs: HolderMap, live: HolderMap, lane: string)
    requires Exclusive(hs) && Within(live, hs) && live != map[] && CanCoholdJoin(lane, live)
    ensures forall k :: k in hs ==> (k in live <==> hs[k].lane != lane)
  {
    var other :| other in live;
  }

  lemma LosingClaim(hs: HolderMap, live: HolderMap, open: map<string, Run>, lane: string, run: Run, at: Time,
                    stale: bool)
    requires Sound(hs, open) && !LegacyName(run) && Judged(hs, live, open, lane, stale)
    requires IdKey(lane, run) !in hs && !(run.Some? && LEGACY + lane in hs)
    requires live != map[] && !CanCoholdJoin(lane, live)
    ensures Owns(OnClaim(hs, live, lane, run, at), RunsAfterClaim(open, lane, run, stale))
       <==> exists k :: k in live && live[k].lane == lane
  {
    hide LegacyName, CanCoholdJoin, Exclusive;
    if lane in open && !stale {
      assert live[IdKey(lane, open[lane])].lane == lane;
    } else {
      assert RunsAfterClaim(open, lane, run, stale)[lane] == run;
    }
  }

  lemma ClaimAgreement(hs: HolderMap, live: HolderMap, open: map<string, Run>, lane: string, run: Run, at: Time,
                       stale: bool)
    requires Sound(hs, open) && !LegacyName(run) && Judged(hs, live, open, lane, stale)
    ensures Owns(OnClaim(hs, live, lane, run, at), RunsAfterClaim(open, lane, run, stale))
       <==> ClaimKeeps(hs, live, lane, run)
  {
    hide LegacyName, CanCoholdJoin, OnClaim, RunsAfterClaim, Owns, Sound, Judged;
    if IdKey(lane, run) in hs {
      OwnClaim(hs, live, open, lane, run, at, stale);
    } else if run.Some? && LEGACY + lane in hs {
      UpgradingClaim(hs, live, open, lane, run, at, stale);
    } else if live == map[] {
      FreshClaim(hs, live, open, lane, run, at, stale);
    } else if CanCoholdJoin(lane, live) {
      JoiningClaim(hs, live, open, lane, run, at, stale);
    } else {
      LosingClaim(hs, live, open, lane, run, at, stale);
    }
  }

  lemma ReleaseAgreement(hs: HolderMap, open: map<string, Run>, lane: string, run: Run)
    requires Sound(hs, open) && !LegacyName(run)
    ensures Owns(OnRelease(hs, run), RunsAfterRelease(open, lane, run))
       <==> (run.Some? && run.value in hs ==> hs[run.value].lane == lane)
  {
    if run.Some? {
      var r := run.value;
      var after := RunsAfterRelease(open, lane, run);
      if r in hs {
        HolderOfRun(hs, lane, run);
        assert OnRelease(hs, run) == Drop(hs, r);
        Removed(hs, open, r);
        hide LegacyName, Exclusive;
        if hs[r].lane != lane {
          assert hs[r].lane in after && IdKey(hs[r].lane, after[hs[r].lane]) == r;
        }
      } else {
        hide LegacyName, Exclusive;
        assert after == open && OnRelease(hs, run) == hs;
      }
    }
  }

  /** From a state in which the replays agree, one comment keeps them in agreement if and only if `Keeps`. */
  lemma AgreementStep(older: seq<Comment>, hs: HolderMap, s: Scan, c: Comment)
    requires OpenExactly(s) && Sound(hs, OpenRuns(s))
    requires MarkerOf(c).Some? ==> !LegacyName(MarkerOf(c).value.run)
    ensures Owns(Step(older, hs, c), OpenRuns(ScanStep(older, s, c))) <==> Keeps(older, hs, c)
  {
    hide ParseMarker, LegacyName, OnClaim, ClaimWindow, CloseAll, CloseOwn, OnRelease, Fresh, StaleEnd;
    hide ClaimKeeps, Keyed, Exclusive, RunsAfterClaim;
    var m := MarkerOf(c);
    if m.Some? {
      var lane, run := m.value.lane, m.value.run;
      if m.value.Claim? {
        var stale := OpenIsStale(older, s, lane, c.at);
        ClaimOpens(s, lane, run, c.at, stale, OpenStaleEnd(older, s, lane));
        ClaimAgreement(hs, Live(older, hs, c.at), OpenRuns(s), lane, run, c.at, stale);
      } else {
        ReleaseOpens(s, lane, run, c.at);
        ReleaseAgreement(hs, OpenRuns(s), lane, run);
      }
    }
  }

  // ----- whole logs -----

  ghost predicate Together(log: seq<Comment>) {
    Owns(Replay(log), OpenRuns(ScanLog(log)))
  }

  lemma StepTogether(log: seq<Comment>, c: Comment)
    requires NoLegacyRuns(log + [c]) && Together(log)
    ensures Together(log + [c]) <==> Keeps(log, Replay(log), c)
  {
    hide ParseMarker, Replay, ScanLog, Owns, Keeps, Step, ScanStep, Keyed, Exclusive, OneOrBothReviewers;
    hide RunsNotLegacy, OpenExactly;
    assert NoLegacyRuns(log) by {
      forall i | 0 <= i < |log| ensures (log + [c])[i] == log[i] {
      }
    }
    assert (log + [c])[|log|] == c;
    MutualExclusion(log);
    ReplayLegacyFree(log);
    OpenInvariant(log);
    ReplayAppend(log, c);
    ScanAppend(log, c);
    AgreementStep(log, Replay(log), ScanLog(log), c);
  }

  /** The replays agree after every comment of a log if and only if every comment meets its condition. */
  lemma {:induction false} AgreementExactly(log: seq<Comment>)
    requires NoLegacyRuns(log)
    ensures (forall j :: 0 <= j <= |log| ==> Together(log[..j]))
       <==> (forall j :: 0 <= j < |log| ==> Keeps(log[..j], Replay(log[..j]), log[j]))
    decreases |log|
  {
    hide Keeps, Replay, ParseMarker, Together;
    if log == [] {
      assert Together(log[..0]) by { NothingAgrees(); }
    } else {
      var n := |log| - 1;
      var init := log[..n];
      assert log == init + [log[n]] && log[..|log|] == log;
      assert NoLegacyRuns(init);
      forall j | 0 <= j <= n ensures init[..j] == log[..j] {
      }
      forall j | 0 <= j < n ensures init[j] == log[j] {
      }
      AgreementExactly(init);
      assert init[..n] == init;
      if Together(init) {
        StepTogether(init, log[n]);
      }
    }
  }

  lemma NothingAgrees()
    ensures Together([])
  {
  }

  /** A RELEASE without a run brings the replays together whatever went before. */
  lemma RunlessReleaseReunites(log: seq<Comment>, c: Comment)
    requires MarkerOf(c).Some? && MarkerOf(c).value.Release? && MarkerOf(c).value.run.None?
    ensures Together(log + [c])
  {
    hide ParseMarker;
    ReplayAppend(log, c);
    ScanAppend(log, c);
  }

  // ----- one lane -----

  ghost predicate OneLane(log: seq<Comment>, lane: string) {
    forall i :: 0 <= i < |log| && MarkerOf(log[i]).Some? ==> MarkerOf(log[i]).value.lane == lane
  }

  ghost predicate AllOn(hs: HolderMap, lane: string) {
    forall k :: k in hs ==> hs[k].lane == lane
  }

  lemma StaysOnLane(older: seq<Comment>, hs: HolderMap, c: Comment, lane: string)
    requires AllOn(hs, lane) && (MarkerOf(c).Some? ==> MarkerOf(c).value.lane == lane)
    ensures AllOn(Step(older, hs, c), lane) && Keeps(older, hs, c)
  {
    hide ParseMarker, Fresh, CanCoholdJoin;
    var live := Live(older, hs, c.at);
    if live != map[] {
      var k :| k in live;
      assert live[k].lane == lane;
    }
  }

  /** On a log of one lane the replays always agree, and at most one identity holds. */
  lemma {:induction false} ReplaysAgree(log: seq<Comment>, lane: string)
    requires OneLane(log, lane) && NoLegacyRuns(log)
    ensures Together(log) && AllOn(Replay(log), lane) && ScanLog(log).open.Keys <= {lane}
    ensures forall a, b :: a in Replay(log) && b in Replay(log) ==> a == b
    decreases |log|
  {
    hide ParseMarker, Step, ScanStep, Keeps, RunsNotLegacy, OneOrBothReviewers;
    if log == [] {
      NothingAgrees();
    } else {
      var n := |log| - 1;
      var init := log[..n];
      assert OneLane(init, lane) && NoLegacyRuns(init) && init + [log[n]] == log;
      ReplaysAgree(init, lane);
      StaysOnLane(init, Replay(init), log[n], lane);
      StepTogether(init, log[n]);
      MutualExclusion(log);
      forall l | l in ScanLog(log).open ensures l == lane {
        assert l in OpenRuns(ScanLog(log));
      }
    }
  }

  /** Where the replays agree, a window of the output has a null end exactly when it is the open window of a
      live holder; every live holder has one, so the output vouches for nobody exactly when nobody is live. */
  lemma NullEndIsLiveHolder(log: seq<Comment>, now: Time)
    requires Together(log) && !Raises(log)
    ensures forall i :: 0 <= i < |WindowList(log, now)| ==>
      var w := WindowList(log, now)[i];
      (w.end.None? <==> ScanLog(log).out[i].end.None? && IdKey(w.lane, w.run) in Live(log, Replay(log), now))
    ensures forall k :: k in Live(log, Replay(log), now) ==>
      exists i :: 0 <= i < |WindowList(log, now)| && WindowList(log, now)[i].end.None?
                  && WindowList(log, now)[i].lane == Replay(log)[k].lane
                  && WindowList(log, now)[i].run == Replay(log)[k].run
    ensures Live(log, Replay(log), now) == map[] <==>
      forall i :: 0 <= i < |WindowList(log, now)| ==> WindowList(log, now)[i].end.Some?
  {
    hide ScanLog, Replay, LastHit, IdKey;
    OpenInvariant(log);
    var s, ws, live := ScanLog(log), WindowList(log, now), Live(log, Replay(log), now);
    forall i | 0 <= i < |ws|
      ensures ws[i].end.None? <==> s.out[i].end.None? && IdKey(ws[i].lane, ws[i].run) in live
    {
      if s.out[i].end.None? {
        assert s.out[i].lane in OpenRuns(s) && s.open[s.out[i].lane] == i;
      }
    }
    forall k | k in live
      ensures exists i :: 0 <= i < |ws| && ws[i].end.None? && ws[i].lane == live[k].lane && ws[i].run == live[k].run
    {
      assert live[k].lane in OpenRuns(s);
      var i := s.open[live[k].lane];
      assert ws[i].end.None?;
    }
  }

  // ----- how they part -----

  /** A claim that loses changes no holder, yet opens a window exactly when its own lane has none open or a
      stale one of a different run. */
  lemma LoserStillOpensWindow(log: seq<Comment>, c: Comment, lane: string, run: Run)
    requires MarkerOf(c) == Some(Claim(lane, run))
    requires IdKey(lane, run) !in Replay(log) && !(run.Some? && LEGACY + lane in Replay(log))
    requires Live(log, Replay(log), c.at) != map[] && !CanCoholdJoin(lane, Live(log, Replay(log), c.at))
    ensures Replay(log + [c]) == Replay(log)
    ensures |ScanLog(log + [c]).out| == |ScanLog(log).out| + 1 <==>
      var s := ScanLog(log);
      lane !in s.open ||
      (var w := s.out[s.open[lane]];
       w.run.Some? && IdKey(lane, w.run) != IdKey(lane, run) && OpenIsStale(log, s, lane, c.at))
  {
    hide ParseMarker, Replay, ScanLog, Fresh, StaleEnd, CoholdLane;
    ReplayAppend(log, c);
    ScanAppend(log, c);
  }

  /** A holder's own run that claims under a lane with no window keeps its holding and gains a second window. */
  lemma SecondWindow(log: seq<Comment>, c: Comment, lane: string, run: string)
    requires MarkerOf(c) == Some(Claim(lane, Some(run))) && run in Replay(log) && lane !in ScanLog(log).open
    ensures Replay(log + [c]) == Replay(log)[run := Replay(log)[run].(at := c.at)]
    ensures ScanLog(log + [c]).out == ScanLog(log).out + [Window(lane, Some(run), c.at, None)]
  {
    hide ParseMarker, Replay, ScanLog;
    ReplayAppend(log, c);
    ScanAppend(log, c);
  }

  /** A RELEASE naming the holder's run under another lane dissolves the holder but leaves its window open. */
  lemma ReleaseUnderOtherLane(log: seq<Comment>, c: Comment, lane: string, other: string, run: string)
    requires MarkerOf(c) == Some(Release(other, Some(run))) && other != lane
    requires HoldsRun(Replay(log), run)
    requires lane in ScanLog(log).open && ScanLog(log).out[ScanLog(log).open[lane]].run == Some(run)
    ensures run !in Replay(log + [c])
    ensures lane in ScanLog(log + [c]).open
    ensures ScanLog(log + [c]).out[ScanLog(log + [c]).open[lane]] == ScanLog(log).out[ScanLog(log).open[lane]]
  {
    hide ParseMarker, Replay, ScanLog;
    OpenInvariant(log);
    ReplayAppend(log, c);
    ScanAppend(log, c);
  }

  /** `c`, a new identity, takes the ticket over from holders that are all stale, `key` among them. */
  ghost predicate TakenOver(log: seq<Comment>, c: Comment, key: string, h: Holder) {
    var hs := Replay(log);
    && MarkerOf(c) == Some(Claim(h.lane, h.run)) && c.at == h.at && !LegacyName(h.run)
    && IdKey(h.lane, h.run) !in hs && !(h.run.Some? && LEGACY + h.lane in hs)
    && Live(log, hs, c.at) == map[] && key in hs
  }

  lemma TakeoverHolds(log: seq<Comment>, c: Comment, key: string, h: Holder)
    requires TakenOver(log, c, key, h)
    ensures Replay(log + [c]) == map[IdKey(h.lane, h.run) := h] && key !in Replay(log + [c])
  {
    hide ParseMarker, Replay, CanCoholdJoin, LegacyName;
    ReplayAppend(log, c);
  }

  /** At a takeover the lost holder is gone; its window gets an end, where it stopped vouching before the takeover,
      if and only if its lane is the taker's, and otherwise stays open as it was. */
  lemma TakeoverEndsWindow(log: seq<Comment>, c: Comment, key: string, h: Holder)
    requires Together(log) && TakenOver(log, c, key, h)
    ensures Replay(log + [c]) == map[IdKey(h.lane, h.run) := h] && key !in Replay(log + [c])
    ensures var s, s', o := ScanLog(log), ScanLog(log + [c]), Replay(log)[key];
      && o.lane in s.open && s.open[o.lane] < |s'.out| && s.out[s.open[o.lane]].run == o.run
      && var w, w' := s.out[s.open[o.lane]], s'.out[s.open[o.lane]];
         && (w'.end.Some? <==> o.lane == h.lane)
         && w' == if o.lane == h.lane then w.(end := StaleEnd(log, o.lane, o.run)) else w
  {
    hide ParseMarker, Replay, ScanLog, CanCoholdJoin, LegacyName, LastHit, Opens;
    var s, o := ScanLog(log), Replay(log)[key];
    TakeoverHolds(log, c, key, h);
    OpenInvariant(log);
    ReplayKeyed(log);
    ScanAppend(log, c);
    StepPerWindow(log, s, c);
    assert o.lane in OpenRuns(s);
    var w := s.out[s.open[o.lane]];
    assert w.lane == o.lane && w.run == o.run && w.end.None?;
    assert key !in Live(log, Replay(log), c.at);
    assert w.run.Some? ==> StaleEnd(log, w.lane, w.run).Some?;
  }

  /** The stale holder of another lane is gone, and its window stays open as it was. */
  lemma TakeoverLeavesWindow(log: seq<Comment>, c: Comment, key: string, h: Holder)
    requires Together(log) && TakenOver(log, c, key, h) && Replay(log)[key].lane != h.lane
    ensures var s, s', lost := ScanLog(log), ScanLog(log + [c]), Replay(log)[key].lane;
      && lost in s.open && lost in s'.open && s'.open[lost] == s.open[lost]
      && s'.out[s'.open[lost]] == s.out[s.open[lost]] && s.out[s.open[lost]].run == Replay(log)[key].run
  {
    hide Replay, ScanLog, Together, TakenOver;
    TakeoverEndsWindow(log, c, key, h);
    OpenInvariant(log);
    OpenInvariant(log + [c]);
  }

  /** A heartbeat of the lost run, posted after such a takeover, moves no holder; but its window, which no
      longer has one, is stretched to a full stale period after that heartbeat. */
  lemma ZombieStretchesWindow(log: seq<Comment>, c: Comment, z: Comment, key: string, h: Holder, now: Time)
    requires Together(log) && TakenOver(log, c, key, h) && !Anonymous(c.body)
    requires var o := Replay(log)[key];
      o.lane != h.lane && o.run.Some? && !LegacyName(o.run) && !Partners(o.lane, h.lane) && o.run != h.run
      && MarkerOf(z) == Some(Claim(o.lane, o.run)) && z.at - c.at <= STALE
    requires now - z.at > STALE
    ensures Replay(log + [c] + [z]) == map[IdKey(h.lane, h.run) := h]
    ensures var o, i := Replay(log)[key], ScanLog(log).open[Replay(log)[key].lane];
      && i < |WindowList(log + [c] + [z], now)|
      && WindowList(log + [c] + [z], now)[i]
         == Window(o.lane, o.run, ScanLog(log).out[i].start, Some((z.at + STALE) / 1000 * 1000))
  {
    hide MarkerOf, Replay, ScanLog, LegacyName, LastHit, Anonymous, Together, WindowList, Live, CoholdLane, OpenExactly;
    TakeoverHolds(log, c, key, h);
    TakeoverLeavesWindow(log, c, key, h);
    OwnMarkerHits(log, c);
    ZombieIsInert(log + [c], z, h, Replay(log)[key]);
    LateWordStretches(log + [c], z, Replay(log)[key].lane, Replay(log)[key].run, now);
    OpenInvariant(log);
    OpenIsNull(ScanLog(log), Replay(log)[key].lane);
  }

  lemma OpenIsNull(s: Scan, lane: string)
    requires OpenExactly(s) && lane in s.open
    ensures s.out[s.open[lane]].lane == lane && s.out[s.open[lane]].end.None?
  {
  }

  lemma LateWordStretches(log: seq<Comment>, z: Comment, lane: string, run: Run, now: Time)
    requires lane in ScanLog(log).open && ScanLog(log).out[ScanLog(log).open[lane]].run == run && run.Some?
    requires MarkerOf(z) == Some(Claim(lane, run)) && now - z.at > STALE
    ensures var i := ScanLog(log).open[lane];
      i < |WindowList(log + [z], now)|
      && WindowList(log + [z], now)[i] == ScanLog(log).out[i].(end := Some((z.at + STALE) / 1000 * 1000))
  {
    hide ParseMarker, ScanLog, LastHit, IdentityHit;
    OpenInvariant(log);
    OwnMarkerHits(log, z);
    ScanAppend(log, z);
  }

  lemma ZombieIsInert(log: seq<Comment>, z: Comment, h: Holder, o: Holder)
    requires Replay(log) == map[IdKey(h.lane, h.run) := h] && Fresh(log, h.lane, h.run, z.at)
    requires MarkerOf(z) == Some(Claim(o.lane, o.run)) && !LegacyName(h.run)
    requires o.run.Some? && !LegacyName(o.run) && o.run != h.run && o.lane != h.lane && !Partners(o.lane, h.lane)
    ensures Replay(log + [z]) == Replay(log)
  {
    hide ParseMarker, Fresh, CoholdLane;
    var hs, key := Replay(log), IdKey(h.lane, h.run);
    StepClaim(log, z, Holder(o.lane, o.run, z.at));
    LiveIsAll(log, hs, z.at);
    assert LEGACY <= LEGACY + h.lane && LEGACY <= LEGACY + o.lane;
    assert (LEGACY + h.lane)[|LEGACY|..] == h.lane && (LEGACY + o.lane)[|LEGACY|..] == o.lane;
    assert key in hs && hs[key] == h;
  }
}
