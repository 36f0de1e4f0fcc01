/** `windows()`: the claim intervals of a ticket, one open interval per lane name.
    `ScanLog` is the left fold over the chronological log. */
module Windows {
  import opened Text
  import opened Markers
  import opened Log
  import opened Holders

  /** `end` is `None` for the script's null end. */
  datatype Window = Window(lane: string, run: Run, start: Time, end: Option<Time>)

  /** `out` in order of opening; `open` gives the index of each lane's open window. */
  datatype Scan = Scan(out: seq<Window>, open: map<string, nat>)

  ghost predicate InRange(s: Scan) {
    forall lane :: lane in s.open ==> s.open[lane] < |s.out|
  }

  /** Last refreshing comment plus the stale limit, cut to whole milliseconds;
      `None` where the script's `next()` finds nothing and raises. */
  function StaleEnd(log: seq<Comment>, lane: string, run: Run): Option<Time> {
    var last := LastHit(log, lane, run);
    if last.Some? then Some((last.value + STALE) / 1000 * 1000) else None
  }

  function Close(w: Window, at: Time): Window {
    w.(end := Some(at))
  }

  /** A run-less RELEASE. */
  function CloseAll(s: Scan, at: Time): Scan {
    var out := s.out;
    Scan(seq(|out|, i requires 0 <= i < |out| => if i in s.open.Values then Close(out[i], at) else out[i]), map[])
  }

  /** A RELEASE of `run` closes only its own lane's window, and only if that run opened or upgraded it. */
  function CloseOwn(s: Scan, lane: string, run: Run, at: Time): Scan
    requires InRange(s)
  {
    if lane in s.open && s.out[s.open[lane]].run == run
    then Scan(s.out[s.open[lane] := Close(s.out[s.open[lane]], at)], map l | l in s.open && l != lane :: s.open[l])
    else s
  }

  function OpenNew(s: Scan, lane: string, run: Run, at: Time): Scan {
    Scan(s.out + [Window(lane, run, at, None)], s.open[lane := |s.out|])
  }

  /** A CLAIM. `stale` and `staleEnd` speak of the lane's open window, judged before the claim. */
  function ClaimWindow(s: Scan, lane: string, run: Run, at: Time, stale: bool, staleEnd: Option<Time>): Scan
    requires InRange(s)
  {
    if lane !in s.open then OpenNew(s, lane, run, at)
    else
      var i := s.open[lane];
      var w := s.out[i];
      if IdKey(lane, w.run) == IdKey(lane, run) then s
      else if w.run.None? && run.Some? then s.(out := s.out[i := w.(run := run)])
      else if stale then OpenNew(s.(out := s.out[i := w.(end := staleEnd)]), lane, run, at)
      else s
  }

  /** Whether the open window of `lane` no longer vouches at `at`, and where it then ends. */
  predicate OpenIsStale(older: seq<Comment>, s: Scan, lane: string, at: Time)
    requires InRange(s)
  {
    lane in s.open && !Fresh(older, s.out[s.open[lane]].lane, s.out[s.open[lane]].run, at)
  }

  function OpenStaleEnd(older: seq<Comment>, s: Scan, lane: string): Option<Time>
    requires InRange(s)
  {
    if lane in s.open then StaleEnd(older, s.out[s.open[lane]].lane, s.out[s.open[lane]].run) else None
  }

  function ScanStep(older: seq<Comment>, s: Scan, c: Comment): (s': Scan)
    requires InRange(s)
    ensures InRange(s')
  {
    match MarkerOf(c)
    case None => s
    case Some(Release(lane, run)) => if run.None? then CloseAll(s, c.at) else CloseOwn(s, lane, run, c.at)
    case Some(Claim(lane, run)) =>
      ClaimWindow(s, lane, run, c.at, OpenIsStale(older, s, lane, c.at), OpenStaleEnd(older, s, lane))
  }

  function ScanLog(log: seq<Comment>): (s: Scan)
    ensures InRange(s)
    decreases |log|
  {
    if log == [] then Scan([], map[])
    else ScanStep(log[..|log| - 1], ScanLog(log[..|log| - 1]), log[|log| - 1])
  }

  lemma ScanAppend(log: seq<Comment>, c: Comment)
    ensures ScanLog(log + [c]) == ScanStep(log, ScanLog(log), c)
  {
  }

  /** The closing pass over the windows that are still open. */
  function Settle(log: seq<Comment>, w: Window, now: Time): Window {
    if w.end.None? && !Fresh(log, w.lane, w.run, now) then w.(end := StaleEnd(log, w.lane, w.run)) else w
  }

  function WindowList(log: seq<Comment>, now: Time): (ws: seq<Window>)
    ensures |ws| == |ScanLog(log).out|
    ensures forall i :: 0 <= i < |ws| ==> ws[i] == Settle(log, ScanLog(log).out[i], now)
  {
    var out := ScanLog(log).out;
    seq(|out|, i requires 0 <= i < |out| => Settle(log, out[i], now))
  }

  /** `windows()` raises: an open window whose identity was never seen has to be settled. */
  ghost predicate Raises(log: seq<Comment>) {
    exists i :: 0 <= i < |ScanLog(log).out| &&
      var w := ScanLog(log).out[i]; w.end.None? && LastHit(log, w.lane, w.run).None?
  }

  // ----- open windows: exactly the values of `open`, one per lane -----

  ghost predicate OpenExactly(s: Scan) {
    && InRange(s)
    && (forall lane :: lane in s.open ==> s.out[s.open[lane]].lane == lane && s.out[s.open[lane]].end.None?)
    && (forall i :: 0 <= i < |s.out| && s.out[i].end.None? ==>
          s.out[i].lane in s.open && s.open[s.out[i].lane] == i)
  }

  /** What may still happen to a window: nothing once it has an end, and never to its lane or start. */
  ghost predicate Extends(s: Scan, s': Scan) {
    && |s.out| <= |s'.out|
    && forall i :: 0 <= i < |s.out| ==>
         && s'.out[i].lane == s.out[i].lane && s'.out[i].start == s.out[i].start
         && (s.out[i].end.Some? ==> s'.out[i] == s.out[i])
  }

  lemma ClaimOpen(s: Scan, lane: string, run: Run, at: Time, stale: bool, staleEnd: Option<Time>)
    requires OpenExactly(s)
    requires lane in s.open && stale && s.out[s.open[lane]].run.Some? ==> staleEnd.Some?
    ensures OpenExactly(ClaimWindow(s, lane, run, at, stale, staleEnd))
    ensures Extends(s, ClaimWindow(s, lane, run, at, stale, staleEnd))
  {
    if lane !in s.open {
      NewOpen(s, lane, run, at);
    } else {
      var i, w := s.open[lane], s.out[s.open[lane]];
      if IdKey(lane, w.run) == IdKey(lane, run) {
      } else if w.run.None? && run.Some? {
        hide IdKey;
      } else if stale {
        ReplacedOpen(s, lane, staleEnd.value, run, at);
      }
    }
  }

  lemma NewOpen(s: Scan, lane: string, run: Run, at: Time)
    requires OpenExactly(s) && lane !in s.open
    ensures OpenExactly(OpenNew(s, lane, run, at)) && Extends(s, OpenNew(s, lane, run, at))
  {
  }

  lemma ReplacedOpen(s: Scan, lane: string, end: Time, run: Run, at: Time)
    requires OpenExactly(s) && lane in s.open
    ensures var s' := OpenNew(s.(out := s.out[s.open[lane] := Close(s.out[s.open[lane]], end)]), lane, run, at);
      OpenExactly(s') && Extends(s, s')
  {
  }

  lemma ReleaseOpen(s: Scan, lane: string, run: Run, at: Time)
    requires OpenExactly(s)
    ensures OpenExactly(CloseAll(s, at)) && Extends(s, CloseAll(s, at))
    ensures OpenExactly(CloseOwn(s, lane, run, at)) && Extends(s, CloseOwn(s, lane, run, at))
  {
    var s' := CloseAll(s, at);
    forall i | 0 <= i < |s.out| ensures i in s.open.Values <==> s.out[i].end.None? {
      if s.out[i].end.None? {
        assert s.open[s.out[i].lane] == i;
      }
    }
    assert OpenExactly(s');
  }

  /** Every open window with a run has been posted to by that run. */
  ghost predicate RunsSeen(log: seq<Comment>, s: Scan) {
    forall i :: 0 <= i < |s.out| && s.out[i].end.None? && s.out[i].run.Some? ==>
      LastHit(log, s.out[i].lane, s.out[i].run).Some?
  }

  lemma SeenClaim(older: seq<Comment>, s: Scan, c: Comment, lane: string, run: Run, stale: bool, staleEnd: Option<Time>)
    requires OpenExactly(s) && RunsSeen(older, s)
    requires MarkerOf(c) == Some(Claim(lane, run))
    ensures RunsSeen(older + [c], ClaimWindow(s, lane, run, c.at, stale, staleEnd))
  {
    hide LastHit, IdentityHit, ParseMarker;
    var s' := ClaimWindow(s, lane, run, c.at, stale, staleEnd);
    if run.Some? {
      OwnMarkerHits(older, c);
    }
    forall i | 0 <= i < |s'.out| && s'.out[i].end.None? && s'.out[i].run.Some?
      ensures LastHit(older + [c], s'.out[i].lane, s'.out[i].run).Some?
    {
      LastHitAppend(older, c, s'.out[i].lane, s'.out[i].run);
    }
  }

  lemma SeenStep(older: seq<Comment>, s: Scan, c: Comment)
    requires OpenExactly(s) && RunsSeen(older, s)
    ensures RunsSeen(older + [c], ScanStep(older, s, c))
  {
    hide LastHit, IdentityHit, ParseMarker;
    var m := MarkerOf(c);
    if m.Some? && m.value.Claim? {
      var lane := m.value.lane;
      SeenClaim(older, s, c, lane, m.value.run, OpenIsStale(older, s, lane, c.at), OpenStaleEnd(older, s, lane));
    } else {
      var s' := ScanStep(older, s, c);
      forall i | 0 <= i < |s'.out| && s'.out[i].end.None? && s'.out[i].run.Some?
        ensures LastHit(older + [c], s'.out[i].lane, s'.out[i].run).Some?
      {
        LastHitAppend(older, c, s'.out[i].lane, s'.out[i].run);
      }
    }
  }

  lemma OpenStep(older: seq<Comment>, s: Scan, c: Comment)
    requires OpenExactly(s) && RunsSeen(older, s)
    ensures OpenExactly(ScanStep(older, s, c)) && Extends(s, ScanStep(older, s, c))
  {
    hide LastHit, ParseMarker, ClaimWindow, CloseAll, CloseOwn;
    var m := MarkerOf(c);
    if m.Some? && m.value.Claim? {
      var lane := m.value.lane;
      ClaimOpen(s, lane, m.value.run, c.at, OpenIsStale(older, s, lane, c.at), OpenStaleEnd(older, s, lane));
    } else if m.Some? {
      ReleaseOpen(s, m.value.lane, m.value.run, c.at);
    }
  }

  /** Throughout the scan of any log the windows with no end are exactly the values of `open`. */
  lemma {:induction false} OpenInvariant(log: seq<Comment>)
    ensures OpenExactly(ScanLog(log)) && RunsSeen(log, ScanLog(log))
    decreases |log|
  {
    if log != [] {
      hide LastHit, ScanStep;
      var n := |log| - 1;
      OpenInvariant(log[..n]);
      OpenStep(log[..n], ScanLog(log[..n]), log[n]);
      SeenStep(log[..n], ScanLog(log[..n]), log[n]);
      assert log[..n] + [log[n]] == log;
    }
  }

  // ----- finality -----

  lemma {:induction false} ScanExtends(log: seq<Comment>, ext: seq<Comment>)
    ensures Extends(ScanLog(log), ScanLog(log + ext))
    decreases |ext|
  {
    hide ScanStep, OpenExactly, RunsSeen;
    if ext == [] {
      assert log + ext == log;
    } else {
      var n := |ext| - 1;
      var mid := log + ext[..n];
      ScanExtends(log, ext[..n]);
      SplitLast(log, ext);
      ScanAppend(mid, ext[n]);
      OpenInvariant(mid);
      OpenStep(mid, ScanLog(mid), ext[n]);
    }
  }

  /** A window closed by a RELEASE or a takeover is final: it reads the same, at the same place,
      in the output for every later log and every later moment. */
  lemma ClosedWindowIsFinal(log: seq<Comment>, ext: seq<Comment>, i: nat, now: Time, later: Time)
    requires i < |ScanLog(log).out| && ScanLog(log).out[i].end.Some?
    ensures i < |WindowList(log + ext, later)|
    ensures WindowList(log, now)[i] == ScanLog(log).out[i] == WindowList(log + ext, later)[i]
  {
    hide ScanLog, Fresh;
    ScanExtends(log, ext);
  }

  // ----- what ends a window -----

  /** What comment `c`, posted after `older`, does to one open window, whatever else is open. */
  function After(older: seq<Comment>, c: Comment, w: Window): Window {
    match MarkerOf(c)
    case None => w
    case Some(Release(lane, run)) => if run.None? || (w.lane == lane && w.run == run) then Close(w, c.at) else w
    case Some(Claim(lane, run)) =>
      if w.lane != lane || IdKey(lane, w.run) == IdKey(lane, run) then w
      else if w.run.None? then w.(run := run)
      else if Fresh(older, w.lane, w.run, c.at) then w
      else w.(end := StaleEnd(older, w.lane, w.run))
  }

  /** `c` ends the open window `w`: a RELEASE without a run, or of its lane and run; or a CLAIM of its lane by another
      identity, when its run is stale. */
  predicate Ends(older: seq<Comment>, c: Comment, w: Window) {
    match MarkerOf(c)
    case None => false
    case Some(Release(lane, run)) => run.None? || (lane == w.lane && run == w.run)
    case Some(Claim(lane, run)) =>
      && lane == w.lane && w.run.Some? && IdKey(lane, run) != IdKey(lane, w.run)
      && !Fresh(older, w.lane, w.run, c.at)
  }

  lemma AfterEnds(older: seq<Comment>, c: Comment, w: Window)
    requires w.end.None? && (w.run.Some? ==> LastHit(older, w.lane, w.run).Some?)
    ensures After(older, c, w).end.Some? <==> Ends(older, c, w)
  {
    hide ParseMarker, LastHit, Fresh;
  }

  /** `c` opens a window: its lane has none, or a stale one of another run. */
  ghost predicate Opens(older: seq<Comment>, s: Scan, c: Comment)
    requires InRange(s)
  {
    var m := MarkerOf(c);
    && m.Some? && m.value.Claim?
    && (m.value.lane in s.open ==> Ends(older, c, s.out[s.open[m.value.lane]]))
  }

  lemma ClaimPerWindow(older: seq<Comment>, s: Scan, c: Comment, lane: string, run: Run)
    requires OpenExactly(s) && RunsSeen(older, s) && MarkerOf(c) == Some(Claim(lane, run))
    ensures var s' := ClaimWindow(s, lane, run, c.at, OpenIsStale(older, s, lane, c.at), OpenStaleEnd(older, s, lane));
      && |s'.out| == |s.out| + (if Opens(older, s, c) then 1 else 0)
      && (Opens(older, s, c) ==> s'.out[|s.out|] == Window(lane, run, c.at, None))
      && forall i :: 0 <= i < |s.out| ==>
           s'.out[i] == if s.out[i].end.None? then After(older, c, s.out[i]) else s.out[i]
  {
    hide LastHit, Fresh, ParseMarker;
    if lane in s.open {
      var i, w := s.open[lane], s.out[s.open[lane]];
      assert w.lane == lane && w.end.None?;
      assert w.run.Some? ==> StaleEnd(older, w.lane, w.run).Some?;
      AfterEnds(older, c, w);
    }
  }

  lemma ReleasePerWindow(s: Scan, lane: string, run: Run, at: Time, i: nat)
    requires OpenExactly(s) && i < |s.out|
    ensures CloseAll(s, at).out[i] == if s.out[i].end.None? then Close(s.out[i], at) else s.out[i]
    ensures CloseOwn(s, lane, run, at).out[i] ==
      if s.out[i].end.None? && s.out[i].lane == lane && s.out[i].run == run then Close(s.out[i], at) else s.out[i]
  {
  }

  /** The scan, window by window: closed ones stand still, each open one follows `After`, and at most one
      window is added, dated by the claim that opens it. */
  lemma StepPerWindow(older: seq<Comment>, s: Scan, c: Comment)
    requires OpenExactly(s) && RunsSeen(older, s)
    ensures var s' := ScanStep(older, s, c);
      && |s'.out| == |s.out| + (if Opens(older, s, c) then 1 else 0)
      && (Opens(older, s, c) ==>
            s'.out[|s.out|] == Window(MarkerOf(c).value.lane, MarkerOf(c).value.run, c.at, None))
      && forall i :: 0 <= i < |s.out| ==>
           s'.out[i] == if s.out[i].end.None? then After(older, c, s.out[i]) else s.out[i]
  {
    hide ParseMarker, LastHit, Fresh, OpenIsStale, OpenStaleEnd, ClaimWindow, StaleEnd, RunsSeen;
    var m := MarkerOf(c);
    if m.Some? && m.value.Claim? {
      ClaimPerWindow(older, s, c, m.value.lane, m.value.run);
    } else if m.Some? {
      hide CloseAll, CloseOwn;
      var s' := ScanStep(older, s, c);
      ReleaseKeepsLength(s, m.value.lane, m.value.run, c.at);
      forall i | 0 <= i < |s.out|
        ensures s'.out[i] == if s.out[i].end.None? then After(older, c, s.out[i]) else s.out[i]
      {
        ReleasePerWindow(s, m.value.lane, m.value.run, c.at, i);
      }
    }
  }

  lemma EndsExactly(older: seq<Comment>, s: Scan, c: Comment, i: nat)
    requires OpenExactly(s) && RunsSeen(older, s) && i < |s.out| && s.out[i].end.None?
    ensures |s.out| <= |ScanStep(older, s, c).out|
    ensures ScanStep(older, s, c).out[i].end.Some? <==> Ends(older, c, s.out[i])
  {
    hide ScanStep, After, Ends, Opens, LastHit;
    StepPerWindow(older, s, c);
    AfterEnds(older, c, s.out[i]);
  }

  lemma ReleaseKeepsLength(s: Scan, lane: string, run: Run, at: Time)
    requires InRange(s)
    ensures |CloseAll(s, at).out| == |CloseOwn(s, lane, run, at).out| == |s.out|
  {
  }

  /** A window open after `k` comments is still open at the end exactly when none of the later comments ends it. */
  lemma {:induction false} OpenMeansNeverEnded(log: seq<Comment>, k: nat, i: nat)
    requires k <= |log| && i < |ScanLog(log[..k]).out| && ScanLog(log[..k]).out[i].end.None?
    ensures i < |ScanLog(log).out|
    ensures ScanLog(log).out[i].end.None? <==>
      forall j :: k <= j < |log| ==>
        i < |ScanLog(log[..j]).out| && !Ends(log[..j], log[j], ScanLog(log[..j]).out[i])
    decreases |log|
  {
    hide ScanStep, Ends, OpenExactly, RunsSeen;
    if k == |log| {
      assert log[..k] == log;
    } else {
      var n := |log| - 1;
      var init := log[..n];
      assert init[..k] == log[..k] && log == init + [log[n]];
      forall j | k <= j < n ensures init[..j] == log[..j] && init[j] == log[j] {
      }
      OpenMeansNeverEnded(init, k, i);
      ScanAppend(init, log[n]);
      OpenInvariant(init);
      if ScanLog(init).out[i].end.None? {
        EndsExactly(init, ScanLog(init), log[n], i);
      } else {
        OpenStep(init, ScanLog(init), log[n]);
        var j :| k <= j < n && !(i < |ScanLog(init[..j]).out| && !Ends(init[..j], init[j], ScanLog(init[..j]).out[i]));
        assert !(i < |ScanLog(log[..j]).out| && !Ends(log[..j], log[j], ScanLog(log[..j]).out[i]));
      }
    }
  }

  /** A null end in the output says: no comment released or took over the window, and its identity has
      posted within the stale limit of now. */
  lemma NullEndExactly(log: seq<Comment>, k: nat, i: nat, now: Time)
    requires k <= |log| && i < |ScanLog(log[..k]).out| && ScanLog(log[..k]).out[i].end.None?
    requires !Raises(log)
    ensures i < |WindowList(log, now)|
    ensures WindowList(log, now)[i].end.None? <==>
      && (forall j :: k <= j < |log| ==>
            i < |ScanLog(log[..j]).out| && !Ends(log[..j], log[j], ScanLog(log[..j]).out[i]))
      && Fresh(log, ScanLog(log).out[i].lane, ScanLog(log).out[i].run, now)
  {
    hide ScanLog, Ends, LastHit;
    OpenMeansNeverEnded(log, k, i);
  }

  // ----- totality -----

  lemma {:induction false} NeverHit(log: seq<Comment>, lane: string)
    ensures LastHit(log, lane, None).None? <==>
      forall j :: 0 <= j < |log| ==> !Contains(log[j].body, "lane=" + lane)
    decreases |log|
  {
    hide Contains;
    if log != [] {
      NeverHit(log[..|log| - 1], lane);
    }
  }

  /** Open run-less windows have been posted to, unless their lane is the placeholder. */
  ghost predicate LanesSeen(log: seq<Comment>, s: Scan) {
    forall i :: 0 <= i < |s.out| && s.out[i].end.None? && s.out[i].lane != "unknown" ==>
      LastHit(log, s.out[i].lane, s.out[i].run).Some?
  }

  lemma AnonymousIsUnknown(body: string)
    requires Anonymous(body)
    ensures ParseMarker(body).value.lane == "unknown"
  {
  }

  lemma LanesSeenStep(older: seq<Comment>, s: Scan, c: Comment)
    requires OpenExactly(s) && LanesSeen(older, s)
    ensures LanesSeen(older + [c], ScanStep(older, s, c))
  {
    hide LastHit, IdentityHit, ParseMarker, Fresh;
    var m := MarkerOf(c);
    var s' := ScanStep(older, s, c);
    if m.Some? {
      if Anonymous(c.body) {
        AnonymousIsUnknown(c.body);
      } else {
        OwnMarkerHits(older, c);
      }
    }
    forall i | 0 <= i < |s'.out| && s'.out[i].end.None? && s'.out[i].lane != "unknown"
      ensures LastHit(older + [c], s'.out[i].lane, s'.out[i].run).Some?
    {
      LastHitAppend(older, c, s'.out[i].lane, s'.out[i].run);
    }
  }

  lemma {:induction false} LanesSeenInvariant(log: seq<Comment>)
    ensures LanesSeen(log, ScanLog(log))
    decreases |log|
  {
    if log != [] {
      hide LastHit, ScanStep, OpenExactly, LanesSeen, RunsSeen;
      var n := |log| - 1;
      LanesSeenInvariant(log[..n]);
      OpenInvariant(log[..n]);
      LanesSeenStep(log[..n], ScanLog(log[..n]), log[n]);
      assert log[..n] + [log[n]] == log;
    } else {
      assert ScanLog(log).out == [];
    }
  }

  /** `windows()` fails for exactly one reason: a CLAIM with neither run nor lane opened a window that is
      still open, and no comment carries the text `lane=unknown`. The takeover branch never fails. */
  lemma RaisesExactly(log: seq<Comment>)
    ensures Raises(log) <==>
      && "unknown" in ScanLog(log).open
      && ScanLog(log).out[ScanLog(log).open["unknown"]].run.None?
      && forall j :: 0 <= j < |log| ==> !Contains(log[j].body, "lane=unknown")
  {
    hide LastHit, ScanLog, Contains;
    var s := ScanLog(log);
    OpenInvariant(log);
    LanesSeenInvariant(log);
    NeverHit(log, "unknown");
    assert "lane=" + "unknown" == "lane=unknown";
    if "unknown" in s.open {
      var i := s.open["unknown"];
      assert s.out[i].lane == "unknown" && s.out[i].end.None?;
    }
  }

  /** A window that a takeover closes gets a real end. */
  lemma TakeoverFindsHit(log: seq<Comment>, lane: string)
    requires lane in ScanLog(log).open && ScanLog(log).out[ScanLog(log).open[lane]].run.Some?
    ensures OpenStaleEnd(log, ScanLog(log), lane).Some?
  {
    hide LastHit, ScanLog;
    OpenInvariant(log);
  }

  /** A stale end is the moment the last word of the identity runs out: some comment of it vouches up to that
      whole millisecond, and none vouches longer. */
  lemma StaleEndIsLastWord(log: seq<Comment>, lane: string, run: Run)
    requires Sorted(log) && StaleEnd(log, lane, run).Some?
    ensures var end := StaleEnd(log, lane, run).value;
      && end % 1000 == 0
      && (exists j :: 0 <= j < |log| && IdentityHit(log[j].body, lane, run) && end <= log[j].at + STALE)
      && (forall j :: 0 <= j < |log| && IdentityHit(log[j].body, lane, run) ==> log[j].at + STALE < end + 1000)
  {
    hide IdentityHit;
    LastHitIsAComment(log, lane, run);
    forall j | 0 <= j < |log| && IdentityHit(log[j].body, lane, run)
      ensures log[j].at <= LastHit(log, lane, run).value
    {
      LastHitAfter(log, j, lane, run);
    }
  }

  // ----- windows of one lane follow one another -----

  ghost predicate Ordered(ws: seq<Window>) {
    forall i, j :: 0 <= i < j < |ws| && ws[i].lane == ws[j].lane ==>
      ws[i].end.Some? && ws[i].end.value <= ws[j].start
  }

  ghost predicate Spans(ws: seq<Window>) {
    forall i :: 0 <= i < |ws| && ws[i].end.Some? ==> ws[i].start <= ws[i].end.value
  }

  ghost predicate By(ws: seq<Window>, t: Time) {
    forall i :: 0 <= i < |ws| ==> ws[i].start <= t && (ws[i].end.Some? ==> ws[i].end.value <= t)
  }

  /** Open windows (with `all`, run-less ones too) have been posted to since they opened. */
  ghost predicate SeenSince(log: seq<Comment>, s: Scan, all: bool) {
    forall i :: 0 <= i < |s.out| && s.out[i].end.None? && (all || s.out[i].run.Some?) ==>
      var last := LastHit(log, s.out[i].lane, s.out[i].run); last.Some? && s.out[i].start <= last.value
  }

  lemma OrderedClaim(s: Scan, lane: string, run: Run, at: Time, stale: bool, staleEnd: Option<Time>)
    requires OpenExactly(s) && Ordered(s.out) && Spans(s.out) && By(s.out, at)
    requires lane in s.open && s.out[s.open[lane]].run.Some? && stale ==>
      staleEnd.Some? && s.out[s.open[lane]].start <= staleEnd.value <= at
    ensures var s' := ClaimWindow(s, lane, run, at, stale, staleEnd);
      Ordered(s'.out) && Spans(s'.out) && By(s'.out, at)
  {
    hide IdKey;
  }

  lemma ClosingKeepsOrder(ws: seq<Window>, ws': seq<Window>, at: Time)
    requires Ordered(ws) && Spans(ws) && By(ws, at) && |ws'| == |ws|
    requires forall i :: 0 <= i < |ws| ==> ws'[i] == ws[i] || (ws[i].end.None? && ws'[i] == Close(ws[i], at))
    ensures Ordered(ws') && Spans(ws') && By(ws', at)
  {
  }

  lemma OrderedRelease(s: Scan, lane: string, run: Run, at: Time)
    requires OpenExactly(s) && Ordered(s.out) && Spans(s.out) && By(s.out, at)
    ensures var all := CloseAll(s, at).out; Ordered(all) && Spans(all) && By(all, at)
    ensures var own := CloseOwn(s, lane, run, at).out; Ordered(own) && Spans(own) && By(own, at)
  {
    ReleaseKeepsLength(s, lane, run, at);
    hide CloseAll, CloseOwn, Ordered, Spans, By, Close;
    forall i | 0 <= i < |s.out|
      ensures CloseAll(s, at).out[i] == if s.out[i].end.None? then Close(s.out[i], at) else s.out[i]
      ensures CloseOwn(s, lane, run, at).out[i] ==
        if s.out[i].end.None? && s.out[i].lane == lane && s.out[i].run == run then Close(s.out[i], at) else s.out[i]
    {
      ReleasePerWindow(s, lane, run, at, i);
    }
    ClosingKeepsOrder(s.out, CloseAll(s, at).out, at);
    ClosingKeepsOrder(s.out, CloseOwn(s, lane, run, at).out, at);
  }

  /** A stale window ends no earlier than it started and no later than the takeover. */
  lemma StaleEndBetween(log: seq<Comment>, w: Window, at: Time)
    requires LastHit(log, w.lane, w.run).Some? && w.start <= LastHit(log, w.lane, w.run).value
    ensures StaleEnd(log, w.lane, w.run).Some? && w.start <= StaleEnd(log, w.lane, w.run).value
    ensures !Fresh(log, w.lane, w.run, at) ==> StaleEnd(log, w.lane, w.run).value <= at
  {
  }

  lemma OrderedStep(older: seq<Comment>, s: Scan, c: Comment)
    requires OpenExactly(s) && SeenSince(older, s, false)
    requires Ordered(s.out) && Spans(s.out) && By(s.out, c.at)
    ensures var s' := ScanStep(older, s, c); Ordered(s'.out) && Spans(s'.out) && By(s'.out, c.at)
  {
    hide ParseMarker, LastHit, Fresh, StaleEnd, ClaimWindow, CloseAll, CloseOwn, Ordered, Spans, By;
    var m := MarkerOf(c);
    if m.Some? && m.value.Claim? {
      var lane := m.value.lane;
      if lane in s.open && s.out[s.open[lane]].run.Some? {
        StaleEndBetween(older, s.out[s.open[lane]], c.at);
      }
      OrderedClaim(s, lane, m.value.run, c.at, OpenIsStale(older, s, lane, c.at), OpenStaleEnd(older, s, lane));
    } else if m.Some? {
      OrderedRelease(s, m.value.lane, m.value.run, c.at);
    }
  }

  lemma SinceStep(older: seq<Comment>, s: Scan, c: Comment, all: bool)
    requires OpenExactly(s) && SeenSince(older, s, all) && By(s.out, c.at)
    requires all ==> !Anonymous(c.body)
    ensures SeenSince(older + [c], ScanStep(older, s, c), all)
  {
    hide LastHit, IdentityHit, ParseMarker, Fresh;
    var m := MarkerOf(c);
    var s' := ScanStep(older, s, c);
    if m.Some? && !Anonymous(c.body) {
      OwnMarkerHits(older, c);
    }
    forall i | 0 <= i < |s'.out| && s'.out[i].end.None? && (all || s'.out[i].run.Some?)
      ensures var last := LastHit(older + [c], s'.out[i].lane, s'.out[i].run);
        last.Some? && s'.out[i].start <= last.value
    {
      LastHitAppend(older, c, s'.out[i].lane, s'.out[i].run);
    }
  }

  lemma {:induction false} ScanOrdered(log: seq<Comment>, all: bool)
    requires Sorted(log) && (all ==> Named(log))
    ensures Ordered(ScanLog(log).out) && Spans(ScanLog(log).out) && SeenSince(log, ScanLog(log), all)
    ensures log != [] ==> By(ScanLog(log).out, log[|log| - 1].at)
    ensures log == [] ==> ScanLog(log).out == []
    decreases |log|
  {
    if log != [] {
      hide ScanStep, Ordered, Spans, SeenSince, OpenExactly, RunsSeen, Anonymous;
      var n := |log| - 1;
      var init, c := log[..n], log[n];
      ScanOrdered(init, all);
      ScanOrdered(init, false);
      OpenInvariant(init);
      assert By(ScanLog(init).out, c.at);
      OrderedStep(init, ScanLog(init), c);
      SinceStep(init, ScanLog(init), c, all);
      assert init + [c] == log;
    } else {
      assert ScanLog(log).out == [];
    }
  }

  /** On a sorted log whose markers are named, the output exists; every window has its end at or after its
      start; and of two windows of one lane the earlier ends no later than the later starts. */
  lemma WindowsOrdered(log: seq<Comment>, now: Time)
    requires Sorted(log) && Named(log)
    ensures !Raises(log)
    ensures Spans(WindowList(log, now)) && Ordered(WindowList(log, now))
  {
    hide ScanLog, LastHit, Fresh, StaleEnd, Anonymous;
    ScanOrdered(log, true);
    var out, ws := ScanLog(log).out, WindowList(log, now);
    forall i | 0 <= i < |ws| && ws[i].end.Some? ensures ws[i].start <= ws[i].end.value {
      if out[i].end.None? {
        StaleEndBetween(log, out[i], now);
      }
    }
  }
}
