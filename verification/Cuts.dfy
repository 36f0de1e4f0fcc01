/** The script sees only the newest comments of a ticket. What the two replays still get right when the log is
    cut, and what they get wrong. */
module Cuts {
  import opened Text
  import opened Markers
  import opened Log
  import opened Holders
  import opened Windows

  // ----- holders -----

  ghost predicate HitWithin(suf: seq<Comment>, hs: HolderMap) {
    forall k :: k in hs ==> LastHit(suf, hs[k].lane, hs[k].run).Some?
  }

  lemma SameLive(pre: seq<Comment>, suf: seq<Comment>, hs: HolderMap, ref: Time)
    requires HitWithin(suf, hs)
    ensures Live(pre + suf, hs, ref) == Live(suf, hs, ref)
  {
    forall k | k in hs ensures Fresh(pre + suf, hs[k].lane, hs[k].run, ref) == Fresh(suf, hs[k].lane, hs[k].run, ref) {
      LastHitConcat(pre, suf, hs[k].lane, hs[k].run);
    }
  }

  lemma HitClaim(suf: seq<Comment>, hs: HolderMap, live: HolderMap, c: Comment)
    requires HitWithin(suf, hs) && Within(live, hs)
    requires MarkerOf(c).Some? && MarkerOf(c).value.Claim? && !Anonymous(c.body)
    ensures HitWithin(suf + [c], OnClaim(hs, live, MarkerOf(c).value.lane, MarkerOf(c).value.run, c.at))
  {
    hide MarkerOf, LastHit, IdentityHit, CanCoholdJoin, Anonymous;
    var lane, run := MarkerOf(c).value.lane, MarkerOf(c).value.run;
    var hs' := OnClaim(hs, live, lane, run, c.at);
    OwnMarkerHits(suf, c);
    forall k | k in hs' ensures LastHit(suf + [c], hs'[k].lane, hs'[k].run).Some? {
      LastHitAppend(suf, c, hs'[k].lane, hs'[k].run);
    }
  }

  lemma {:induction false} CutSteps(pre: seq<Comment>, suf: seq<Comment>)
    requires Replay(pre) == map[] && Named(suf)
    ensures Replay(pre + suf) == Replay(suf) && HitWithin(suf, Replay(suf))
    decreases |suf|
  {
    if suf == [] {
      assert pre + suf == pre;
    } else {
      var n := |suf| - 1;
      var init, c := suf[..n], suf[n];
      CutSteps(pre, init);
      SplitLast(pre, suf);
      ReplayAppend(pre + init, c);
      var hs := Replay(init);
      SameLive(pre, init, hs, c.at);
      assert suf == init + [c];
      if MarkerOf(c).Some? && MarkerOf(c).value.Claim? {
        HitClaim(init, hs, Live(init, hs, c.at), c);
      } else {
        forall k | k in hs ensures LastHit(suf, hs[k].lane, hs[k].run).Some? {
          LastHitAppend(init, c, hs[k].lane, hs[k].run);
        }
      }
    }
  }

  /** A comment that neither carries a marker nor names an identity. */
  function Prose(at: Time): Comment {
    Comment("+1", at)
  }

  function Filler(n: nat, at: Time): (suf: seq<Comment>)
    ensures |suf| == n && forall i :: 0 <= i < n ==> suf[i] == Prose(at)
  {
    seq(n, i => Prose(at))
  }

  lemma ProseSaysNothing(at: Time)
    ensures MarkerOf(Prose(at)).None? && !Anonymous(Prose(at).body)
    ensures forall lane, run: string :: run != "" ==> !IdentityHit(Prose(at).body, lane, Some(run))
  {
    assert |MARK| > |"+1"| && |REL| > |"+1"|;
    assert |FirstLine("+1")| <= 2;
    forall lane, run: string | run != "" ensures !IdentityHit("+1", lane, Some(run)) {
      assert |"run=" + run| > 2;
    }
  }

  lemma {:induction false} FillerKeeps(pre: seq<Comment>, n: nat, at: Time)
    ensures Replay(pre + Filler(n, at)) == Replay(pre)
    ensures Named(Filler(n, at))
    decreases n
  {
    ProseSaysNothing(at);
    if n == 0 {
      assert pre + Filler(n, at) == pre;
    } else {
      FillerKeeps(pre, n - 1, at);
      assert pre + Filler(n, at) == pre + Filler(n - 1, at) + [Prose(at)];
      ReplayAppend(pre + Filler(n - 1, at), Prose(at));
    }
  }

  lemma {:induction false} FillerIsUnheard(n: nat, at: Time, lane: string, run: string)
    requires run != ""
    ensures LastHit(Filler(n, at), lane, Some(run)).None?
    decreases n
  {
    if n > 0 {
      ProseSaysNothing(at);
      FillerIsUnheard(n - 1, at, lane, run);
      assert Filler(n, at) == Filler(n - 1, at) + [Prose(at)];
      LastHitAppend(Filler(n - 1, at), Prose(at), lane, Some(run));
    }
  }

  /** The cut hides a holder: a suffix of any length, in time order, replays differently without what precedes it. */
  lemma CutHidesHolder(pre: seq<Comment>, n: nat)
    requires Replay(pre) != map[]
    ensures var suf := Filler(n, pre[|pre| - 1].at);
      && Named(suf) && Replay(pre + suf) == Replay(pre) && Replay(suf) == map[]
      && (Sorted(pre) ==> Sorted(pre + suf))
  {
    NothingHeld();
    hide Replay, Anonymous;
    var suf := Filler(n, pre[|pre| - 1].at);
    FillerKeeps(pre, n, pre[|pre| - 1].at);
    FillerKeeps([], n, pre[|pre| - 1].at);
    assert [] + suf == suf;
  }

  lemma NothingHeld()
    ensures Replay([]) == map[]
  {
  }

  /** Where a log may be cut so that `n` comments remain: these replay like the whole log, with the same live
      holders at every later moment, exactly when nobody held the ticket at the cut. */
  lemma SafeCut(pre: seq<Comment>, n: nat)
    ensures Replay(pre) == map[] <==>
      forall suf :: |suf| == n && Named(suf) ==> Replay(pre + suf) == Replay(suf)
    ensures Replay(pre) == map[] ==>
      forall suf, now :: Named(suf) ==> Live(pre + suf, Replay(pre + suf), now) == Live(suf, Replay(suf), now)
  {
    hide Replay;
    if Replay(pre) == map[] {
      forall suf | Named(suf)
        ensures Replay(pre + suf) == Replay(suf)
        ensures forall now :: Live(pre + suf, Replay(pre + suf), now) == Live(suf, Replay(suf), now)
      {
        CutSteps(pre, suf);
        forall now ensures Live(pre + suf, Replay(suf), now) == Live(suf, Replay(suf), now) {
          SameLive(pre, suf, Replay(suf), now);
        }
      }
    } else {
      CutHidesHolder(pre, n);
    }
  }

  // ----- windows -----

  /** The windows of `t` after those of `s`, of which none is open. */
  function Shift(s: Scan, t: Scan): Scan {
    Scan(s.out + t.out, map lane | lane in t.open :: |s.out| + t.open[lane])
  }

  ghost predicate AllSeen(log: seq<Comment>, s: Scan) {
    forall i :: 0 <= i < |s.out| && s.out[i].end.None? ==> LastHit(log, s.out[i].lane, s.out[i].run).Some?
  }

  lemma AllSeenStep(older: seq<Comment>, s: Scan, c: Comment)
    requires OpenExactly(s) && AllSeen(older, s) && !Anonymous(c.body)
    ensures AllSeen(older + [c], ScanStep(older, s, c))
  {
    hide LastHit, IdentityHit, ParseMarker, Fresh, Anonymous;
    var m := MarkerOf(c);
    var s' := ScanStep(older, s, c);
    if m.Some? {
      OwnMarkerHits(older, c);
    }
    forall i | 0 <= i < |s'.out| && s'.out[i].end.None?
      ensures LastHit(older + [c], s'.out[i].lane, s'.out[i].run).Some?
    {
      LastHitAppend(older, c, s'.out[i].lane, s'.out[i].run);
    }
  }

  lemma ShiftAt(p: Scan, s: Scan, lane: string)
    requires InRange(s)
    ensures InRange(Shift(p, s))
    ensures lane in Shift(p, s).open <==> lane in s.open
    ensures lane in s.open ==> Shift(p, s).out[Shift(p, s).open[lane]] == s.out[s.open[lane]]
  {
  }

  lemma ShiftSet(p: Scan, s: Scan, lane: string, w: Window)
    requires InRange(s) && lane in s.open
    ensures lane in Shift(p, s).open && Shift(p, s).open[lane] < |Shift(p, s).out|
    ensures var t := Shift(p, s); t.(out := t.out[t.open[lane] := w]) == Shift(p, s.(out := s.out[s.open[lane] := w]))
  {
    var t := Shift(p, s);
    assert t.out[t.open[lane] := w] == p.out + s.out[s.open[lane] := w];
  }

  lemma ShiftNew(p: Scan, s: Scan, lane: string, run: Run, at: Time)
    ensures OpenNew(Shift(p, s), lane, run, at) == Shift(p, OpenNew(s, lane, run, at))
  {
    assert p.out + s.out + [Window(lane, run, at, None)] == p.out + (s.out + [Window(lane, run, at, None)]);
  }

  lemma ShiftClaim(p: Scan, s: Scan, lane: string, run: Run, at: Time, stale: bool, end: Option<Time>)
    requires InRange(s)
    ensures InRange(Shift(p, s))
    ensures ClaimWindow(Shift(p, s), lane, run, at, stale, end) == Shift(p, ClaimWindow(s, lane, run, at, stale, end))
  {
    hide IdKey, Shift, OpenNew;
    ShiftAt(p, s, lane);
    if lane in s.open {
      var w := s.out[s.open[lane]];
      ShiftSet(p, s, lane, w.(run := run));
      ShiftSet(p, s, lane, w.(end := end));
      ShiftNew(p, s.(out := s.out[s.open[lane] := w.(end := end)]), lane, run, at);
    } else {
      ShiftNew(p, s, lane, run, at);
    }
  }

  lemma ShiftCloseAll(p: Scan, s: Scan, at: Time)
    ensures CloseAll(Shift(p, s), at) == Shift(p, CloseAll(s, at))
  {
    var t := Shift(p, s);
    forall i | 0 <= i < |s.out| ensures |p.out| + i in t.open.Values <==> i in s.open.Values {
      if i in s.open.Values {
        var l :| l in s.open && s.open[l] == i;
        assert t.open[l] == |p.out| + i;
      }
    }
    assert CloseAll(t, at).out == Shift(p, CloseAll(s, at)).out;
  }

  lemma ShiftCloseOwn(p: Scan, s: Scan, lane: string, run: Run, at: Time)
    requires InRange(s)
    ensures InRange(Shift(p, s))
    ensures CloseOwn(Shift(p, s), lane, run, at) == Shift(p, CloseOwn(s, lane, run, at))
  {
    ShiftAt(p, s, lane);
    if lane in s.open {
      ShiftSet(p, s, lane, Close(s.out[s.open[lane]], at));
    }
  }

  lemma ShiftStep(pre: seq<Comment>, older: seq<Comment>, p: Scan, s: Scan, c: Comment)
    requires OpenExactly(s) && AllSeen(older, s)
    ensures InRange(Shift(p, s))
    ensures ScanStep(pre + older, Shift(p, s), c) == Shift(p, ScanStep(older, s, c))
  {
    hide LastHit, ParseMarker, ClaimWindow, CloseAll, CloseOwn;
    var m := MarkerOf(c);
    if m.Some? && m.value.Claim? {
      var lane := m.value.lane;
      if lane in s.open {
        var w := s.out[s.open[lane]];
        LastHitConcat(pre, older, w.lane, w.run);
      }
      ShiftClaim(p, s, lane, m.value.run, c.at, OpenIsStale(older, s, lane, c.at), OpenStaleEnd(older, s, lane));
    } else if m.Some? {
      ShiftCloseAll(p, s, c.at);
      ShiftCloseOwn(p, s, m.value.lane, m.value.run, c.at);
    }
  }

  lemma {:induction false} CutScan(pre: seq<Comment>, suf: seq<Comment>)
    requires ScanLog(pre).open == map[] && Named(suf)
    ensures ScanLog(pre + suf) == Shift(ScanLog(pre), ScanLog(suf)) && AllSeen(suf, ScanLog(suf))
    decreases |suf|
  {
    hide ScanStep, OpenExactly, AllSeen, RunsSeen, Anonymous;
    if suf == [] {
      assert pre + suf == pre;
      assert AllSeen([], ScanLog([])) by { NothingOpen(); }
      assert ScanLog(pre).out + [] == ScanLog(pre).out;
    } else {
      var n := |suf| - 1;
      var init, c := suf[..n], suf[n];
      CutScan(pre, init);
      SplitLast(pre, suf);
      assert suf == init + [c];
      OpenInvariant(init);
      ScanAppend(pre + init, c);
      ScanAppend(init, c);
      ShiftStep(pre, init, ScanLog(pre), ScanLog(init), c);
      AllSeenStep(init, ScanLog(init), c);
    }
  }

  lemma NothingOpen()
    ensures ScanLog([]) == Scan([], map[]) && AllSeen([], ScanLog([]))
  {
  }

  lemma {:induction false} FillerKeepsScan(pre: seq<Comment>, n: nat, at: Time)
    ensures ScanLog(pre + Filler(n, at)) == ScanLog(pre)
    decreases n
  {
    if n == 0 {
      assert pre + Filler(n, at) == pre;
    } else {
      hide ScanLog;
      FillerKeepsScan(pre, n - 1, at);
      assert pre + Filler(n, at) == pre + Filler(n - 1, at) + [Prose(at)];
      ScanAppend(pre + Filler(n - 1, at), Prose(at));
      ProseSaysNothing(at);
    }
  }

  /** Where a log may be cut so that `n` comments remain: the scan of these is the rest of the scan of the whole
      log exactly when no window was open at the cut. */
  lemma SafeWindowCut(pre: seq<Comment>, n: nat)
    ensures ScanLog(pre).open == map[] <==>
      forall suf :: |suf| == n && Named(suf) ==> ScanLog(pre + suf) == Shift(ScanLog(pre), ScanLog(suf))
  {
    hide ScanLog, Anonymous;
    if ScanLog(pre).open == map[] {
      forall suf | |suf| == n && Named(suf) ensures ScanLog(pre + suf) == Shift(ScanLog(pre), ScanLog(suf)) {
        CutScan(pre, suf);
      }
    } else {
      var suf := Filler(n, 0);
      FillerKeeps([], n, 0);
      FillerKeepsScan(pre, n, 0);
      FillerKeepsScan([], n, 0);
      NothingOpen();
      assert [] + suf == suf;
    }
  }

  /** The output then only loses windows that had ended before the cut. */
  lemma SafeCutOutput(pre: seq<Comment>, suf: seq<Comment>, now: Time)
    requires ScanLog(pre).open == map[] && Named(suf)
    ensures WindowList(pre + suf, now) == ScanLog(pre).out + WindowList(suf, now)
  {
    hide ScanLog, LastHit, Anonymous;
    CutScan(pre, suf);
    OpenInvariant(pre);
    var p, t := ScanLog(pre).out, ScanLog(suf).out;
    forall i | 0 <= i < |t| ensures Settle(pre + suf, t[i], now) == Settle(suf, t[i], now) {
      LastHitConcat(pre, suf, t[i].lane, t[i].run);
    }
  }

  /** A cut does not only lose windows: cut just before a claim, with any number of comments after it, the visible
      part gives that claim a window. The whole log gives it the same window if its lane had none open, or a stale
      one of another run, and otherwise opens none. */
  lemma CutBeforeClaim(pre: seq<Comment>, c: Comment, n: nat, lane: string, run: Run)
    requires MarkerOf(c) == Some(Claim(lane, run))
    ensures ScanLog([c] + Filler(n, c.at)).out == [Window(lane, run, c.at, None)]
    ensures var before, after := ScanLog(pre).out, ScanLog(pre + ([c] + Filler(n, c.at))).out;
      if Opens(pre, ScanLog(pre), c)
      then |after| == |before| + 1 && after[|before|] == Window(lane, run, c.at, None)
      else |after| == |before|
  {
    hide ParseMarker, LastHit, ScanLog, After, Filler;
    NothingOpen();
    ScanAppend([], c);
    assert [] + [c] == [c];
    FillerKeepsScan([c], n, c.at);
    assert pre + ([c] + Filler(n, c.at)) == pre + [c] + Filler(n, c.at);
    FillerKeepsScan(pre + [c], n, c.at);
    ScanAppend(pre, c);
    OpenInvariant(pre);
    StepPerWindow(pre, ScanLog(pre), c);
  }
}
