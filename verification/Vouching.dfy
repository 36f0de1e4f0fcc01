/** What the window list vouches for, and when cutting the log to its newest comments can only make it vouch for
    less: when the cut fails closed. */
module Vouching {
  import opened Text
  import opened Markers
  import opened Log
  import opened Holders
  import opened HolderLaws
  import opened Windows
  import opened Cuts

  /** Some window of the list says that `run` held `lane` at `t`. */
  ghost predicate Vouches(ws: seq<Window>, lane: string, run: Run, t: Time) {
    exists i :: 0 <= i < |ws| && ws[i].lane == lane && ws[i].run == run
                && ws[i].start <= t && (ws[i].end.Some? ==> t <= ws[i].end.value)
  }

  /** Whatever `cut` vouches for, `whole` does too. */
  ghost predicate FailsClosed(cut: seq<Window>, whole: seq<Window>) {
    forall lane, run, t :: Vouches(cut, lane, run, t) ==> Vouches(whole, lane, run, t)
  }

  /** `w` is `v`, possibly started earlier. */
  ghost predicate Covers(v: Window, w: Window) {
    w.lane == v.lane && w.run == v.run && w.end == v.end && w.start <= v.start
  }

  ghost predicate HasCover(v: Window, ws: seq<Window>) {
    exists j :: 0 <= j < |ws| && Covers(v, ws[j])
  }

  ghost predicate Covered(vs: seq<Window>, ws: seq<Window>) {
    forall i :: 0 <= i < |vs| ==> HasCover(vs[i], ws)
  }

  lemma CoveredFailsClosed(cut: seq<Window>, whole: seq<Window>)
    requires Covered(cut, whole)
    ensures FailsClosed(cut, whole)
  {
    forall lane, run, t | Vouches(cut, lane, run, t) ensures Vouches(whole, lane, run, t) {
      var i :| 0 <= i < |cut| && cut[i].lane == lane && cut[i].run == run
               && cut[i].start <= t && (cut[i].end.Some? ==> t <= cut[i].end.value);
      assert HasCover(cut[i], whole);
      var j :| 0 <= j < |whole| && Covers(cut[i], whole[j]);
    }
  }

  // ----- one comment, on the cut log and on the whole one -----

  /** The step of the scan, window by window. */
  ghost predicate Steps(older: seq<Comment>, s: Scan, c: Comment, s': Scan) {
    && InRange(s)
    && |s'.out| == |s.out| + (if Opens(older, s, c) then 1 else 0)
    && (Opens(older, s, c) ==> s'.out[|s.out|] == Window(MarkerOf(c).value.lane, MarkerOf(c).value.run, c.at, None))
    && forall i :: 0 <= i < |s.out| ==>
         s'.out[i] == if s.out[i].end.None? then After(older, c, s.out[i]) else s.out[i]
  }

  /** What a comment does to an open window depends only on its lane, its run and when it was last heard. */
  lemma SameAfter(pre: seq<Comment>, older: seq<Comment>, c: Comment, v: Window, w: Window)
    requires Covers(v, w) && v.end.None? && LastHit(older, v.lane, v.run).Some?
    ensures Covers(After(older, c, v), After(pre + older, c, w))
  {
    hide MarkerOf, LastHit, IdKey;
    LastHitConcat(pre, older, v.lane, v.run);
  }

  lemma OldWindowCovered(pre: seq<Comment>, older: seq<Comment>, s: Scan, t: Scan, c: Comment, s': Scan, t': Scan,
                         i: nat)
    requires Steps(older, s, c, s') && Steps(pre + older, t, c, t')
    requires Covered(s.out, t.out) && AllSeen(older, s) && i < |s.out|
    ensures HasCover(s'.out[i], t'.out)
  {
    hide MarkerOf, LastHit, IdKey, After, Opens;
    assert HasCover(s.out[i], t.out);
    var j :| 0 <= j < |t.out| && Covers(s.out[i], t.out[j]);
    if s.out[i].end.None? {
      SameAfter(pre, older, c, s.out[i], t.out[j]);
    }
    assert Covers(s'.out[i], t'.out[j]);
  }

  /** An open window that the visible part does not know gives way to a claim at `at`. */
  ghost predicate Yields(log: seq<Comment>, w: Window, at: Time) {
    w.run.None? || (!Fresh(log, w.lane, w.run, at) && !LegacyName(w.run))
  }

  ghost predicate AllYield(log: seq<Comment>, s: Scan, t: Scan, at: Time) {
    InRange(t) && forall lane :: lane in t.open && lane !in s.open ==> Yields(log, t.out[t.open[lane]], at)
  }

  /** A window that yields and is not ended by the claim becomes, or is, the claimant's. */
  lemma YieldingWindow(log: seq<Comment>, c: Comment, w: Window, lane: string, run: Run)
    requires MarkerOf(c) == Some(Claim(lane, run)) && !LegacyName(run) && w.lane == lane && w.end.None?
    requires Yields(log, w, c.at) && After(log, c, w).end.None?
    requires w.run.Some? ==> LastHit(log, w.lane, w.run).Some?
    ensures After(log, c, w) == w.(run := run)
  {
    hide ParseMarker, LastHit;
    assert LEGACY <= LEGACY + lane;
  }

  lemma OpenCovered(s: Scan, t: Scan, lane: string)
    requires OpenExactly(s) && OpenExactly(t) && Covered(s.out, t.out) && lane in s.open
    ensures lane in t.open && Covers(s.out[s.open[lane]], t.out[t.open[lane]])
  {
    assert HasCover(s.out[s.open[lane]], t.out);
    var j :| 0 <= j < |t.out| && Covers(s.out[s.open[lane]], t.out[j]);
  }

  lemma NewWindowCovered(pre: seq<Comment>, older: seq<Comment>, s: Scan, t: Scan, c: Comment, s': Scan, t': Scan)
    requires OpenExactly(s) && OpenExactly(t) && RunsSeen(pre + older, t) && AllSeen(older, s) && By(t.out, c.at)
    requires Steps(older, s, c, s') && Steps(pre + older, t, c, t') && Covered(s.out, t.out)
    requires AllYield(pre + older, s, t, c.at) && Opens(older, s, c) && !LegacyName(MarkerOf(c).value.run)
    ensures HasCover(s'.out[|s.out|], t'.out)
  {
    hide MarkerOf, LastHit, IdKey, After, Ends, LegacyName, Yields, Covered;
    var lane, run := MarkerOf(c).value.lane, MarkerOf(c).value.run;
    if Opens(pre + older, t, c) {
      assert Covers(s'.out[|s.out|], t'.out[|t.out|]);
    } else {
      var j := t.open[lane];
      var w := t.out[j];
      AfterEnds(pre + older, c, w);
      if lane in s.open {
        OpenCovered(s, t, lane);
        AfterEnds(older, c, s.out[s.open[lane]]);
        SameAfter(pre, older, c, s.out[s.open[lane]], w);
        assert false;
      }
      YieldingWindow(pre + older, c, w, lane, run);
      assert Covers(s'.out[|s.out|], t'.out[j]);
    }
  }

  lemma CoverStep(pre: seq<Comment>, older: seq<Comment>, s: Scan, t: Scan, c: Comment)
    requires OpenExactly(s) && RunsSeen(older, s) && AllSeen(older, s)
    requires OpenExactly(t) && RunsSeen(pre + older, t) && By(t.out, c.at)
    requires Covered(s.out, t.out) && AllYield(pre + older, s, t, c.at)
    requires MarkerOf(c).Some? ==> !LegacyName(MarkerOf(c).value.run)
    ensures Covered(ScanStep(older, s, c).out, ScanStep(pre + older, t, c).out)
  {
    hide MarkerOf, LastHit, After, LegacyName, ScanStep, RunsSeen, AllSeen, By, AllYield, HasCover;
    StepPerWindow(older, s, c);
    StepPerWindow(pre + older, t, c);
    var s', t' := ScanStep(older, s, c), ScanStep(pre + older, t, c);
    assert Steps(older, s, c, s') && Steps(pre + older, t, c, t');
    forall i | 0 <= i < |s'.out| ensures HasCover(s'.out[i], t'.out) {
      if i < |s.out| {
        OldWindowCovered(pre, older, s, t, c, s', t', i);
      } else {
        NewWindowCovered(pre, older, s, t, c, s', t');
      }
    }
    assert Covered(s'.out, t'.out);
  }

  // ----- the whole visible part -----

  /** The windows that only the whole log knows to be open are run-less. */
  ghost predicate ExtraRunless(s: Scan, t: Scan) {
    InRange(t) && forall lane :: lane in t.open && lane !in s.open ==> t.out[t.open[lane]].run.None?
  }

  lemma ClaimedLaneIsOpen(older: seq<Comment>, s: Scan, c: Comment, lane: string)
    requires InRange(s) && MarkerOf(c).Some? && MarkerOf(c).value.Claim? && MarkerOf(c).value.lane == lane
    ensures lane in ScanStep(older, s, c).open
  {
    hide ParseMarker, Fresh, StaleEnd;
  }

  /** An open window of another lane than a claim's keeps its run. */
  lemma AfterKeepsRun(older: seq<Comment>, c: Comment, w: Window)
    requires !(MarkerOf(c).Some? && MarkerOf(c).value.Claim? && MarkerOf(c).value.lane == w.lane)
    ensures After(older, c, w).run == w.run
  {
  }

  lemma AfterKeepsLane(older: seq<Comment>, c: Comment, w: Window)
    ensures After(older, c, w).lane == w.lane
  {
  }

  lemma ExtraStep(pre: seq<Comment>, older: seq<Comment>, s: Scan, t: Scan, c: Comment, lane: string)
    requires OpenExactly(s) && RunsSeen(older, s) && AllSeen(older, s)
    requires OpenExactly(t) && RunsSeen(pre + older, t) && Covered(s.out, t.out) && ExtraRunless(s, t)
    requires var s', t' := ScanStep(older, s, c), ScanStep(pre + older, t, c);
      OpenExactly(s') && OpenExactly(t') && lane in t'.open && lane !in s'.open
    ensures var t' := ScanStep(pre + older, t, c); t'.out[t'.open[lane]].run.None?
  {
    hide MarkerOf, LastHit, IdKey, After, ScanStep, RunsSeen;
    var s', t' := ScanStep(older, s, c), ScanStep(pre + older, t, c);
    StepPerWindow(older, s, c);
    StepPerWindow(pre + older, t, c);
    if MarkerOf(c).Some? && MarkerOf(c).value.Claim? {
      ClaimedLaneIsOpen(older, s, c, MarkerOf(c).value.lane);
    }
    var j := t'.open[lane];
    assert j < |t.out|;
    var w := t.out[j];
    AfterKeepsLane(pre + older, c, w);
    AfterKeepsRun(pre + older, c, w);
    assert w.lane == lane && w.end.None? && t.open[lane] == j;
    if lane in s.open {
      var i := s.open[lane];
      OpenCovered(s, t, lane);
      SameAfter(pre, older, c, s.out[i], w);
    }
  }

  lemma {:induction false} CutCovered(pre: seq<Comment>, suf: seq<Comment>)
    requires Sorted(pre + suf) && Named(suf) && NoLegacyRuns(suf)
    requires ExtraRunless(ScanLog([]), ScanLog(pre))
    ensures Covered(ScanLog(suf).out, ScanLog(pre + suf).out) && ExtraRunless(ScanLog(suf), ScanLog(pre + suf))
    decreases |suf|
  {
    hide MarkerOf, LastHit, ScanStep, RunsSeen, AllSeen, By, LegacyName, Anonymous, Covered, ExtraRunless;
    if suf == [] {
      NothingOpen();
      assert pre + suf == pre;
      assert Covered(ScanLog(suf).out, ScanLog(pre).out) by { NothingToCover(ScanLog(pre).out); }
    } else {
      var n := |suf| - 1;
      var init, c := suf[..n], suf[n];
      SplitLast(pre, suf);
      assert suf == init + [c];
      SortedInit(pre + init, c);
      CutCovered(pre, init);
      ScanAppend(pre + init, c);
      ScanAppend(init, c);
      BothStep(pre, init, c);
    }
  }

  lemma NothingToCover(ws: seq<Window>)
    ensures Covered([], ws)
  {
  }

  lemma SortedInit(log: seq<Comment>, c: Comment)
    requires Sorted(log + [c])
    ensures Sorted(log) && By(ScanLog(log).out, c.at)
  {
    hide ScanLog, Named;
    var all := log + [c];
    assert forall i :: 0 <= i < |log| ==> all[i] == log[i];
    assert all[|log|] == c;
    ScanOrdered(log, false);
    if log != [] {
      assert all[|log| - 1].at <= all[|log|].at;
    }
  }

  lemma BothStep(pre: seq<Comment>, init: seq<Comment>, c: Comment)
    requires Sorted(pre + init + [c]) && Named(init + [c]) && NoLegacyRuns(init + [c])
    requires Covered(ScanLog(init).out, ScanLog(pre + init).out) && ExtraRunless(ScanLog(init), ScanLog(pre + init))
    ensures var s, t := ScanStep(init, ScanLog(init), c), ScanStep(pre + init, ScanLog(pre + init), c);
      Covered(s.out, t.out) && ExtraRunless(s, t)
  {
    hide MarkerOf, LastHit, ScanStep, ScanLog, RunsSeen, AllSeen, By, LegacyName, Anonymous, Covered, Sorted;
    var s, t := ScanLog(init), ScanLog(pre + init);
    assert (init + [c])[|init|] == c;
    assert Named(init) by { NamedInit(init, c); }
    VisibleSeen(init);
    OpenInvariant(init);
    OpenInvariant(pre + init);
    OpenStep(init, s, c);
    OpenStep(pre + init, t, c);
    SortedInit(pre + init, c);
    assert AllYield(pre + init, s, t, c.at);
    CoverStep(pre, init, s, t, c);
    var s', t' := ScanStep(init, s, c), ScanStep(pre + init, t, c);
    forall lane | lane in t'.open && lane !in s'.open ensures t'.out[t'.open[lane]].run.None? {
      ExtraStep(pre, init, s, t, c, lane);
    }
  }

  lemma NamedInit(init: seq<Comment>, c: Comment)
    requires Named(init + [c])
    ensures Named(init)
  {
    hide Anonymous;
    assert forall i :: 0 <= i < |init| ==> (init + [c])[i] == init[i];
  }

  /** Every open window of a log whose markers are named has been heard in it. */
  lemma VisibleSeen(suf: seq<Comment>)
    requires Named(suf)
    ensures AllSeen(suf, ScanLog(suf))
  {
    hide ScanStep, AllSeen, Named;
    NothingOpen();
    CutScan([], suf);
  }

  /** The closing pass ends covered windows alike. */
  lemma CoveredOutput(pre: seq<Comment>, suf: seq<Comment>, now: Time)
    requires Named(suf) && Covered(ScanLog(suf).out, ScanLog(pre + suf).out)
    ensures Covered(WindowList(suf, now), WindowList(pre + suf, now))
  {
    hide LastHit, ScanLog, Named;
    VisibleSeen(suf);
    var vs, ws := ScanLog(suf).out, ScanLog(pre + suf).out;
    forall i | 0 <= i < |vs| ensures HasCover(WindowList(suf, now)[i], WindowList(pre + suf, now)) {
      assert HasCover(vs[i], ws);
      var j :| 0 <= j < |ws| && Covers(vs[i], ws[j]);
      LastHitConcat(pre, suf, vs[i].lane, vs[i].run);
      assert Covers(WindowList(suf, now)[i], WindowList(pre + suf, now)[j]);
    }
  }

  // ----- where windows come from -----

  /** Lane and run are tokens, and the run is not spelled like the key of a run-less claim. */
  ghost predicate Plain(w: Window) {
    w.lane != "" && NoSpace(w.lane) && RunArg(w.run) && !LegacyName(w.run)
  }

  lemma PlainAfter(older: seq<Comment>, c: Comment, w: Window)
    requires Plain(w) && (MarkerOf(c).Some? ==> !LegacyName(MarkerOf(c).value.run))
    ensures Plain(After(older, c, w))
  {
    hide ParseMarker, NoSpace, LegacyName, RunArg, Fresh, StaleEnd;
    if MarkerOf(c).Some? {
      ParsedRunIsToken(c.body);
    }
  }

  ghost predicate AllPlain(ws: seq<Window>) {
    forall i :: 0 <= i < |ws| ==> Plain(ws[i])
  }

  lemma PlainStep(older: seq<Comment>, s: Scan, c: Comment)
    requires OpenExactly(s) && RunsSeen(older, s) && AllPlain(s.out)
    requires MarkerOf(c).Some? ==> !LegacyName(MarkerOf(c).value.run)
    ensures AllPlain(ScanStep(older, s, c).out)
  {
    hide ParseMarker, ScanStep, After, NoSpace, LegacyName, RunArg, RunsSeen;
    StepPerWindow(older, s, c);
    if MarkerOf(c).Some? {
      ParsedLaneIsToken(c.body);
      ParsedRunIsToken(c.body);
    }
    forall i | 0 <= i < |s.out| ensures Plain(After(older, c, s.out[i])) {
      PlainAfter(older, c, s.out[i]);
    }
  }

  lemma {:induction false} WindowsArePlain(log: seq<Comment>)
    requires NoLegacyRuns(log)
    ensures AllPlain(ScanLog(log).out)
    decreases |log|
  {
    hide MarkerOf, ScanStep, LegacyName, OpenExactly, RunsSeen, Plain;
    if log == [] {
      NothingOpen();
    } else {
      var n := |log| - 1;
      assert NoLegacyRuns(log[..n]);
      WindowsArePlain(log[..n]);
      OpenInvariant(log[..n]);
      PlainStep(log[..n], ScanLog(log[..n]), log[n]);
    }
  }

  // ----- the comments that make a cut fail open -----

  function Rival(run: string): string {
    if run == "a" then "b" else "a"
  }

  /** A claim that prints its run first, so that the lane may be any token. */
  function RivalClaim(lane: string, run: string, at: Time): Comment {
    Comment(RivalBody(MARK, run, lane), at)
  }

  /** A comment that refreshes a run and is no marker. */
  function Word(run: string, at: Time): Comment {
    Comment("run=" + run, at)
  }

  lemma NoBlankNoMarker(line: string)
    requires ' ' !in line
    ensures !Contains(line, MARK) && !Contains(line, REL)
  {
    forall i ensures !MatchAt(line, MARK, i) && !MatchAt(line, REL, i) {
      MatchChars(line, MARK, i);
      MatchChars(line, REL, i);
      assert MARK[1] == ' ' && REL[1] == ' ';
    }
  }

  lemma {:induction false} OneLine(s: string)
    requires '\n' !in s
    ensures FirstLine(s) == s
  {
    if s != "" {
      OneLine(s[1..]);
    }
  }

  lemma WordReads(run: string, at: Time, lane: string)
    requires RunArg(Some(run))
    ensures MarkerOf(Word(run, at)).None? && !Anonymous(Word(run, at).body)
    ensures IdentityHit(Word(run, at).body, lane, Some(run)) && Word(run, at).at == at
  {
    var line := "run=" + run;
    assert IsSpace(' ') && IsSpace('\n');
    assert ' ' !in line && '\n' !in line;
    OneLine(line);
    NoBlankNoMarker(line);
    assert MatchAt(line, line, 0);
  }

  function RivalBody(head: string, q: string, lane: string): string {
    head + " run=" + q + (" lane=" + lane)
  }

  lemma TwoReadings(head: string, q: string, lane: string)
    ensures RivalBody(head, q, lane) == head + " " + ("run=" + (q + (" lane=" + lane)))
    ensures RivalBody(head, q, lane) == head + " run=" + q + " " + ("lane=" + (lane + ""))
    ensures RivalBody(head, q, lane) == head + (" run=" + q) + (" lane=" + lane)
  {
  }

  lemma RunFirst(head: string, q: string, lane: string)
    requires 'r' !in head && q != "" && NoSpace(q)
    ensures TokenAfter(RivalBody(head, q, lane), "run=") == Some(q)
  {
    hide TokenAfter, NoSpace, RivalBody;
    TwoReadings(head, q, lane);
    assert (" lane=" + lane)[0] == ' ' && IsSpace(' ');
    TokenFound(head + " ", "run=", q, " lane=" + lane);
  }

  lemma LaneLast(head: string, q: string, lane: string)
    requires 'l' !in head && 'l' !in q && lane != "" && NoSpace(lane)
    ensures TokenAfter(RivalBody(head, q, lane), "lane=") == Some(lane)
  {
    hide TokenAfter, NoSpace, RivalBody;
    TwoReadings(head, q, lane);
    assert 'l' !in " run=" && 'l' !in head + " run=" + q + " ";
    TokenFound(head + " run=" + q + " ", "lane=", lane, "");
  }

  lemma RivalLine(head: string, q: string, lane: string)
    requires '\n' !in head && NoSpace(q) && NoSpace(lane)
    ensures FirstLine(RivalBody(head, q, lane)) == RivalBody(head, q, lane) && Contains(RivalBody(head, q, lane), head)
  {
    hide FirstLine, Contains;
    assert IsSpace('\n');
    assert '\n' !in q && '\n' !in lane && '\n' !in " run=" && '\n' !in " lane=";
    OneLine(RivalBody(head, q, lane));
    HeadIsContained(head, " run=" + q, " lane=" + lane);
    TwoReadings(head, q, lane);
  }

  lemma RivalReads(lane: string, q: string, at: Time)
    requires lane != "" && NoSpace(lane) && (q == "a" || q == "b")
    ensures var c := RivalClaim(lane, q, at);
      && MarkerOf(c) == Some(Claim(lane, Some(q))) && !Anonymous(c.body)
      && c.at == at && !LegacyName(Some(q))
  {
    hide TokenAfter, FirstLine, Contains, RivalBody;
    assert 'r' !in MARK && 'l' !in MARK && '\n' !in MARK && 'l' !in q && NoSpace(q);
    RivalLine(MARK, q, lane);
    RunFirst(MARK, q, lane);
    LaneLast(MARK, q, lane);
  }

  /** The opening comments: a word of the run that holds the lane, unless `n` leaves no room for it, then a claim of
      another run, then prose. */
  function Opening(lane: string, run: string, at: Time, n: nat): seq<Comment>
    requires n > 0
  {
    Lead(run, at, n) + [RivalClaim(lane, Rival(run), at)] + Filler(if n == 1 then 0 else n - 2, at)
  }

  function Lead(run: string, at: Time, n: nat): seq<Comment> {
    if n == 1 then [] else [Word(run, at)]
  }

  lemma FreshWindowRefuses(log: seq<Comment>, c: Comment, lane: string, q: string)
    requires MarkerOf(c) == Some(Claim(lane, Some(q))) && lane in ScanLog(log).open
    requires var run := ScanLog(log).out[ScanLog(log).open[lane]].run;
      run.Some? && run != Some(q) && Fresh(log, lane, run, c.at)
    ensures ScanLog(log + [c]) == ScanLog(log)
  {
    hide ParseMarker, ScanLog, Fresh;
    OpenInvariant(log);
    ScanAppend(log, c);
  }

  /** The whole log refuses the rival's window. */
  lemma OpeningIsRefused(pre: seq<Comment>, lane: string, run: string, at: Time, n: nat)
    requires n > 0 && lane in ScanLog(pre).open && ScanLog(pre).out[ScanLog(pre).open[lane]].run == Some(run)
    requires lane != "" && NoSpace(lane) && RunArg(Some(run))
    requires n == 1 ==> Fresh(pre, lane, Some(run), at)
    ensures ScanLog(pre + Opening(lane, run, at, n)) == ScanLog(pre)
  {
    hide MarkerOf, ScanLog, LastHit, NoSpace, RunArg, IdentityHit, LegacyName, Anonymous, RivalClaim, Word, Filler;
    var c, w := RivalClaim(lane, Rival(run), at), Word(run, at);
    RivalReads(lane, Rival(run), at);
    var led := pre + Lead(run, at, n);
    assert ScanLog(led) == ScanLog(pre) && Fresh(led, lane, Some(run), at) by {
      if n == 1 {
        assert led == pre;
      } else {
        WordReads(run, at, lane);
        ScanAppend(pre, w);
        LastHitAppend(pre, w, lane, Some(run));
      }
    }
    FreshWindowRefuses(led, c, lane, Rival(run));
    var k := if n == 1 then 0 else n - 2;
    FillerKeepsScan(led + [c], k, at);
    assert pre + Opening(lane, run, at, n) == led + [c] + Filler(k, at);
  }

  /** So it never vouches for the rival past its last comment. */
  lemma {:induction false} RivalIsUnvouched(pre: seq<Comment>, log: seq<Comment>, lane: string, q: string, t: Time,
                                            now: Time)
    requires Sorted(pre) && pre != [] && ScanLog(log) == ScanLog(pre) && t > pre[|pre| - 1].at
    requires lane in ScanLog(pre).open && ScanLog(pre).out[ScanLog(pre).open[lane]].run != Some(q)
    ensures !Vouches(WindowList(log, now), lane, Some(q), t)
  {
    hide ScanLog, LastHit, Fresh, StaleEnd;
    OpenInvariant(pre);
    ScanOrdered(pre, false);
  }

  /** The visible part gives the rival a window and vouches for it. */
  lemma OpeningVouches(lane: string, run: string, at: Time, n: nat)
    requires n > 0 && lane != "" && NoSpace(lane) && RunArg(Some(run))
    ensures Vouches(WindowList(Opening(lane, run, at, n), at + 1), lane, Some(Rival(run)), at + 1)
  {
    hide MarkerOf, ScanLog, LastHit, NoSpace, RunArg, IdentityHit, LegacyName, Anonymous, RivalClaim, Word, Filler;
    var c, q, led := RivalClaim(lane, Rival(run), at), Rival(run), Lead(run, at, n);
    RivalReads(lane, q, at);
    NothingOpen();
    if n != 1 {
      WordReads(run, at, lane);
      ScanAppend([], Word(run, at));
      assert [] + led == led;
    }
    assert ScanLog(led) == Scan([], map[]);
    ScanAppend(led, c);
    OwnMarkerHits(led, c);
    var k := if n == 1 then 0 else n - 2;
    var all := Opening(lane, run, at, n);
    FillerKeepsScan(led + [c], k, at);
    FillerIsUnheard(k, at, lane, q);
    LastHitConcat(led + [c], Filler(k, at), lane, Some(q));
    assert all == led + [c] + Filler(k, at);
    assert ScanLog(all).out == [Window(lane, Some(q), at, None)];
    assert WindowList(all, at + 1)[0] == Window(lane, Some(q), at, None);
  }

  // ----- exactly when the cut fails closed -----

  /** The last `n` comments of a log in time order whose markers are readable. */
  ghost predicate Visible(pre: seq<Comment>, suf: seq<Comment>, n: nat) {
    |suf| == n && Named(suf) && NoLegacyRuns(suf) && Sorted(pre + suf)
  }

  /** What the cut must not hide: an open window with a run. (One comment alone can also do no harm if that run
      is silent for a stale period already; no comment at all never does.) */
  ghost predicate NothingHidden(pre: seq<Comment>, n: nat) {
    forall lane :: lane in ScanLog(pre).open ==>
      var run := ScanLog(pre).out[ScanLog(pre).open[lane]].run;
      run.None? || n == 0 || (n == 1 && pre != [] && !Fresh(pre, lane, run, pre[|pre| - 1].at))
  }

  lemma OpeningIsVisible(pre: seq<Comment>, lane: string, run: string, n: nat)
    requires Sorted(pre) && pre != [] && n > 0 && lane != "" && NoSpace(lane) && RunArg(Some(run))
    ensures Visible(pre, Opening(lane, run, pre[|pre| - 1].at, n), n)
  {
    hide MarkerOf, NoSpace, RunArg, IdentityHit, LegacyName, RivalClaim, Word, Prose, Anonymous;
    var at := pre[|pre| - 1].at;
    var suf := Opening(lane, run, at, n);
    RivalReads(lane, Rival(run), at);
    WordReads(run, at, lane);
    ProseSaysNothing(at);
    ProseDate(at);
    forall i | 0 <= i < |suf|
      ensures suf[i].at == at && !Anonymous(suf[i].body)
      ensures MarkerOf(suf[i]).Some? ==> !LegacyName(MarkerOf(suf[i]).value.run)
    {
      assert suf[i] == Word(run, at) || suf[i] == RivalClaim(lane, Rival(run), at) || suf[i] == Prose(at);
    }
  }

  lemma ProseDate(at: Time)
    ensures Prose(at).at == at
  {
  }

  lemma HiddenFailsOpen(pre: seq<Comment>, n: nat)
    requires Sorted(pre) && NoLegacyRuns(pre) && !NothingHidden(pre, n)
    ensures exists suf, now :: Visible(pre, suf, n) && !FailsClosed(WindowList(suf, now), WindowList(pre + suf, now))
  {
    hide MarkerOf, ScanLog, Fresh, NoSpace, RunArg, LegacyName, Visible, Opening, Vouches;
    var s := ScanLog(pre);
    var lane :| lane in s.open && s.out[s.open[lane]].run.Some? && n != 0
                && !(n == 1 && pre != [] && !Fresh(pre, lane, s.out[s.open[lane]].run, pre[|pre| - 1].at));
    assert pre != [] by { NothingOpen(); }
    OpenInvariant(pre);
    WindowsArePlain(pre);
    var run, at := s.out[s.open[lane]].run.value, pre[|pre| - 1].at;
    assert Plain(s.out[s.open[lane]]);
    var suf := Opening(lane, run, at, n);
    OpeningIsVisible(pre, lane, run, n);
    OpeningIsRefused(pre, lane, run, at, n);
    OpeningVouches(lane, run, at, n);
    RivalIsUnvouched(pre, pre + suf, lane, Rival(run), at + 1, at + 1);
  }

  lemma OneCommentCovered(pre: seq<Comment>, suf: seq<Comment>)
    requires Sorted(pre) && NoLegacyRuns(pre) && NothingHidden(pre, 1) && Visible(pre, suf, 1)
    ensures Covered(ScanLog(suf).out, ScanLog(pre + suf).out)
  {
    hide MarkerOf, ScanStep, ScanLog, LegacyName, Anonymous, LastHit, RunsSeen, AllSeen, By, NoSpace, RunArg;
    var c, t := suf[0], ScanLog(pre);
    assert suf == [c] && [] + [c] == [c] && pre + [] == pre;
    NothingOpen();
    OpenInvariant([]);
    OpenInvariant(pre);
    WindowsArePlain(pre);
    SortedInit(pre, c);
    NothingToCover(t.out);
    forall lane | lane in t.open ensures Yields(pre, t.out[t.open[lane]], c.at) {
      assert Plain(t.out[t.open[lane]]);
      assert pre != [] ==> (pre + [c])[|pre| - 1].at <= (pre + [c])[|pre|].at;
    }
    ScanAppend(pre, c);
    ScanAppend([], c);
    CoverStep(pre, [], Scan([], map[]), t, c);
  }

  lemma HiddenNothingCovers(pre: seq<Comment>, suf: seq<Comment>, n: nat)
    requires Sorted(pre) && NoLegacyRuns(pre) && NothingHidden(pre, n) && Visible(pre, suf, n)
    ensures Covered(ScanLog(suf).out, ScanLog(pre + suf).out)
  {
    hide MarkerOf, ScanLog, LegacyName, Anonymous, Fresh, Sorted;
    NothingOpen();
    if n == 0 {
      assert suf == [];
      NothingToCover(ScanLog(pre + suf).out);
    } else if n == 1 {
      OneCommentCovered(pre, suf);
    } else {
      CutCovered(pre, suf);
    }
  }

  /** The promise that a report on the newest `n` comments fails closed: it vouches, at every moment, only for what
      the report on the whole log vouches for. It holds of every visible part if and only if the cut hides no open
      window with a run. */
  lemma FailsClosedExactly(pre: seq<Comment>, n: nat)
    requires Sorted(pre) && NoLegacyRuns(pre)
    ensures NothingHidden(pre, n) <==>
      forall suf, now :: Visible(pre, suf, n) ==> FailsClosed(WindowList(suf, now), WindowList(pre + suf, now))
  {
    hide ScanLog, NothingHidden, FailsClosed, WindowList, NoLegacyRuns, Sorted, Covered;
    if NothingHidden(pre, n) {
      forall suf, now | Visible(pre, suf, n) ensures FailsClosed(WindowList(suf, now), WindowList(pre + suf, now)) {
        HiddenNothingCovers(pre, suf, n);
        CoveredOutput(pre, suf, now);
        CoveredFailsClosed(WindowList(suf, now), WindowList(pre + suf, now));
      }
    } else {
      HiddenFailsOpen(pre, n);
    }
  }
}
