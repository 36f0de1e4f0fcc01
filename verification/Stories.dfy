/** What a window of the report says about the log, in terms of its comments alone: which comment opened it, which
    ended it, and where. */
module Stories {
  import opened Text
  import opened Markers
  import opened Log
  import opened Holders
  import opened Windows

  /** `end` is the whole millisecond up to which some comment of the identity vouches, and beyond which none does. */
  ghost predicate LastWord(log: seq<Comment>, lane: string, run: Run, end: Time) {
    && end % 1000 == 0
    && (exists j :: 0 <= j < |log| && IdentityHit(log[j].body, lane, run) && end <= log[j].at + STALE)
    && (forall j :: 0 <= j < |log| && IdentityHit(log[j].body, lane, run) ==> log[j].at + STALE < end + 1000)
  }

  ghost predicate Known(log: seq<Comment>, lane: string, run: Run) {
    exists j :: 0 <= j < |log| && IdentityHit(log[j].body, lane, run)
  }

  // ----- the closing pass -----

  lemma StaleEndFound(log: seq<Comment>, lane: string, run: Run)
    requires Sorted(log)
    ensures StaleEnd(log, lane, run).Some? <==> Known(log, lane, run)
    ensures StaleEnd(log, lane, run).Some? ==> LastWord(log, lane, run, StaleEnd(log, lane, run).value)
  {
    hide IdentityHit, LastHit;
    IdleIsShortest(log, lane, run, 0);
    if StaleEnd(log, lane, run).Some? {
      StaleEndIsLastWord(log, lane, run);
    }
  }

  /** The report shows the windows of the scan. One that the scan closed is shown as it is; one that it left open has
      no end while its identity has been heard within the limit of now, and otherwise ends with its last word. (With
      no word at all, the script raises.) */
  lemma OutputExactly(log: seq<Comment>, now: Time, i: nat)
    requires Sorted(log) && i < |ScanLog(log).out|
    ensures i < |WindowList(log, now)|
    ensures var v, w := ScanLog(log).out[i], WindowList(log, now)[i];
      && w.lane == v.lane && w.run == v.run && w.start == v.start
      && (v.end.Some? ==> w.end == v.end)
      && (v.end.None? && Heard(log, v.lane, v.run, now) ==> w.end.None?)
      && (v.end.None? && !Heard(log, v.lane, v.run, now) && Known(log, v.lane, v.run) ==>
            w.end.Some? && LastWord(log, v.lane, v.run, w.end.value))
  {
    hide ScanLog, LastHit, IdentityHit, StaleEnd, LastWord, Fresh;
    var v := ScanLog(log).out[i];
    FreshExactly(log, v.lane, v.run, now);
    StaleEndFound(log, v.lane, v.run);
  }

  // ----- the scan -----

  /** Comment `a` opened the window; a run-less one may have got its run from a later claim `u` of its lane. */
  ghost predicate OpenedBy(log: seq<Comment>, w: Window, a: int) {
    && 0 <= a < |log| && log[a].at == w.start
    && (|| MarkerOf(log[a]) == Some(Claim(w.lane, w.run))
        || (MarkerOf(log[a]) == Some(Claim(w.lane, None))
            && exists u :: a < u < |log| && MarkerOf(log[u]) == Some(Claim(w.lane, w.run))))
  }

  /** Comment `b` ended the window at `end`: a RELEASE of everything, or of its lane and run, where it stands; or a
      CLAIM of its lane by another identity, after its run had been silent for the stale limit, with its last word. */
  ghost predicate EndedBy(log: seq<Comment>, w: Window, end: Time, b: int) {
    && 0 <= b < |log| && MarkerOf(log[b]).Some?
    && match MarkerOf(log[b]).value
       case Release(lane, run) => (run.None? || (lane == w.lane && run == w.run)) && end == log[b].at
       case Claim(lane, run) =>
         && lane == w.lane && w.run.Some? && IdKey(lane, run) != IdKey(lane, w.run)
         && !Heard(log[..b], w.lane, w.run, log[b].at) && LastWord(log[..b], w.lane, w.run, end)
  }

  ghost predicate Story(log: seq<Comment>, w: Window) {
    exists a :: OpenedBy(log, w, a) && (w.end.Some? ==> exists b :: a < b && EndedBy(log, w, w.end.value, b))
  }

  lemma LaterStory(log: seq<Comment>, c: Comment, w: Window)
    requires Story(log, w)
    ensures Story(log + [c], w)
  {
    hide MarkerOf, LastWord, Heard, IdKey;
    var log' := log + [c];
    assert forall i :: 0 <= i < |log| ==> log'[i] == log[i] && log'[..i] == log[..i];
    var a :| OpenedBy(log, w, a) && (w.end.Some? ==> exists b :: a < b && EndedBy(log, w, w.end.value, b));
    assert OpenedBy(log', w, a);
    if w.end.Some? {
      var b :| a < b && EndedBy(log, w, w.end.value, b);
      assert EndedBy(log', w, w.end.value, b);
    }
  }

  lemma StoryContinues(log: seq<Comment>, c: Comment, w: Window)
    requires Sorted(log) && Story(log, w) && w.end.None?
    requires w.run.Some? ==> LastHit(log, w.lane, w.run).Some?
    ensures Story(log + [c], After(log, c, w))
  {
    hide ParseMarker, LastHit, LastWord, Heard, IdKey, StaleEnd, Fresh;
    var log', w' := log + [c], After(log, c, w);
    assert forall i :: 0 <= i < |log| ==> log'[i] == log[i];
    assert log'[|log|] == c && log'[..|log|] == log;
    LaterStory(log, c, w);
    var a :| OpenedBy(log, w, a);
    if w' != w {
      assert OpenedBy(log', w', a);
      if w'.end.Some? {
        FreshExactly(log, w.lane, w.run, c.at);
        StaleEndFound(log, w.lane, w.run);
        assert EndedBy(log', w', w'.end.value, |log|);
      }
    }
  }

  lemma NewStory(log: seq<Comment>, c: Comment, lane: string, run: Run)
    requires MarkerOf(c) == Some(Claim(lane, run))
    ensures Story(log + [c], Window(lane, run, c.at, None))
  {
    hide ParseMarker;
    assert (log + [c])[|log|] == c;
    assert OpenedBy(log + [c], Window(lane, run, c.at, None), |log|);
  }

  /** Every window of every sorted log has its story. */
  lemma {:induction false} WindowsHaveStories(log: seq<Comment>)
    requires Sorted(log)
    ensures forall i :: 0 <= i < |ScanLog(log).out| ==> Story(log, ScanLog(log).out[i])
    decreases |log|
  {
    hide ParseMarker, LastHit, ScanStep, After, Story, Ends;
    if log == [] {
      assert ScanLog(log).out == [];
    } else {
      var n := |log| - 1;
      var init, c := log[..n], log[n];
      assert log == init + [c];
      var s, s' := ScanLog(init), ScanLog(log);
      WindowsHaveStories(init);
      OpenInvariant(init);
      StepPerWindow(init, s, c);
      forall i | 0 <= i < |s'.out| ensures Story(log, s'.out[i]) {
        if i == |s.out| {
          NewStory(init, c, MarkerOf(c).value.lane, MarkerOf(c).value.run);
        } else if s.out[i].end.None? {
          StoryContinues(init, c, s.out[i]);
        } else {
          LaterStory(init, c, s.out[i]);
        }
      }
    }
  }
}
