/** The loop of `windows()`: a list of window records that the `open_by` dictionary aliases,
    updated in place while the newest-first list is walked from its end. */
module WindowLoop {
  import opened Text
  import opened Markers
  import opened Log
  import opened Holders
  import opened Windows

  class WindowRecord {
    var lane: string
    var run: Run
    var start: Time
    var end: Option<Time>

    constructor (lane: string, run: Run, start: Time)
      ensures View() == Window(lane, run, start, None)
    {
      this.lane, this.run, this.start, this.end := lane, run, start, None;
    }

    function View(): Window
      reads this
    {
      Window(lane, run, start, end)
    }
  }

  type Records = seq<WindowRecord>

  ghost predicate Shows(recs: Records, ws: seq<Window>)
    reads recs
  {
    && |recs| == |ws|
    && (forall i, j :: 0 <= i < j < |recs| ==> recs[i] != recs[j])
    && (forall i :: 0 <= i < |recs| ==> recs[i].View() == ws[i])
  }

  /** `openBy` aliases the records of the open windows. */
  ghost predicate Aliases(recs: Records, openBy: map<string, WindowRecord>, s: Scan) {
    && openBy.Keys == s.open.Keys
    && forall lane :: lane in openBy ==> s.open[lane] < |recs| && openBy[lane] == recs[s.open[lane]]
  }

  ghost predicate Linked(recs: Records, openBy: map<string, WindowRecord>, s: Scan)
    reads recs
  {
    Shows(recs, s.out) && Aliases(recs, openBy, s)
  }

  /** A RELEASE without a run: every aliased record gets its end, and no window stays open. */
  method CloseAllRecords(recs: Records, openBy: map<string, WindowRecord>, at: Time, ghost s: Scan)
    requires Linked(recs, openBy, s) && OpenExactly(s)
    modifies recs
    ensures Linked(recs, map[], CloseAll(s, at))
  {
    var todo := openBy.Keys;
    while todo != {}
      invariant todo <= openBy.Keys
      invariant forall i :: 0 <= i < |recs| ==>
        recs[i].View() == if s.out[i].end.None? && s.out[i].lane !in todo then Close(s.out[i], at) else s.out[i]
    {
      var lane :| lane in todo;
      openBy[lane].end := Some(at);
      todo := todo - {lane};
    }
    forall i | 0 <= i < |s.out|
      ensures CloseAll(s, at).out[i] == if s.out[i].end.None? then Close(s.out[i], at) else s.out[i]
    {
      ReleasePerWindow(s, "", None, at, i);
    }
  }

  /** The RELEASE branch with a run. */
  method CloseOwnRecord(recs: Records, openBy: map<string, WindowRecord>, lane: string, run: Run, at: Time,
                        ghost s: Scan)
    returns (openBy': map<string, WindowRecord>)
    requires Linked(recs, openBy, s) && OpenExactly(s)
    modifies recs
    ensures Linked(recs, openBy', CloseOwn(s, lane, run, at))
  {
    openBy' := openBy;
    if lane in openBy && openBy[lane].run == run {
      openBy[lane].end := Some(at);
      openBy' := map l | l in openBy && l != lane :: openBy[l];
    }
  }

  method Append(recs: Records, openBy: map<string, WindowRecord>, lane: string, run: Run, at: Time, ghost s: Scan)
    returns (recs': Records, openBy': map<string, WindowRecord>)
    requires Linked(recs, openBy, s)
    ensures Linked(recs', openBy', OpenNew(s, lane, run, at))
    ensures recs <= recs' && |recs'| == |recs| + 1 && fresh(recs'[|recs|])
  {
    var w := new WindowRecord(lane, run, at);
    recs' := recs + [w];
    openBy' := openBy[lane := w];
  }

  /** `_stale_end`; `None` stands for the `StopIteration` of `next()`. */
  method StaleEndOf(nodes: seq<Comment>, lane: string, run: Run, start: nat) returns (end: Option<Time>)
    requires start <= |nodes|
    ensures end == StaleEnd(Chronological(nodes[start..]), lane, run)
  {
    var idle := IdleMin(nodes, lane, run, 0, start);
    if idle.None? {
      return None;
    }
    return Some((STALE - idle.value) / 1000 * 1000);
  }

  /** An in-place change of the open window of a lane shows up in the list. */
  method SetOpen(recs: Records, openBy: map<string, WindowRecord>, lane: string, run: Run, end: Option<Time>,
                 ghost s: Scan)
    requires Linked(recs, openBy, s) && lane in openBy
    modifies recs
    ensures s.open[lane] < |s.out|
    ensures Linked(recs, openBy, s.(out := s.out[s.open[lane] := s.out[s.open[lane]].(run := run, end := end)]))
  {
    openBy[lane].run := run;
    openBy[lane].end := end;
  }

  /** The takeover branch: close the stale record where it stopped vouching, then open a new one. */
  method TakeOver(nodes: seq<Comment>, idx: nat, recs: Records, openBy: map<string, WindowRecord>,
                  lane: string, run: Run, at: Time, ghost s: Scan)
    returns (recs': Records, openBy': map<string, WindowRecord>, raised: bool)
    requires idx < |nodes| && InRange(s) && Linked(recs, openBy, s) && lane in openBy
    modifies recs
    ensures var end := OpenStaleEnd(Chronological(nodes[idx + 1..]), s, lane);
      var i := s.open[lane];
      && raised == end.None?
      && Linked(recs', openBy', OpenNew(s.(out := s.out[i := s.out[i].(end := end)]), lane, run, at))
    ensures recs <= recs' && |recs'| == |recs| + 1 && fresh(recs'[|recs|])
  {
    hide LastHit;
    var w := openBy[lane];
    assert w.View() == s.out[s.open[lane]];
    var end := StaleEndOf(nodes, w.lane, w.run, idx + 1);
    raised := end.None?;
    SetOpen(recs, openBy, lane, w.run, end, s);
    ghost var i := s.open[lane];
    recs', openBy' := Append(recs, openBy, lane, run, at, s.(out := s.out[i := s.out[i].(end := end)]));
  }

  /** The CLAIM branch. `raised` reports that `_stale_end` found nothing. */
  method ClaimRecord(nodes: seq<Comment>, idx: nat, recs: Records, openBy: map<string, WindowRecord>,
                     lane: string, run: Run, at: Time, ghost s: Scan)
    returns (recs': Records, openBy': map<string, WindowRecord>, raised: bool)
    requires idx < |nodes| && InRange(s) && Linked(recs, openBy, s)
    modifies recs
    ensures var older := Chronological(nodes[idx + 1..]);
      var stale, end := OpenIsStale(older, s, lane, at), OpenStaleEnd(older, s, lane);
      Linked(recs', openBy', ClaimWindow(s, lane, run, at, stale, end))
    ensures raised ==> lane in s.open && s.out[s.open[lane]].run.Some?
                       && OpenStaleEnd(Chronological(nodes[idx + 1..]), s, lane).None?
    ensures recs <= recs' && forall i :: |recs| <= i < |recs'| ==> fresh(recs'[i])
  {
    hide LastHit, StaleEnd;
    recs', openBy', raised := recs, openBy, false;
    if lane !in openBy {
      recs', openBy' := Append(recs, openBy, lane, run, at, s);
    } else {
      var w := openBy[lane];
      assert w.View() == s.out[s.open[lane]];
      if IdKey(lane, w.run) == IdKey(lane, run) {
      } else if w.run.None? && run.Some? {
        SetOpen(recs, openBy, lane, run, w.end, s);
      } else {
        var idle := IdleMin(nodes, w.lane, w.run, at, idx + 1);
        if idle.None? || idle.value > STALE {
          recs', openBy', raised := TakeOver(nodes, idx, recs, openBy, lane, run, at, s);
        }
      }
    }
  }

  ghost predicate Mine(recs: Records, openBy: map<string, WindowRecord>, log: seq<Comment>)
    reads recs
  {
    Linked(recs, openBy, ScanLog(log))
  }

  /** One comment. The scan never raises: a window that is taken over has a run, hence a hit. */
  method ScanOne(nodes: seq<Comment>, idx: nat, recs: Records, openBy: map<string, WindowRecord>)
    returns (recs': Records, openBy': map<string, WindowRecord>, raised: bool)
    requires idx < |nodes| && Mine(recs, openBy, Chronological(nodes[idx + 1..]))
    modifies recs
    ensures !raised
    ensures Mine(recs', openBy', Chronological(nodes[idx..]))
    ensures recs <= recs' && forall i :: |recs| <= i < |recs'| ==> fresh(recs'[i])
  {
    hide ParseMarker, ClaimWindow, CloseAll, CloseOwn, Linked, Shows, Aliases, OpenIsStale, OpenStaleEnd;
    ghost var older := Chronological(nodes[idx + 1..]);
    ghost var s := ScanLog(older);
    OpenInvariant(older);
    ChronologicalStep(nodes, idx);
    ScanAppend(older, nodes[idx]);
    var c := nodes[idx];
    recs', openBy', raised := recs, openBy, false;
    match MarkerOf(c)
    case None =>
    case Some(Release(lane, run)) =>
      if run.None? {
        CloseAllRecords(recs, openBy, c.at, s);
        openBy' := map[];
      } else {
        openBy' := CloseOwnRecord(recs, openBy, lane, run, c.at, s);
      }
    case Some(Claim(lane, run)) =>
      recs', openBy', raised := ClaimRecord(nodes, idx, recs, openBy, lane, run, c.at, s);
      if raised {
        TakeoverFindsHit(older, lane);
        assert false;
      }
  }

  /** The scan of `windows()`, oldest comment first. */
  method ScanLoop(nodes: seq<Comment>) returns (recs: Records, openBy: map<string, WindowRecord>, raised: bool)
    ensures !raised
    ensures Mine(recs, openBy, Chronological(nodes))
    ensures forall k :: 0 <= k < |recs| ==> fresh(recs[k])
  {
    recs, openBy, raised := [], map[], false;
    var idx := |nodes|;
    assert Chronological(nodes[idx..]) == [];
    assert ScanLog([]) == Scan([], map[]);
    while idx > 0
      invariant 0 <= idx <= |nodes| && !raised
      invariant Mine(recs, openBy, Chronological(nodes[idx..]))
      invariant forall k :: 0 <= k < |recs| ==> fresh(recs[k])
    {
      hide Mine;
      idx := idx - 1;
      recs, openBy, raised := ScanOne(nodes, idx, recs, openBy);
    }
    assert nodes[0..] == nodes;
  }

  /** `windows()`; `raised` stands for the exception that `next()` lets escape. */
  method CurrentWindows(nodes: seq<Comment>, now: Time) returns (recs: Records, raised: bool)
    ensures raised <==> Raises(Chronological(nodes))
    ensures !raised ==> Shows(recs, WindowList(Chronological(nodes), now))
    ensures forall k :: 0 <= k < |recs| ==> fresh(recs[k])
  {
    hide ScanLog, LastHit, ParseMarker;
    var openBy;
    recs, openBy, raised := ScanLoop(nodes);
    ghost var log := Chronological(nodes);
    ghost var out := ScanLog(log).out;
    assert nodes[0..] == nodes;
    var i := 0;
    while i < |recs|
      invariant 0 <= i <= |recs| == |out| && !raised
      invariant forall k :: 0 <= k < |recs| ==> fresh(recs[k])
      invariant forall a, b :: 0 <= a < b < |recs| ==> recs[a] != recs[b]
      invariant forall j :: 0 <= j < i ==> recs[j].View() == Settle(log, out[j], now)
      invariant forall j :: i <= j < |recs| ==> recs[j].View() == out[j]
      invariant forall j :: 0 <= j < i && out[j].end.None? ==> LastHit(log, out[j].lane, out[j].run).Some?
    {
      var w := recs[i];
      assert w.View() == out[i];
      if w.end.None? {
        var idle := IdleMin(nodes, w.lane, w.run, now, 0);
        if idle.None? || idle.value > STALE {
          var end := StaleEndOf(nodes, w.lane, w.run, 0);
          if end.None? {
            assert out[i].end.None? && LastHit(log, out[i].lane, out[i].run).None?;
            return recs, true;
          }
          w.end := end;
        }
      }
      i := i + 1;
    }
  }
}
