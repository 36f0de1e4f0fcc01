/** Concrete logs on which the script does not do what its own text promises. Each shows that a condition of the
    general theorems can be met and that the exclusion it makes is needed. */
module Inputs {
  import opened Text
  import opened Markers
  import opened Log
  import opened Holders
  import opened HolderLaws
  import opened Windows
  import opened Cuts
  import opened Vouching
  import opened Agreement
  import opened Commands

  const MINUTE: int := 60 * 1_000_000

  /** The claim of the older script, which knew no runs. */
  function OldClaim(lane: string, at: Time): Comment {
    Comment(MarkerLine(MARK, lane, None, "") + "\n" + "", at)
  }

  function Heartbeat(lane: string, run: string, at: Time): Comment {
    Comment(BeatBody(lane, Some(run), ""), at)
  }

  lemma OldClaimReads(lane: string, at: Time)
    requires LaneArg(lane)
    ensures MarkerOf(OldClaim(lane, at)) == Some(Claim(lane, None)) && !Anonymous(OldClaim(lane, at).body)
  {
    LineParses(true, lane, None, "", "");
  }

  lemma PostedReads(lane: string, run: string, at: Time)
    requires LaneArg(lane) && RunArg(Some(run))
    ensures MarkerOf(Posted(lane, run, at)) == Some(Claim(lane, Some(run))) && !Anonymous(Posted(lane, run, at).body)
    ensures Posted(lane, run, at).at == at
  {
    ClaimRoundTrip(lane, run, "");
  }

  lemma BeatReads(lane: string, run: string, at: Time)
    requires LaneArg(lane) && RunArg(Some(run))
    ensures MarkerOf(Heartbeat(lane, run, at)) == Some(Claim(lane, Some(run)))
    ensures !Anonymous(Heartbeat(lane, run, at).body)
    ensures Heartbeat(lane, run, at).at == at
  {
    BeatRoundTrip(lane, Some(run), "");
  }

  lemma Names()
    ensures LaneArg("implementer") && LaneArg("reviewer") && LaneArg("reviewer-A") && LaneArg("reviewer-B")
    ensures forall s :: s == "a" || s == "b" || s == "x" || s == "y" ==> RunArg(Some(s)) && !LegacyName(Some(s))
    ensures !LegacyName(None)
  {
    NoEquals("implementer");
    NoEquals("reviewer");
    NoEquals("reviewer-A");
    NoEquals("reviewer-B");
  }

  /** The first claim on a ticket holds it and is live. */
  lemma FirstHolds(c: Comment, h: Holder)
    requires MarkerOf(c) == Some(Claim(h.lane, h.run)) && c.at == h.at && !Anonymous(c.body)
    ensures Replay([c]) == map[IdKey(h.lane, h.run) := h] && LastHit([c], h.lane, h.run) == Some(h.at)
    ensures ScanLog([c]) == Scan([Window(h.lane, h.run, h.at, None)], map[h.lane := 0])
  {
    hide ParseMarker, LastHit, Anonymous, Live, Replay, ScanLog;
    OwnMarkerHits([], c);
    StepClaim([], c, h);
    ScanAppend([], c);
    NothingHeld();
    NothingOpen();
    assert Live([], map[], h.at) == map[];
    assert [] + [c] == [c];
  }

  // ----- windows() raises -----

  /** A first line that holds the claim sign and nothing else: `windows()` fails on it, whatever the time. */
  lemma BareClaimRaises(at: Time)
    ensures Raises([Comment(MARK, at)])
  {
    var c := Comment(MARK, at);
    BareClaimReads();
    hide ParseMarker, ScanLog, Raises, MARK;
    NothingOpen();
    ScanAppend([], c);
    assert [] + [c] == [c];
    RaisesExactly([c]);
  }

  lemma BareClaimReads()
    ensures ParseMarker(MARK) == Some(Claim("unknown", None)) && !Contains(MARK, "lane=unknown")
  {
    assert '=' !in MARK && '\n' !in MARK;
    assert FirstLine(MARK) == MARK;
    assert MatchAt(MARK, MARK, 0);
    NoKey(MARK, "lane=", 4);
    NoKey(MARK, "run=", 3);
    assert |MARK| < |"lane=unknown"|;
  }

  /** Text without `=` has no token after a key that ends in `=`. */
  lemma NoKey(s: string, key: string, i: nat)
    requires '=' !in s && i < |key| && key[i] == '='
    ensures TokenAfter(s, key).None?
  {
    forall q ensures !Starts(s, key, q) {
      MatchChars(s, key, q);
    }
  }

  // ----- the two replays differ -----

  /** Two roles claim at once: the second is no holder, yet has an open window. */
  lemma LoserHasWindow(at: Time)
    ensures var log := [Posted("implementer", "a", at)] + [Posted("reviewer", "b", at)];
      && Replay(log).Keys == {"a"} && !Together(log)
      && ScanLog(log).out == [Window("implementer", Some("a"), at, None), Window("reviewer", Some("b"), at, None)]
  {
    hide *;
    Names();
    PostedReads("implementer", "a", at);
    PostedReads("reviewer", "b", at);
    LoserOf(Posted("implementer", "a", at), Posted("reviewer", "b", at), Holder("implementer", Some("a"), at));
  }

  lemma LoserOf(c0: Comment, c1: Comment, h: Holder)
    requires h.lane == "implementer" && h.run == Some("a") && c0.at == c1.at == h.at
    requires MarkerOf(c0) == Some(Claim("implementer", Some("a"))) && !Anonymous(c0.body)
    requires MarkerOf(c1) == Some(Claim("reviewer", Some("b")))
    ensures Replay([c0] + [c1]).Keys == {"a"} && !Together([c0] + [c1])
    ensures ScanLog([c0] + [c1]).out
         == [Window("implementer", Some("a"), h.at, None), Window("reviewer", Some("b"), h.at, None)]
  {
    hide MarkerOf, Replay, ScanLog, LastHit, Anonymous;
    FirstHolds(c0, h);
    LoserIsInert([c0], c1, h);
    assert "reviewer" in OpenRuns(ScanLog([c0] + [c1]));
  }

  lemma LoserIsInert(log: seq<Comment>, c: Comment, h: Holder)
    requires Replay(log) == map["a" := h]
    requires ScanLog(log) == Scan([Window("implementer", Some("a"), h.at, None)], map["implementer" := 0])
    requires h.lane == "implementer" && h.run == Some("a") && "a" in Live(log, Replay(log), c.at)
    requires MarkerOf(c) == Some(Claim("reviewer", Some("b")))
    ensures Replay(log + [c]) == Replay(log)
    ensures ScanLog(log + [c]).out == ScanLog(log).out + [Window("reviewer", Some("b"), c.at, None)]
    ensures ScanLog(log + [c]).open == map["implementer" := 0, "reviewer" := 1]
  {
    hide MarkerOf, Replay, ScanLog, Fresh;
    ReplayAppend(log, c);
    ScanAppend(log, c);
    assert LEGACY + "reviewer" != "a";
  }

  /** The implementer falls silent, a reviewer takes over two hours later, and the implementer's late heartbeat
      gives its dead window an end after the takeover. */
  lemma ZombieWindow(at: Time)
    ensures var late := at + 120 * MINUTE;
      var log := [Posted("implementer", "a", at)] + [Posted("reviewer", "b", late)]
        + [Heartbeat("implementer", "a", late + MINUTE)];
      && Replay(log).Keys == {"b"}
      && forall now :: now - late > STALE + MINUTE ==>
           |WindowList(log, now)| > 0 && WindowList(log, now)[0].lane == "implementer"
           && WindowList(log, now)[0].end == Some((late + MINUTE + STALE) / 1000 * 1000)
  {
    hide MarkerOf, Posted, Heartbeat, Replay, Anonymous, LaneArg, RunArg, LegacyName, WindowList;
    var late := at + 120 * MINUTE;
    Names();
    PostedReads("implementer", "a", at);
    PostedReads("reviewer", "b", late);
    BeatReads("implementer", "a", late + MINUTE);
    ZombieOf(Posted("implementer", "a", at), Posted("reviewer", "b", late),
             Heartbeat("implementer", "a", late + MINUTE),
             Holder("implementer", Some("a"), at), Holder("reviewer", Some("b"), late));
    assert IdKey("reviewer", Some("b")) == "b";
  }

  lemma ZombieOf(c: Comment, d: Comment, z: Comment, o: Holder, h: Holder)
    requires MarkerOf(c) == Some(Claim(o.lane, o.run)) && c.at == o.at && !Anonymous(c.body)
    requires MarkerOf(d) == Some(Claim(h.lane, h.run)) && d.at == h.at && !Anonymous(d.body)
    requires MarkerOf(z) == Some(Claim(o.lane, o.run)) && d.at < z.at <= d.at + STALE
    requires o.run.Some? && h.run.Some? && o.run != h.run && !LegacyName(o.run) && !LegacyName(h.run)
    requires o.lane != h.lane && !CoholdLane(o.lane) && h.at - o.at > STALE
    ensures Replay([c] + [d] + [z]) == map[IdKey(h.lane, h.run) := h]
    ensures forall now :: now - z.at > STALE ==>
      |WindowList([c] + [d] + [z], now)| > 0
      && WindowList([c] + [d] + [z], now)[0] == Window(o.lane, o.run, o.at, Some((z.at + STALE) / 1000 * 1000))
  {
    hide ParseMarker, Replay, ScanLog, LastHit, Anonymous, WindowList, IdentityHit, CoholdLane;
    FirstHolds(c, o);
    var key := o.run.value;
    assert Together([c]) by {
      assert OpenRuns(ScanLog([c])) == map[o.lane := o.run];
    }
    assert TakenOver([c], d, key, h) by {
      assert LEGACY <= LEGACY + h.lane;
      assert Live([c], Replay([c]), d.at) == map[];
    }
    hide LegacyName, Together, TakenOver;
    ZombieStretchesWindow([c], d, z, key, h, z.at + STALE + 1);
    forall now | now - z.at > STALE
      ensures |WindowList([c] + [d] + [z], now)| > 0
        && WindowList([c] + [d] + [z], now)[0] == Window(o.lane, o.run, o.at, Some((z.at + STALE) / 1000 * 1000))
    {
      ZombieStretchesWindow([c], d, z, key, h, now);
    }
  }

  // ----- cuts -----

  /** Sixty comments after a claim, what the script sees no longer holds it: the ticket reads free while its holder
      is live, and another implementer's claim is let through. */
  lemma SixtyCommentsHideTheHolder(at: Time)
    ensures var pre, suf := [Posted("implementer", "a", at)], Filler(60, at);
      && "a" in Live(pre + suf, Replay(pre + suf), at)
      && Replay(suf) == map[] && HolderList(suf, at, []) && ClaimAccepted([], "implementer", "b")
  {
    Names();
    PostedReads("implementer", "a", at);
    hide MarkerOf, Posted, Replay, Live, LaneArg, RunArg, HolderList, Filler, Anonymous;
    LiveThroughFiller(Posted("implementer", "a", at), Holder("implementer", Some("a"), at), 60);
    EmptyList(Filler(60, at), at);
  }

  lemma LiveThroughFiller(c: Comment, h: Holder, n: nat)
    requires MarkerOf(c) == Some(Claim(h.lane, h.run)) && c.at == h.at && !Anonymous(c.body)
    requires h.run.Some? && h.run.value != ""
    ensures var log := [c] + Filler(n, h.at);
      h.run.value in Live(log, Replay(log), h.at) && Replay(Filler(n, h.at)) == map[]
  {
    hide MarkerOf, Replay, LastHit, Anonymous, Filler, ScanLog, Sorted, Named;
    FirstHolds(c, h);
    assert h.run.value in Replay([c]);
    CutHidesHolder([c], n);
    FillerIsUnheard(n, h.at, h.lane, h.run.value);
    LastHitConcat([c], Filler(n, h.at), h.lane, h.run);
  }

  lemma EmptyList(log: seq<Comment>, now: Time)
    requires Replay(log) == map[]
    ensures HolderList(log, now, [])
  {
    hide Replay, Describe, KeyOrder;
    OrderLists(log);
    ListsSize(KeyOrder(log), Replay(log));
  }

  /** Cut just before the claim that lost the race, the newest sixty comments hand the loser a window, which vouches
      for it although the whole log never does. */
  lemma CutCreatesWindow(at: Time)
    ensures var pre, suf := [Posted("reviewer-A", "a", at)], [Posted("reviewer-A", "b", at)] + Filler(59, at);
      && |suf| == 60
      && ScanLog(pre + suf).out == [Window("reviewer-A", Some("a"), at, None)]
      && ScanLog(suf).out == [Window("reviewer-A", Some("b"), at, None)]
      && !FailsClosed(WindowList(suf, at), WindowList(pre + suf, at))
  {
    hide MarkerOf, Posted, ScanLog, Replay, LastHit, Anonymous, LaneArg, RunArg, LegacyName, FailsClosed, WindowList;
    hide Filler;
    Names();
    PostedReads("reviewer-A", "a", at);
    PostedReads("reviewer-A", "b", at);
    var c0, c1 := Posted("reviewer-A", "a", at), Posted("reviewer-A", "b", at);
    CutRace(c0, c1, Holder("reviewer-A", Some("a"), at), Holder("reviewer-A", Some("b"), at));
    FillerKeepsScan([c1], 59, at);
    FillerKeepsScan([c0] + [c1], 59, at);
    FirstHolds(c1, Holder("reviewer-A", Some("b"), at));
    FillerIsUnheard(59, at, "reviewer-A", "b");
    LastHitConcat([c1], Filler(59, at), "reviewer-A", Some("b"));
    assert [c0] + ([c1] + Filler(59, at)) == [c0] + [c1] + Filler(59, at);
    LoserVouchedFor([c1] + Filler(59, at), [c0] + ([c1] + Filler(59, at)), "reviewer-A", "a", "b", at);
  }

  lemma LoserVouchedFor(suf: seq<Comment>, log: seq<Comment>, lane: string, a: string, b: string, at: Time)
    requires ScanLog(suf).out == [Window(lane, Some(b), at, None)] && a != b
    requires ScanLog(log).out == [Window(lane, Some(a), at, None)]
    requires LastHit(suf, lane, Some(b)) == Some(at)
    ensures !FailsClosed(WindowList(suf, at), WindowList(log, at))
  {
    hide ScanLog, LastHit, StaleEnd;
    assert WindowList(suf, at)[0] == Window(lane, Some(b), at, None);
    assert Vouches(WindowList(suf, at), lane, Some(b), at);
    assert forall i :: 0 <= i < |WindowList(log, at)| ==> WindowList(log, at)[i].run == Some(a);
  }

  lemma CutRace(c0: Comment, c1: Comment, h0: Holder, h1: Holder)
    requires MarkerOf(c0) == Some(Claim(h0.lane, h0.run)) && !Anonymous(c0.body) && c0.at == h0.at
    requires MarkerOf(c1) == Some(Claim(h1.lane, h1.run)) && !Anonymous(c1.body) && c1.at == h1.at
    requires h0.run.Some? && h1.run.Some? && h0.run != h1.run && h0.lane == h1.lane && h1.at - h0.at <= STALE
    ensures ScanLog([c0] + [c1]).out == [Window(h0.lane, h0.run, h0.at, None)]
    ensures ScanLog([c1]).out == [Window(h1.lane, h1.run, h1.at, None)]
  {
    hide ParseMarker, ScanLog, Replay, LastHit, Anonymous;
    FirstHolds(c0, h0);
    FirstHolds(c1, h1);
    ScanAppend([c0], c1);
  }

  // ----- releases -----

  /** A release whose run its snapshot does not show is posted without a run: decided on an empty ticket, it wipes
      the live claim of somebody who came in between. */
  lemma LateReleaseWipes(at: Time)
    ensures var log := [Posted("implementer", "y", at)];
      var body := ReleaseBody("reviewer", PlanRelease([], "reviewer", Some("x")).run, "Ready", "");
      && HolderList(log[..0], at, []) && PlanRelease([], "reviewer", Some("x")).Post?
      && "y" in Live(log, Replay(log), at) && Replay(log + [Comment(body, at)]) == map[]
  {
    hide *;
    Names();
    PostedReads("implementer", "y", at);
    UnknownRunPlan();
    OnlyHolder(Posted("implementer", "y", at), Holder("implementer", Some("y"), at));
    NothingHeld();
    EmptyList([], at);
    assert [Posted("implementer", "y", at)][..0] == [];
    ReleaseStep([Posted("implementer", "y", at)], "reviewer", None, "Ready", "", at);
    NobodyLeft(Replay([Posted("implementer", "y", at)]));
  }

  lemma UnknownRunPlan()
    ensures PlanRelease([], "reviewer", Some("x")) == Post(None, true) && StateArg("Ready") && RunArg(None)
  {
  }

  lemma NobodyLeft(hs: HolderMap)
    ensures OnRelease(hs, None) == map[]
  {
  }

  lemma OnlyHolder(c: Comment, h: Holder)
    requires MarkerOf(c) == Some(Claim(h.lane, h.run)) && c.at == h.at && !Anonymous(c.body) && h.run.Some?
    ensures h.run.value in Live([c], Replay([c]), h.at)
  {
    hide MarkerOf, Replay, LastHit, ScanLog, Anonymous;
    FirstHolds(c, h);
  }

  /** reviewer-A claims the old way, then reviewer-B with a run. */
  function MixedLog(at: Time): seq<Comment> {
    [OldClaim("reviewer-A", at)] + [Posted("reviewer-B", "b", at + MINUTE)]
  }

  function HolderA(at: Time): Holder {
    Holder("reviewer-A", None, at)
  }

  function HolderB(at: Time): Holder {
    Holder("reviewer-B", Some("b"), at)
  }

  const KEY_A := "legacy:reviewer-A"

  lemma KeyOfA(at: Time)
    ensures IdKey("reviewer-A", None) == KEY_A && KEY_A != "b" && LEGACY + "reviewer-B" != KEY_A
  {
    assert (LEGACY + "reviewer-B")[|LEGACY + "reviewer-B"| - 1] == 'B';
  }

  lemma MixedCohold(at: Time)
    ensures Replay(MixedLog(at)) == map[KEY_A := HolderA(at), "b" := HolderB(at + MINUTE)]
    ensures LastHit(MixedLog(at), "reviewer-A", None) == Some(at)
    ensures LastHit(MixedLog(at), "reviewer-B", Some("b")) == Some(at + MINUTE)
  {
    hide MarkerOf, OldClaim, Posted, Replay, LastHit, LaneArg, RunArg, ScanLog, Anonymous, IdentityHit, ClaimBody;
    hide LegacyName, IdKey;
    var c, d := OldClaim("reviewer-A", at), Posted("reviewer-B", "b", at + MINUTE);
    Names();
    OldClaimReads("reviewer-A", at);
    PostedReads("reviewer-B", "b", at + MINUTE);
    ClaimOfBMissesA();
    Dates(at);
    KeyOfA(at);
    FirstHolds(c, HolderA(at));
    MixedJoin([c], d, at);
    OwnMarkerHits([c], d);
    LastHitAppend([c], d, "reviewer-A", None);
  }

  lemma Dates(at: Time)
    ensures OldClaim("reviewer-A", at).at == at
    ensures Posted("reviewer-B", "b", at + MINUTE) == Comment(ClaimBody("reviewer-B", "b", ""), at + MINUTE)
  {
  }

  lemma MixedJoin(log: seq<Comment>, d: Comment, at: Time)
    requires Replay(log) == map[KEY_A := HolderA(at)] && LastHit(log, "reviewer-A", None) == Some(at)
    requires MarkerOf(d) == Some(Claim("reviewer-B", Some("b"))) && d.at == at + MINUTE
    ensures Replay(log + [d]) == map[KEY_A := HolderA(at), "b" := HolderB(at + MINUTE)]
  {
    hide MarkerOf, Replay, LastHit;
    KeyOfA(at);
    var hs := Replay(log);
    StepClaim(log, d, HolderB(at + MINUTE));
    LiveIsAll(log, hs, d.at);
    assert hs.Keys == {KEY_A} && |hs| == |hs.Keys| == 1;
  }

  /** Text in which the last character of `sub` occurs only before position |sub| - 1 does not contain `sub`. */
  lemma NoTag(head: string, rest: string, sub: string)
    requires 0 < |sub| && |head| < |sub| && sub[|sub| - 1] !in rest
    ensures !Contains(head + rest, sub)
  {
    var s := head + rest;
    forall i | 0 <= i <= |s| - |sub| ensures !MatchAt(s, sub, i) {
      MatchChars(s, sub, i);
      assert s[i + |sub| - 1] == rest[i + |sub| - 1 - |head|];
    }
  }

  /** A marker line and its text do not quote a lane whose last letter occurs in neither. */
  lemma LineMisses(head: string, lane: string, run: string, suffix: string, text: string, other: string)
    requires |head| < |other|
    requires var x := other[|other| - 1];
      x !in " lane=" && x !in lane && x !in " run=" && x !in run && x !in suffix && x != '\n' && x !in text
    ensures !Contains(MarkerLine(head, lane, Some(run), suffix) + "\n" + ("\n" + text), "lane=" + other)
  {
    var x := other[|other| - 1];
    var line := lane + (RunPart(Some(run)) + suffix);
    var rest := " lane=" + line + ("\n" + ("\n" + text));
    assert x !in line && x !in rest;
    assert MarkerLine(head, lane, Some(run), suffix) + "\n" + ("\n" + text) == head + rest;
    NoTag(head, rest, "lane=" + other);
  }

  lemma LineOfBMissesA(suffix: string, text: string)
    requires 'A' !in suffix && 'A' !in text
    ensures !IdentityHit(MarkerLine(MARK, "reviewer-B", Some("b"), suffix) + "\n" + ("\n" + text), "reviewer-A", None)
  {
    hide Contains, MarkerLine;
    var other := "reviewer-A";
    assert other[|other| - 1] == 'A' && |MARK| < |other|;
    LineMisses(MARK, "reviewer-B", "b", suffix, text, other);
  }

  lemma ClaimOfBMissesA()
    ensures !IdentityHit(ClaimBody("reviewer-B", "b", ""), "reviewer-A", None)
    ensures !IdentityHit(BeatBody("reviewer-B", Some("b"), ""), "reviewer-A", None)
  {
    hide IdentityHit, MarkerLine;
    LineOfBMissesA("", "");
    LineOfBMissesA(HEARTBEAT, "still working");
  }

  lemma TwoHolders(log: seq<Comment>, now: Time, a: Holder, b: Holder)
    requires IdKey(a.lane, a.run) != IdKey(b.lane, b.run) && a.at < b.at
    requires Replay(log) == map[IdKey(a.lane, a.run) := a, IdKey(b.lane, b.run) := b]
    ensures HolderList(log, now, [Describe(log, a, now), Describe(log, b, now)])
  {
    hide Replay, LastHit, IdKey, KeyOrder, AtTime;
    var x, y := Describe(log, a, now), Describe(log, b, now);
    assert [x, y][0] == x && [x, y][1] == y;
    OrderLists(log);
    TwoKeys(KeyOrder(log), Replay(log), IdKey(a.lane, a.run), IdKey(b.lane, b.run));
    var d := Described(log, Replay(log), KeyOrder(log), now);
    assert d == [x, y] || d == [y, x];
    forall t ensures AtTime([x, y], t) == AtTime(d, t) {
      EitherOrder(x, y, t);
    }
  }

  lemma TwoKeys(order: seq<string>, hs: HolderMap, a: string, b: string)
    requires Lists(order, hs) && a != b && hs.Keys == {a, b}
    ensures order == [a, b] || order == [b, a]
  {
    ListsSize(order, hs);
    assert |hs| == |hs.Keys| == 2;
    assert order[0] in hs && order[1] in hs;
  }

  /** The order of two entries of different dates does not show. */
  lemma EitherOrder(x: HolderInfo, y: HolderInfo, t: Time)
    requires x.at != y.at
    ensures AtTime([x, y], t) == AtTime([y, x], t)
  {
    assert [x, y][1..] == [y] && [y, x][1..] == [x] && [x][1..] == [] && [y][1..] == [];
  }

  /** The holder list of the mixed co-hold when its older claim was last heard `idleA` ago. */
  function MixedList(at: Time, atB: Time, idleA: int, idleB: int): Infos {
    [HolderInfo("reviewer-A", None, at, Some(idleA)), HolderInfo("reviewer-B", Some("b"), atB, Some(idleB))]
  }

  lemma MixedListed(log: seq<Comment>, at: Time, atB: Time, now: Time)
    requires Replay(log) == map[KEY_A := HolderA(at), "b" := HolderB(atB)] && at < atB
    requires LastHit(log, "reviewer-A", None) == Some(at) && LastHit(log, "reviewer-B", Some("b")) == Some(atB)
    ensures HolderList(log, now, MixedList(at, atB, now - at, now - atB))
  {
    hide Replay, LastHit, HolderList;
    KeyOfA(at);
    TwoHolders(log, now, HolderA(at), HolderB(atB));
  }

  /** Without a run, reviewer-A's release is let through because its own claim is the older one, and it wipes the
      live run of reviewer-B too. */
  lemma RunlessReleaseWipes(at: Time)
    ensures var log, now := MixedLog(at), at + MINUTE;
      var hs := MixedList(at, now, MINUTE, 0);
      var plan := PlanRelease(hs, "reviewer-A", None);
      && HolderList(log, now, hs) && plan.Post? && "b" in Live(log, Replay(log), now)
      && Replay(log + [Comment(ReleaseBody("reviewer-A", plan.run, "Ready", ""), now)]) == map[]
  {
    hide MarkerOf, MixedLog, Replay, LastHit, LaneArg, HolderList, ReleaseBody, MixedList, PlanRelease;
    var log, now := MixedLog(at), at + MINUTE;
    MixedCohold(at);
    MixedListed(log, at, now, now);
    Names();
    RunlessPlan(at, now);
    UnknownRunPlan();
    ReleaseStep(log, "reviewer-A", None, "Ready", "", now);
  }

  lemma RunlessPlan(at: Time, atB: Time)
    ensures PlanRelease(MixedList(at, atB, MINUTE, 0), "reviewer-A", None) == Post(None, true)
  {
    var hs := MixedList(at, atB, MINUTE, 0);
    assert LiveOf(hs) == [hs[0]] + LiveOf(hs[1..]);
    assert FindHolder(hs, "reviewer-A", None) == Some(hs[0]);
  }

  /** reviewer-A falls silent; reviewer-B stays, and leaves with a note that quotes reviewer-A's lane. */
  function RevivalLog(at: Time): seq<Comment> {
    MixedLog(at) + [Heartbeat("reviewer-B", "b", at + 100 * MINUTE)]
  }

  lemma RevivalHolders(at: Time)
    ensures Replay(RevivalLog(at)) == map[KEY_A := HolderA(at), "b" := HolderB(at + 100 * MINUTE)]
    ensures LastHit(RevivalLog(at), "reviewer-A", None) == Some(at)
    ensures LastHit(RevivalLog(at), "reviewer-B", Some("b")) == Some(at + 100 * MINUTE)
  {
    hide MarkerOf, MixedLog, Replay, LastHit, LaneArg, RunArg, IdentityHit, BeatBody, LegacyName, Anonymous, Live;
    hide OnClaim;
    var log, z := MixedLog(at), Heartbeat("reviewer-B", "b", at + 100 * MINUTE);
    Names();
    MixedCohold(at);
    BeatReads("reviewer-B", "b", at + 100 * MINUTE);
    StepClaim(log, z, HolderB(at + 100 * MINUTE));
    BeatDates(at, at + MINUTE, at + 100 * MINUTE, Live(log, Replay(log), z.at));
    ClaimOfBMissesA();
    OwnMarkerHits(log, z);
    LastHitAppend(log, z, "reviewer-A", None);
  }

  lemma BeatDates(at: Time, atB: Time, later: Time, live: HolderMap)
    ensures OnClaim(map[KEY_A := HolderA(at), "b" := HolderB(atB)], live, "reviewer-B", Some("b"), later)
         == map[KEY_A := HolderA(at), "b" := HolderB(later)]
  {
    hide CanCoholdJoin;
  }

  lemma RevivalPlan(at: Time, atB: Time)
    ensures PlanRelease(MixedList(at, atB, 101 * MINUTE, MINUTE), "reviewer-B", Some("b")) == Post(Some("b"), true)
    ensures StateArg("QA Review")
  {
    var hs := MixedList(at, atB, 101 * MINUTE, MINUTE);
    assert LiveOf(hs[1..]) == [hs[1]] + LiveOf(hs[2..]);
    assert FindHolder(hs, "reviewer-B", Some("b")) == FindHolder(hs[1..], "reviewer-B", Some("b")) == Some(hs[1]);
  }

  /** The note is part of the comment. */
  lemma NoteIsContained(lane: string, run: Run, target: string, note: string)
    requires note != ""
    ensures Contains(ReleaseBody(lane, run, target, note), note)
  {
    var body := ReleaseBody(lane, run, target, note);
    var i := |body| - |note|;
    assert MatchAt(body, note, i);
  }

  /** The state moves to QA Review although, on the log the release creates, reviewer-A reads as a live holder. */
  lemma ReleaseRevivesHolder(at: Time)
    ensures var log, now := RevivalLog(at), at + 101 * MINUTE;
      var hs := MixedList(at, at + 100 * MINUTE, 101 * MINUTE, MINUTE);
      var plan := PlanRelease(hs, "reviewer-B", Some("b"));
      var log' := log + [Comment(ReleaseBody("reviewer-B", Some("b"), "QA Review", "lane=reviewer-A"), now)];
      && HolderList(log, now, hs) && plan == Post(Some("b"), true)
      && KEY_A in Live(log', Replay(log'), now)
  {
    hide MarkerOf, RevivalLog, Replay, LastHit, LaneArg, HolderList, ReleaseBody, MixedList, PlanRelease, Contains;
    hide RunArg, StateArg, LegacyName;
    var log, now := RevivalLog(at), at + 101 * MINUTE;
    var body := ReleaseBody("reviewer-B", Some("b"), "QA Review", "lane=reviewer-A");
    RevivalHolders(at);
    MixedListed(log, at, at + 100 * MINUTE, now);
    Names();
    KeyOfA(at);
    RevivalPlan(at, at + 100 * MINUTE);
    ReleaseStep(log, "reviewer-B", Some("b"), "QA Review", "lane=reviewer-A", now);
    NoteIsContained("reviewer-B", Some("b"), "QA Review", "lane=reviewer-A");
    assert "lane=" + "reviewer-A" == "lane=reviewer-A";
    LastHitAppend(log, Comment(body, now), "reviewer-A", None);
  }

  // ----- runs that begin alike -----

  /** A run is kept alive by every run that it begins: `a` has been silent for a hundred minutes, and is live because
      `ab` was refused fifty minutes ago. */
  lemma ForeignRunKeepsAlive(at: Time)
    ensures var log := [Posted("implementer", "a", at)] + [Posted("implementer", "ab", at + 50 * MINUTE)];
      Replay(log).Keys == {"a"} && "a" in Live(log, Replay(log), at + 100 * MINUTE)
  {
    hide MarkerOf, Posted, Replay, ScanLog, LastHit, Anonymous, LaneArg, RunArg, LegacyName, IdentityHit;
    Names();
    LongerName();
    var c, d := Posted("implementer", "a", at), Posted("implementer", "ab", at + 50 * MINUTE);
    PostedReads("implementer", "a", at);
    PostedReads("implementer", "ab", at + 50 * MINUTE);
    var h := Holder("implementer", Some("a"), at);
    FirstHolds(c, h);
    LaterRunLoses([c], d, h);
    LongerRunHits(at + 50 * MINUTE);
    LastHitAppend([c], d, "implementer", Some("a"));
  }

  lemma LongerName()
    ensures RunArg(Some("ab"))
  {
  }

  lemma LongerRunHits(at: Time)
    ensures IdentityHit(Posted("implementer", "ab", at).body, "implementer", Some("a"))
  {
    hide IdentityHit, MarkerLine, LaneArg, RunArg, LegacyName;
    Names();
    LongerName();
    assert "a" <= "ab" && Suffix("");
    RefreshesExactly(MARK, "implementer", "ab", "a", "", "\n" + "");
  }

  lemma LaterRunLoses(log: seq<Comment>, d: Comment, h: Holder)
    requires h.lane == "implementer" && h.run == Some("a") && Replay(log) == map["a" := h]
    requires LastHit(log, "implementer", Some("a")) == Some(h.at) && d.at == h.at + 50 * MINUTE
    requires MarkerOf(d) == Some(Claim("implementer", Some("ab")))
    ensures Replay(log + [d]) == Replay(log)
  {
    hide MarkerOf, Replay, LastHit;
    ReplayAppend(log, d);
    assert "a" in Live(log, Replay(log), d.at);
    assert LEGACY + "implementer" != "a";
  }
}
