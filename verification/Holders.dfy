/** `holders()`: who holds a ticket, recomputed from its comment log.
    `Replay` is a left fold over the chronological log; `CurrentHolders` is the backward loop
    over the newest-first list that the script runs. */
module Holders {
  import opened Text
  import opened Markers
  import opened Log

  datatype Holder = Holder(lane: string, run: Run, at: Time)

  /** Dictionary of holders by identity key. */
  type HolderMap = map<string, Holder>

  const LEGACY := "legacy:"

  function IdKey(lane: string, run: Run): string {
    if run.Some? then run.value else LEGACY + lane
  }

  predicate CoholdLane(lane: string) {
    lane == "reviewer-A" || lane == "reviewer-B"
  }

  /** The holders that still vouch at `ref`, judged by the comments in `log`. */
  function Live(log: seq<Comment>, hs: HolderMap, ref: Time): (live: HolderMap)
    ensures forall k :: k in live <==> k in hs && Fresh(log, hs[k].lane, hs[k].run, ref)
    ensures forall k :: k in live ==> live[k] == hs[k]
  {
    map k | k in hs && Fresh(log, hs[k].lane, hs[k].run, ref) :: hs[k]
  }

  predicate CanCoholdJoin(lane: string, live: HolderMap) {
    && CoholdLane(lane)
    && (live == map[] ||
        ((forall k :: k in live ==> CoholdLane(live[k].lane) && live[k].lane != lane) && |live| < 2))
  }

  function Drop(hs: HolderMap, key: string): HolderMap {
    map k | k in hs && k != key :: hs[k]
  }

  /** A CLAIM marker, given the holders `live` at the moment it was posted. */
  function OnClaim(hs: HolderMap, live: HolderMap, lane: string, run: Run, at: Time): HolderMap {
    var key := IdKey(lane, run);
    var entry := Holder(lane, run, at);
    if key in hs then hs[key := hs[key].(at := at)]
    else if run.Some? && LEGACY + lane in hs then Drop(hs, LEGACY + lane)[key := entry]
    else if live == map[] then map[key := entry]
    else if CanCoholdJoin(lane, live) then live[key := entry]
    else hs
  }

  function OnRelease(hs: HolderMap, run: Run): HolderMap {
    if run.None? then map[] else map k | k in hs && hs[k].run != run :: hs[k]
  }

  /** `live` is computed from comments older than `c`, so a marker never counts toward its own takeover. */
  function Step(older: seq<Comment>, hs: HolderMap, c: Comment): HolderMap {
    match MarkerOf(c)
    case None => hs
    case Some(Release(_, run)) => OnRelease(hs, run)
    case Some(Claim(lane, run)) => OnClaim(hs, Live(older, hs, c.at), lane, run, c.at)
  }

  function Replay(log: seq<Comment>): HolderMap
    decreases |log|
  {
    if log == [] then map[]
    else Step(log[..|log| - 1], Replay(log[..|log| - 1]), log[|log| - 1])
  }

  // ----- insertion order of the dictionary -----

  /** The keys that are still in the dictionary, in order. */
  function Kept(order: seq<string>, hs: HolderMap): seq<string> {
    if order == [] then [] else (if order[0] in hs then [order[0]] else []) + Kept(order[1..], hs)
  }

  /** Removing a key closes the gap, a new key goes to the end, and overwriting a value moves nothing. */
  function NextOrder(order: seq<string>, hs: HolderMap, c: Comment): seq<string> {
    var m := MarkerOf(c);
    if m.None? then order
    else
      var key := IdKey(m.value.lane, m.value.run);
      if m.value.Claim? && key in hs && key !in order then Kept(order, hs) + [key] else Kept(order, hs)
  }

  function KeyOrder(log: seq<Comment>): seq<string>
    decreases |log|
  {
    if log == [] then [] else NextOrder(KeyOrder(log[..|log| - 1]), Replay(log), log[|log| - 1])
  }

  /** `order` lists the keys of `hs`, each once. */
  ghost predicate Lists(order: seq<string>, hs: HolderMap) {
    && (forall k :: k in order <==> k in hs)
    && (forall i, j :: 0 <= i < j < |order| ==> order[i] != order[j])
  }

  ghost function KeySet(order: seq<string>): set<string> {
    set k | k in order
  }

  lemma {:induction false} DistinctSize(order: seq<string>)
    requires forall i, j :: 0 <= i < j < |order| ==> order[i] != order[j]
    ensures |KeySet(order)| == |order|
  {
    if order != [] {
      var n := |order| - 1;
      DistinctSize(order[..n]);
      assert KeySet(order) == KeySet(order[..n]) + {order[n]};
    }
  }

  lemma ListsSize(order: seq<string>, hs: HolderMap)
    requires Lists(order, hs)
    ensures |order| == |hs|
  {
    DistinctSize(order);
    assert KeySet(order) == hs.Keys && |hs| == |hs.Keys|;
  }

  lemma {:induction false} KeptFacts(order: seq<string>, hs: HolderMap)
    ensures forall k :: k in Kept(order, hs) <==> k in order && k in hs
    ensures (forall i, j :: 0 <= i < j < |order| ==> order[i] != order[j]) ==>
      forall i, j :: 0 <= i < j < |Kept(order, hs)| ==> Kept(order, hs)[i] != Kept(order, hs)[j]
  {
    if order != [] {
      KeptFacts(order[1..], hs);
      assert order == [order[0]] + order[1..];
      var t := Kept(order[1..], hs);
      if forall i, j :: 0 <= i < j < |order| ==> order[i] != order[j] {
        forall j | 0 <= j < |t| ensures t[j] != order[0] {
          assert t[j] in order[1..];
        }
      }
    }
  }

  lemma KeysOfStep(older: seq<Comment>, hs: HolderMap, c: Comment)
    ensures MarkerOf(c).None? ==> Step(older, hs, c) == hs
    ensures forall k :: k in Step(older, hs, c) && k !in hs ==>
      MarkerOf(c).Some? && MarkerOf(c).value.Claim? && k == IdKey(MarkerOf(c).value.lane, MarkerOf(c).value.run)
  {
    hide ParseMarker, IdKey;
  }

  /** The order lists exactly the holders of the log. */
  lemma {:induction false} OrderLists(log: seq<Comment>)
    ensures Lists(KeyOrder(log), Replay(log))
    decreases |log|
  {
    hide Step, MarkerOf, IdKey, Kept;
    if log != [] {
      var n := |log| - 1;
      OrderLists(log[..n]);
      KeysOfStep(log[..n], Replay(log[..n]), log[n]);
      KeptFacts(KeyOrder(log[..n]), Replay(log));
    }
  }

  lemma OrderAppend(log: seq<Comment>, c: Comment)
    ensures KeyOrder(log + [c]) == NextOrder(KeyOrder(log), Replay(log + [c]), c)
  {
    assert (log + [c])[..|log|] == log;
  }

  lemma ReplayAppend(log: seq<Comment>, c: Comment)
    ensures Replay(log + [c]) == Step(log, Replay(log), c)
  {
  }

  lemma SplitLast(log: seq<Comment>, ext: seq<Comment>)
    requires ext != []
    ensures log + ext == log + ext[..|ext| - 1] + [ext[|ext| - 1]]
  {
  }

  // ----- the loop of the script -----

  datatype HolderInfo = HolderInfo(lane: string, run: Run, at: Time, idle: Option<int>)

  function Describe(log: seq<Comment>, h: Holder, now: Time): HolderInfo {
    HolderInfo(h.lane, h.run, h.at, Idle(log, h.lane, h.run, now))
  }

  predicate IsLive(h: HolderInfo) {
    h.idle.Some? && h.idle.value <= STALE
  }

  function InfoKey(x: HolderInfo): string {
    IdKey(x.lane, x.run)
  }

  /** `out` describes exactly the holders `done` of `hs`, one entry each. */
  ghost predicate Listed(log: seq<Comment>, hs: HolderMap, done: set<string>, now: Time, out: seq<HolderInfo>) {
    && (forall k :: k in done && k in hs ==> Describe(log, hs[k], now) in out)
    && (forall x :: x in out ==> InfoKey(x) in done && InfoKey(x) in hs && x == Describe(log, hs[InfoKey(x)], now))
    && Distinct(out)
  }

  ghost predicate Distinct(out: seq<HolderInfo>) {
    forall i, j :: 0 <= i < j < |out| ==> InfoKey(out[i]) != InfoKey(out[j])
  }

  ghost predicate ByAt(out: seq<HolderInfo>) {
    forall i, j :: 0 <= i < j < |out| ==> out[i].at <= out[j].at
  }

  /** The holders in dictionary order. */
  function Described(log: seq<Comment>, hs: HolderMap, order: seq<string>, now: Time): seq<HolderInfo>
    requires forall k :: k in order ==> k in hs
  {
    seq(|order|, i requires 0 <= i < |order| => Describe(log, hs[order[i]], now))
  }

  /** The entries dated `t`, in order. */
  function AtTime(out: seq<HolderInfo>, t: Time): seq<HolderInfo> {
    if out == [] then [] else (if out[0].at == t then [out[0]] else []) + AtTime(out[1..], t)
  }

  /** Entries of equal date come in dictionary order, as a stable sort leaves them. */
  ghost predicate Stable(log: seq<Comment>, hs: HolderMap, order: seq<string>, now: Time, out: seq<HolderInfo>) {
    && Lists(order, hs)
    && forall t :: AtTime(out, t) == AtTime(Described(log, hs, order, now), t)
  }

  /** `out` is what the script returns: every holder of the log once, earliest `at` first, ties in the order in
      which they entered the dictionary. */
  ghost predicate HolderList(log: seq<Comment>, now: Time, out: seq<HolderInfo>) {
    && ByAt(out) && Listed(log, Replay(log), Replay(log).Keys, now, out)
    && Stable(log, Replay(log), KeyOrder(log), now, out)
  }

  /** Insert by `at`, after the entries that are not later. */
  function Insert(out: seq<HolderInfo>, x: HolderInfo): seq<HolderInfo> {
    if out == [] || x.at < out[0].at then [x] + out else [out[0]] + Insert(out[1..], x)
  }

  lemma {:induction false} InsertMembers(out: seq<HolderInfo>, x: HolderInfo)
    ensures forall y :: y in Insert(out, x) <==> y == x || y in out
  {
    if out != [] && x.at >= out[0].at {
      InsertMembers(out[1..], x);
      assert out == [out[0]] + out[1..];
    }
  }

  lemma {:induction false} InsertDistinct(out: seq<HolderInfo>, x: HolderInfo)
    requires Distinct(out) && forall y :: y in out ==> InfoKey(y) != InfoKey(x)
    ensures Distinct(Insert(out, x))
  {
    hide IdKey;
    if out != [] && x.at >= out[0].at {
      var t := Insert(out[1..], x);
      InsertDistinct(out[1..], x);
      InsertMembers(out[1..], x);
      forall j | 0 <= j < |t| ensures InfoKey(t[j]) != InfoKey(out[0]) {
        assert t[j] == x || t[j] in out[1..];
      }
    }
  }

  lemma {:induction false} InsertSorted(out: seq<HolderInfo>, x: HolderInfo)
    requires ByAt(out)
    ensures ByAt(Insert(out, x))
  {
    if out != [] && x.at >= out[0].at {
      var t := Insert(out[1..], x);
      InsertSorted(out[1..], x);
      InsertMembers(out[1..], x);
      forall j | 0 <= j < |t| ensures out[0].at <= t[j].at {
        assert t[j] == x || t[j] in out[1..];
      }
    }
  }

  lemma {:induction false} NoneAt(out: seq<HolderInfo>, t: Time)
    requires forall i :: 0 <= i < |out| ==> out[i].at != t
    ensures AtTime(out, t) == []
  {
    if out != [] {
      NoneAt(out[1..], t);
    }
  }

  lemma AtTimeCons(x: HolderInfo, out: seq<HolderInfo>, t: Time)
    ensures AtTime([x] + out, t) == (if x.at == t then [x] else []) + AtTime(out, t)
  {
  }

  lemma {:induction false} AtTimeAppend(out: seq<HolderInfo>, x: HolderInfo, t: Time)
    ensures AtTime(out + [x], t) == AtTime(out, t) + if x.at == t then [x] else []
  {
    if out == [] {
      assert out + [x] == [x] && [x][1..] == [];
    } else {
      AtTimeAppend(out[1..], x, t);
      assert (out + [x])[1..] == out[1..] + [x];
    }
  }

  /** Insertion keeps entries of one date in the order of their insertion. */
  lemma {:induction false} InsertAtTime(out: seq<HolderInfo>, x: HolderInfo, t: Time)
    requires ByAt(out)
    ensures AtTime(Insert(out, x), t) == AtTime(out, t) + if x.at == t then [x] else []
  {
    if out == [] || x.at < out[0].at {
      AtTimeCons(x, out, t);
      if x.at == t {
        NoneAt(out, t);
      }
    } else {
      InsertAtTime(out[1..], x, t);
      AtTimeCons(out[0], Insert(out[1..], x), t);
    }
  }

  lemma {:induction false} AtTimeMembers(out: seq<HolderInfo>, t: Time)
    ensures forall x :: x in AtTime(out, t) <==> x in out && x.at == t
  {
    if out != [] {
      AtTimeMembers(out[1..], t);
      assert out == [out[0]] + out[1..];
    }
  }

  /** Of two sorted lists that agree date by date, the second starts no later. */
  lemma StartsNoLater(a: seq<HolderInfo>, b: seq<HolderInfo>)
    requires ByAt(b) && a != [] && forall t :: AtTime(a, t) == AtTime(b, t)
    ensures b != [] && b[0].at <= a[0].at
  {
    hide AtTime;
    AtTimeMembers(a, a[0].at);
    AtTimeMembers(b, a[0].at);
    assert a[0] in b;
  }

  lemma AtTimeTail(out: seq<HolderInfo>, t: Time)
    requires out != []
    ensures out[0].at == t ==>
      AtTime(out, t) != [] && AtTime(out, t)[0] == out[0] && AtTime(out, t)[1..] == AtTime(out[1..], t)
    ensures out[0].at != t ==> AtTime(out, t) == AtTime(out[1..], t)
  {
  }

  lemma {:induction false} SortedUnique(a: seq<HolderInfo>, b: seq<HolderInfo>)
    requires ByAt(a) && ByAt(b) && forall t :: AtTime(a, t) == AtTime(b, t)
    ensures a == b
  {
    hide AtTime;
    if a != [] {
      StartsNoLater(a, b);
    }
    if b != [] {
      StartsNoLater(b, a);
    }
    if a != [] && b != [] {
      AtTimeTail(a, a[0].at);
      AtTimeTail(b, a[0].at);
      assert a[0] == b[0];
      forall t ensures AtTime(a[1..], t) == AtTime(b[1..], t) {
        AtTimeTail(a, t);
        AtTimeTail(b, t);
      }
      SortedUnique(a[1..], b[1..]);
      assert a == [a[0]] + a[1..] && b == [b[0]] + b[1..];
    }
  }

  /** The log and the moment determine the list. */
  lemma HolderListUnique(log: seq<Comment>, now: Time, a: seq<HolderInfo>, b: seq<HolderInfo>)
    requires HolderList(log, now, a) && HolderList(log, now, b)
    ensures a == b
  {
    hide Replay, KeyOrder, AtTime, ByAt, Listed, Described;
    forall t ensures AtTime(a, t) == AtTime(b, t) {
      var d := Described(log, Replay(log), KeyOrder(log), now);
      assert AtTime(a, t) == AtTime(d, t) && AtTime(b, t) == AtTime(d, t);
    }
    SortedUnique(a, b);
  }

  ghost predicate Keyed(hs: HolderMap) {
    forall k :: k in hs ==> k == IdKey(hs[k].lane, hs[k].run)
  }

  ghost predicate Within(live: HolderMap, hs: HolderMap) {
    forall k :: k in live ==> k in hs && live[k] == hs[k]
  }

  lemma KeyedClaim(hs: HolderMap, live: HolderMap, lane: string, run: Run, at: Time)
    requires Keyed(hs) && Within(live, hs)
    ensures Keyed(OnClaim(hs, live, lane, run, at))
  {
  }

  lemma KeyedStep(older: seq<Comment>, hs: HolderMap, c: Comment)
    requires Keyed(hs)
    ensures Keyed(Step(older, hs, c))
  {
    hide ParseMarker, OnClaim;
    var m := MarkerOf(c);
    if m.Some? && m.value.Claim? {
      KeyedClaim(hs, Live(older, hs, c.at), m.value.lane, m.value.run, c.at);
    }
  }

  /** Every log: each key is the identity of its entry. */
  lemma {:induction false} ReplayKeyed(log: seq<Comment>)
    ensures Keyed(Replay(log))
    decreases |log|
  {
    hide Step;
    if log != [] {
      var n := |log| - 1;
      ReplayKeyed(log[..n]);
      KeyedStep(log[..n], Replay(log[..n]), log[n]);
    }
  }

  /** The holders whose last word, among the comments from `start` on, is no older than the limit at `ref`. */
  method LiveAt(nodes: seq<Comment>, hs: HolderMap, ref: Time, start: nat) returns (live: HolderMap)
    requires start <= |nodes|
    ensures live == Live(Chronological(nodes[start..]), hs, ref)
  {
    ghost var log := Chronological(nodes[start..]);
    live := map[];
    var todo := hs.Keys;
    while todo != {}
      invariant todo <= hs.Keys
      invariant live == map k | k in Live(log, hs, ref) && k !in todo :: hs[k]
    {
      var k :| k in todo;
      var idle := IdleMin(nodes, hs[k].lane, hs[k].run, ref, start);
      if idle.Some? && idle.value <= STALE {
        live := live[k := hs[k]];
      }
      todo := todo - {k};
    }
  }

  /** One comment of the replay, judged against the comments older than it. */
  method ReplayOne(nodes: seq<Comment>, idx: nat, before: HolderMap) returns (hs: HolderMap)
    requires idx < |nodes|
    ensures hs == Step(Chronological(nodes[idx + 1..]), before, nodes[idx])
  {
    hide ParseMarker, Fresh;
    hs := before;
    var c := nodes[idx];
    match MarkerOf(c)
    case None =>
    case Some(Release(_, run)) =>
      if run.None? {
        hs := map[];
      } else {
        hs := map k | k in hs && hs[k].run != run :: hs[k];
      }
    case Some(Claim(lane, run)) =>
      var key := IdKey(lane, run);
      if key in hs {
        hs := hs[key := hs[key].(at := c.at)];
      } else if run.Some? && LEGACY + lane in hs {
        hs := Drop(hs, LEGACY + lane);
        hs := hs[key := Holder(lane, run, c.at)];
      } else {
        var live := LiveAt(nodes, hs, c.at, idx + 1);
        if live == map[] {
          hs := map[key := Holder(lane, run, c.at)];
        } else if CanCoholdJoin(lane, live) {
          hs := live[key := Holder(lane, run, c.at)];
        }
      }
  }

  /** The replay loop of `holders()`: from the oldest comment (the end of the list) to the newest. */
  method ReplayLoop(nodes: seq<Comment>) returns (hs: HolderMap, order: seq<string>)
    ensures hs == Replay(Chronological(nodes)) && order == KeyOrder(Chronological(nodes))
  {
    hs, order := map[], [];
    var idx := |nodes|;
    assert Chronological(nodes[idx..]) == [];
    while idx > 0
      invariant 0 <= idx <= |nodes|
      invariant hs == Replay(Chronological(nodes[idx..])) && order == KeyOrder(Chronological(nodes[idx..]))
    {
      hide Step, NextOrder;
      idx := idx - 1;
      ghost var older := Chronological(nodes[idx + 1..]);
      ChronologicalStep(nodes, idx);
      ReplayAppend(older, nodes[idx]);
      OrderAppend(older, nodes[idx]);
      hs := ReplayOne(nodes, idx, hs);
      // A dictionary keeps the order in which its keys were inserted.
      order := NextOrder(order, hs, nodes[idx]);
    }
    assert nodes[0..] == nodes;
  }

  lemma ListedInsert(log: seq<Comment>, hs: HolderMap, done: set<string>, now: Time, out: seq<HolderInfo>, k: string)
    requires Keyed(hs) && k in hs && k !in done
    requires ByAt(out) && Listed(log, hs, done, now, out)
    ensures Listed(log, hs, done + {k}, now, Insert(out, Describe(log, hs[k], now)))
    ensures ByAt(Insert(out, Describe(log, hs[k], now)))
  {
    var x := Describe(log, hs[k], now);
    assert InfoKey(x) == k;
    hide Describe, IdKey;
    InsertMembers(out, x);
    InsertDistinct(out, x);
    InsertSorted(out, x);
  }

  /** The first `n` keys of `order` are presented. */
  ghost predicate Presented(log: seq<Comment>, hs: HolderMap, order: seq<string>, n: nat, now: Time,
                            out: seq<HolderInfo>)
    requires n <= |order| && Lists(order, hs)
  {
    && ByAt(out) && Listed(log, hs, KeySet(order[..n]), now, out)
    && forall t :: AtTime(out, t) == AtTime(Described(log, hs, order[..n], now), t)
  }

  lemma PresentNext(log: seq<Comment>, hs: HolderMap, order: seq<string>, n: nat, now: Time, out: seq<HolderInfo>)
    requires Keyed(hs) && Lists(order, hs) && n < |order| && Presented(log, hs, order, n, now, out)
    ensures Presented(log, hs, order, n + 1, now, Insert(out, Describe(log, hs[order[n]], now)))
  {
    hide Describe, IdKey, Insert, AtTime, ByAt, Listed;
    var x := Describe(log, hs[order[n]], now);
    assert order[..n + 1] == order[..n] + [order[n]];
    assert KeySet(order[..n + 1]) == KeySet(order[..n]) + {order[n]};
    ListedInsert(log, hs, KeySet(order[..n]), now, out, order[n]);
    assert Described(log, hs, order[..n + 1], now) == Described(log, hs, order[..n], now) + [x];
    forall t ensures AtTime(Insert(out, x), t) == AtTime(Described(log, hs, order[..n + 1], now), t) {
      InsertAtTime(out, x, t);
      AtTimeAppend(Described(log, hs, order[..n], now), x, t);
    }
  }

  /** The list comprehension and sort that end `holders()`. */
  method Present(nodes: seq<Comment>, hs: HolderMap, order: seq<string>, now: Time) returns (out: seq<HolderInfo>)
    requires Keyed(hs) && Lists(order, hs)
    ensures Presented(Chronological(nodes), hs, order, |order|, now, out)
  {
    ghost var log := Chronological(nodes);
    assert nodes[0..] == nodes;
    out := [];
    var n := 0;
    while n < |order|
      invariant 0 <= n <= |order|
      invariant Presented(log, hs, order, n, now, out)
    {
      hide Presented;
      var h := hs[order[n]];
      var idle := IdleMin(nodes, h.lane, h.run, now, 0);
      PresentNext(log, hs, order, n, now, out);
      out := Insert(out, HolderInfo(h.lane, h.run, h.at, idle));
      n := n + 1;
    }
  }

  /** `holders()` */
  method CurrentHolders(nodes: seq<Comment>, now: Time) returns (out: seq<HolderInfo>)
    ensures HolderList(Chronological(nodes), now, out)
  {
    hide Replay, KeyOrder, Describe, ByAt, AtTime;
    var hs, order := ReplayLoop(nodes);
    ReplayKeyed(Chronological(nodes));
    OrderLists(Chronological(nodes));
    out := Present(nodes, hs, order, now);
    assert order[..|order|] == order && KeySet(order) == hs.Keys;
  }
}
