/** In which order the holder list names its holders: by date, and at equal dates by how long they have held. */
module HolderOrder {
  import opened Text
  import opened Markers
  import opened Log
  import opened Holders

  /** Comment `j` made `k` a holder, and it has been one ever since. */
  ghost predicate HeldSince(log: seq<Comment>, k: string, j: int) {
    0 <= j < |log| && k !in Replay(log[..j]) && forall i :: j < i <= |log| ==> k in Replay(log[..i])
  }

  ghost predicate Before<T(!new)>(s: seq<T>, x: T, y: T) {
    exists a, b :: 0 <= a < b < |s| && s[a] == x && s[b] == y
  }

  // ----- the comment that made somebody a holder -----

  /** Every holder has one. */
  lemma {:induction false} HeldSinceExists(log: seq<Comment>, k: string)
    requires k in Replay(log)
    ensures exists j :: HeldSince(log, k, j)
    decreases |log|
  {
    hide Step;
    var n := |log| - 1;
    var init := log[..n];
    assert log[..|log|] == log;
    if k in Replay(init) {
      HeldSinceExists(init, k);
      var j :| HeldSince(init, k, j);
      HeldLonger(log, k, j);
    } else {
      assert HeldSince(log, k, n);
    }
  }

  lemma HeldLonger(log: seq<Comment>, k: string, j: int)
    requires log != [] && k in Replay(log) && HeldSince(log[..|log| - 1], k, j)
    ensures HeldSince(log, k, j)
  {
    hide Replay;
    var init := log[..|log| - 1];
    assert forall i :: 0 <= i <= |init| ==> init[..i] == log[..i];
    assert log[..|log|] == log;
  }

  lemma HeldShorter(log: seq<Comment>, k: string, j: int)
    requires log != [] && HeldSince(log, k, j) && j < |log| - 1
    ensures HeldSince(log[..|log| - 1], k, j) && k in Replay(log[..|log| - 1])
  {
    hide Replay;
    var init := log[..|log| - 1];
    assert forall i :: 0 <= i <= |init| ==> init[..i] == log[..i];
    assert init[..|init|] == init;
  }

  /** One comment makes at most one holder. */
  lemma OneEntry(log: seq<Comment>, k: string, k': string, j: int)
    requires HeldSince(log, k, j) && HeldSince(log, k', j)
    ensures k == k'
  {
    hide Replay, Step;
    var init, c := log[..j], log[j];
    assert log[..j + 1] == init + [c];
    ReplayAppend(init, c);
    KeysOfStep(init, Replay(init), c);
  }

  // ----- dictionary order is order of entry -----

  lemma {:induction false} KeptBefore(order: seq<string>, hs: HolderMap, x: string, y: string)
    requires Before(order, x, y) && x in hs && y in hs
    ensures Before(Kept(order, hs), x, y)
  {
    var a, b :| 0 <= a < b < |order| && order[a] == x && order[b] == y;
    var t := Kept(order[1..], hs);
    KeptFacts(order[1..], hs);
    if a == 0 {
      assert order[1..][b - 1] == y;
      assert y in t;
      var i :| 0 <= i < |t| && t[i] == y;
      assert Kept(order, hs) == [x] + t && ([x] + t)[0] == x && ([x] + t)[i + 1] == y;
    } else {
      assert order[1..][a - 1] == x && order[1..][b - 1] == y;
      KeptBefore(order[1..], hs, x, y);
      var i, j :| 0 <= i < j < |t| && t[i] == x && t[j] == y;
      var head := if order[0] in hs then [order[0]] else [];
      assert Kept(order, hs) == head + t;
      assert (head + t)[|head| + i] == x && (head + t)[|head| + j] == y;
    }
  }

  lemma AppendBefore(s: seq<string>, x: string, y: string)
    requires x in s
    ensures Before(s + [y], x, y)
  {
    var a :| 0 <= a < |s| && s[a] == x;
    assert (s + [y])[a] == x && (s + [y])[|s|] == y;
  }

  lemma PrefixBefore(s: seq<string>, z: string, x: string, y: string)
    requires Before(s, x, y)
    ensures Before(s + [z], x, y)
  {
    var a, b :| 0 <= a < b < |s| && s[a] == x && s[b] == y;
    assert (s + [z])[a] == x && (s + [z])[b] == y;
  }

  lemma {:induction false} EarlierEntryFirst(log: seq<Comment>, k: string, k': string, j: int, j': int)
    requires HeldSince(log, k, j) && HeldSince(log, k', j') && j < j'
    ensures Before(KeyOrder(log), k, k')
    decreases |log|
  {
    hide Step, MarkerOf, IdKey, Kept, Before;
    var n := |log| - 1;
    var init, c := log[..n], log[n];
    var order, hs := KeyOrder(init), Replay(log);
    assert log[..|log|] == log && log == init + [c];
    OrderLists(init);
    KeptFacts(order, hs);
    HeldShorter(log, k, j);
    assert k in Kept(order, hs);
    if j' == n {
      KeysOfStep(init, Replay(init), c);
      assert k' !in order && KeyOrder(log) == Kept(order, hs) + [k'];
      AppendBefore(Kept(order, hs), k, k');
    } else {
      HeldShorter(log, k', j');
      EarlierEntryFirst(init, k, k', j, j');
      KeptBefore(order, hs, k, k');
      if MarkerOf(c).None? {
        KeysOfStep(init, Replay(init), c);
      } else {
        PrefixBefore(Kept(order, hs), IdKey(MarkerOf(c).value.lane, MarkerOf(c).value.run), k, k');
      }
    }
  }

  // ----- and the list keeps it at equal dates -----

  lemma {:induction false} BeforeAtTime(out: seq<HolderInfo>, t: Time, x: HolderInfo, y: HolderInfo)
    requires Before(out, x, y) && x.at == t && y.at == t
    ensures Before(AtTime(out, t), x, y)
  {
    var a, b :| 0 <= a < b < |out| && out[a] == x && out[b] == y;
    var rest := AtTime(out[1..], t);
    AtTimeMembers(out[1..], t);
    if a == 0 {
      assert out[1..][b - 1] == y;
      assert y in rest;
      var i :| 0 <= i < |rest| && rest[i] == y;
      assert AtTime(out, t) == [x] + rest && ([x] + rest)[0] == x && ([x] + rest)[i + 1] == y;
    } else {
      assert out[1..][a - 1] == x && out[1..][b - 1] == y;
      BeforeAtTime(out[1..], t, x, y);
      var i, j :| 0 <= i < j < |rest| && rest[i] == x && rest[j] == y;
      var head := if out[0].at == t then [out[0]] else [];
      assert AtTime(out, t) == head + rest;
      assert (head + rest)[|head| + i] == x && (head + rest)[|head| + j] == y;
    }
  }

  lemma {:induction false} AtTimeBefore(out: seq<HolderInfo>, t: Time, x: HolderInfo, y: HolderInfo)
    requires Before(AtTime(out, t), x, y)
    ensures Before(out, x, y)
  {
    hide AtTime;
    if out == [] {
      assert AtTime(out, t) == [] by { NoneAt(out, t); }
      assert false;
    }
    var rest, all := AtTime(out[1..], t), AtTime(out, t);
    AtTimeTail(out, t);
    AtTimeMembers(out[1..], t);
    var i, j :| 0 <= i < j < |all| && all[i] == x && all[j] == y;
    if out[0].at == t && i == 0 {
      assert all[1..][j - 1] == y;
      assert y in out[1..];
      var b :| 0 <= b < |out[1..]| && out[1..][b] == y;
      assert out[0] == x && out[b + 1] == y;
    } else {
      if out[0].at == t {
        assert all[1..][i - 1] == x && all[1..][j - 1] == y;
      }
      assert Before(rest, x, y);
      AtTimeBefore(out[1..], t, x, y);
      var a, b :| 0 <= a < b < |out[1..]| && out[1..][a] == x && out[1..][b] == y;
      assert out[a + 1] == x && out[b + 1] == y;
    }
  }

  lemma DescribedBefore(log: seq<Comment>, hs: HolderMap, order: seq<string>, now: Time, k: string, k': string)
    requires Lists(order, hs) && Before(order, k, k')
    ensures k in hs && k' in hs
    ensures Before(Described(log, hs, order, now), Describe(log, hs[k], now), Describe(log, hs[k'], now))
  {
    hide Describe;
    var a, b :| 0 <= a < b < |order| && order[a] == k && order[b] == k';
    var d := Described(log, hs, order, now);
    assert d[a] == Describe(log, hs[k], now) && d[b] == Describe(log, hs[k'], now);
  }

  lemma BeforeMeans(out: seq<HolderInfo>, a: int, b: int)
    requires Distinct(out) && 0 <= a < |out| && 0 <= b < |out| && Before(out, out[a], out[b])
    ensures a < b
  {
    hide InfoKey;
    var i, j :| 0 <= i < j < |out| && out[i] == out[a] && out[j] == out[b];
    assert i == a && j == b;
  }

  lemma TieGoesToEarlier(log: seq<Comment>, now: Time, out: seq<HolderInfo>, a: int, b: int, j: int, j': int)
    requires HolderList(log, now, out) && 0 <= a < |out| && 0 <= b < |out| && out[a].at == out[b].at
    requires HeldSince(log, InfoKey(out[a]), j) && HeldSince(log, InfoKey(out[b]), j') && j < j'
    ensures a < b
  {
    hide Replay, KeyOrder, Describe, InfoKey, HeldSince, Before, AtTime, ByAt, Described, Distinct;
    var k, k', t, hs := InfoKey(out[a]), InfoKey(out[b]), out[a].at, Replay(log);
    EarlierEntryFirst(log, k, k', j, j');
    DescribedBefore(log, hs, KeyOrder(log), now, k, k');
    var d := Described(log, hs, KeyOrder(log), now);
    assert out[a] in out && out[b] in out;
    BeforeAtTime(d, t, out[a], out[b]);
    assert AtTime(out, t) == AtTime(d, t);
    AtTimeBefore(out, t, out[a], out[b]);
    BeforeMeans(out, a, b);
  }

  /** Of two holders the list names first the one of earlier date and, at equal dates, the one that has held longer:
      the one whose comment of entry, the last before which it was no holder, is older. */
  lemma ListOrderExactly(log: seq<Comment>, now: Time, out: seq<HolderInfo>, a: int, b: int, j: int, j': int)
    requires HolderList(log, now, out) && 0 <= a < |out| && 0 <= b < |out| && a != b
    requires HeldSince(log, InfoKey(out[a]), j) && HeldSince(log, InfoKey(out[b]), j')
    ensures a < b <==> out[a].at < out[b].at || (out[a].at == out[b].at && j < j')
  {
    hide Replay, KeyOrder, Describe, InfoKey, HeldSince, Stable;
    if j == j' {
      OneEntry(log, InfoKey(out[a]), InfoKey(out[b]), j);
    }
    if out[a].at == out[b].at && j < j' {
      TieGoesToEarlier(log, now, out, a, b, j, j');
    }
    if out[a].at == out[b].at && j' < j {
      TieGoesToEarlier(log, now, out, b, a, j', j);
    }
  }

  // ----- the first live holder -----

  /** `k` has held longer than `k'`. */
  ghost predicate HeldLongerThan(log: seq<Comment>, k: string, k': string) {
    exists j, j' :: HeldSince(log, k, j) && HeldSince(log, k', j') && j < j'
  }

  /** Live at `now`, of earliest date among the live holders, and at equal dates the one that has held longest. */
  ghost predicate EarliestLive(log: seq<Comment>, now: Time, k: string) {
    var live := Live(log, Replay(log), now);
    && k in live
    && forall k' :: k' in live && k' != k ==>
         live[k].at < live[k'].at || (live[k].at == live[k'].at && HeldLongerThan(log, k, k'))
  }

  lemma LongerIsAsymmetric(log: seq<Comment>, k: string, k': string)
    requires HeldLongerThan(log, k, k')
    ensures !HeldLongerThan(log, k', k)
  {
    hide Replay;
    var j, j' :| HeldSince(log, k, j) && HeldSince(log, k', j') && j < j';
    forall i, i' | HeldSince(log, k, i) && HeldSince(log, k', i') ensures i == j && i' == j' {
      EntryIsUnique(log, k, i, j);
      EntryIsUnique(log, k', i', j');
    }
  }

  lemma EntryIsUnique(log: seq<Comment>, k: string, i: int, j: int)
    requires HeldSince(log, k, i) && HeldSince(log, k, j)
    ensures i == j
  {
    hide Replay;
  }

  /** There is at most one. */
  lemma EarliestIsUnique(log: seq<Comment>, now: Time, k: string, k': string)
    requires EarliestLive(log, now, k) && EarliestLive(log, now, k')
    ensures k == k'
  {
    hide Replay, Fresh, HeldLongerThan;
    if k != k' && HeldLongerThan(log, k, k') {
      LongerIsAsymmetric(log, k, k');
    }
  }

  /** The first live entry of the list is that holder. */
  lemma FirstLiveIsEarliest(log: seq<Comment>, now: Time, out: seq<HolderInfo>, a: int)
    requires HolderList(log, now, out) && 0 <= a < |out| && IsLive(out[a])
    requires forall i :: 0 <= i < a ==> !IsLive(out[i])
    ensures EarliestLive(log, now, InfoKey(out[a]))
  {
    hide Replay, KeyOrder, LastHit, IdKey, Stable, HeldSince;
    var live, k := Live(log, Replay(log), now), InfoKey(out[a]);
    assert out[a] in out;
    forall k' | k' in live && k' != k
      ensures live[k].at < live[k'].at || (live[k].at == live[k'].at && HeldLongerThan(log, k, k'))
    {
      var y := Describe(log, Replay(log)[k'], now);
      assert y in out;
      var b :| 0 <= b < |out| && out[b] == y;
      assert IsLive(out[b]) && InfoKey(y) == k' by { ReplayKeyed(log); }
      HeldSinceExists(log, k);
      HeldSinceExists(log, k');
      var j, j' :| HeldSince(log, k, j) && HeldSince(log, k', j');
      ListOrderExactly(log, now, out, a, b, j, j');
    }
  }
}
