/** The shared comment log of a ticket and the freshness test on it.
    A log is chronological (oldest first); Linear returns the same comments newest first. */
module Log {
  import opened Text
  import opened Markers

  /** Microseconds since the epoch, UTC. */
  type Time = int

  const STALE: int := 60 * 60 * 1_000_000

  datatype Comment = Comment(body: string, at: Time)

  function MarkerOf(c: Comment): Option<Marker> {
    ParseMarker(c.body)
  }

  ghost predicate Sorted(log: seq<Comment>) {
    forall i, j :: 0 <= i <= j < |log| ==> log[i].at <= log[j].at
  }

  /** Every marker names a run or a lane on its first line. */
  ghost predicate Named(log: seq<Comment>) {
    forall i :: 0 <= i < |log| ==> !Anonymous(log[i].body)
  }

  /** The same comments, oldest first. */
  function Chronological(nodes: seq<Comment>): (log: seq<Comment>)
    ensures |log| == |nodes|
    ensures forall i :: 0 <= i < |log| ==> log[i] == nodes[|nodes| - 1 - i]
  {
    seq(|nodes|, i requires 0 <= i < |nodes| => nodes[|nodes| - 1 - i])
  }

  lemma ChronologicalStep(nodes: seq<Comment>, idx: nat)
    requires idx < |nodes|
    ensures Chronological(nodes[idx..]) == Chronological(nodes[idx + 1..]) + [nodes[idx]]
  {
  }

  /** When the identity last posted, if it ever did. */
  function LastHit(log: seq<Comment>, lane: string, run: Run): Option<Time>
    decreases |log|
  {
    if log == [] then None
    else
      var c := log[|log| - 1];
      if IdentityHit(c.body, lane, run) then Some(c.at) else LastHit(log[..|log| - 1], lane, run)
  }

  /** Time since the last hit; `None` stands for the infinite idle time of an identity never seen. */
  function Idle(log: seq<Comment>, lane: string, run: Run, ref: Time): Option<int> {
    var last := LastHit(log, lane, run);
    if last.Some? then Some(ref - last.value) else None
  }

  /** The identity has posted within the stale limit before `ref`. */
  predicate Fresh(log: seq<Comment>, lane: string, run: Run, ref: Time) {
    var idle := Idle(log, lane, run, ref);
    idle.Some? && idle.value <= STALE
  }

  lemma LastHitAppend(log: seq<Comment>, c: Comment, lane: string, run: Run)
    ensures LastHit(log + [c], lane, run)
         == if IdentityHit(c.body, lane, run) then Some(c.at) else LastHit(log, lane, run)
  {
  }

  /** A visible hit hides everything older. */
  lemma {:induction false} LastHitConcat(pre: seq<Comment>, suf: seq<Comment>, lane: string, run: Run)
    ensures LastHit(pre + suf, lane, run)
         == if LastHit(suf, lane, run).Some? then LastHit(suf, lane, run) else LastHit(pre, lane, run)
    decreases |suf|
  {
    if suf == [] {
      assert pre + suf == pre;
    } else {
      var n := |suf| - 1;
      LastHitConcat(pre, suf[..n], lane, run);
      LastHitAppend(pre + suf[..n], suf[n], lane, run);
      assert pre + suf == pre + suf[..n] + [suf[n]];
    }
  }

  /** In a sorted log the last hit is at or after any given hit, and not after the newest comment. */
  lemma {:induction false} LastHitAfter(log: seq<Comment>, i: nat, lane: string, run: Run)
    requires Sorted(log) && i < |log| && IdentityHit(log[i].body, lane, run)
    ensures LastHit(log, lane, run).Some?
    ensures log[i].at <= LastHit(log, lane, run).value <= log[|log| - 1].at
    decreases |log|
  {
    var n := |log| - 1;
    if !IdentityHit(log[n].body, lane, run) {
      LastHitAfter(log[..n], i, lane, run);
    }
  }

  lemma {:induction false} LastHitIsAComment(log: seq<Comment>, lane: string, run: Run)
    requires LastHit(log, lane, run).Some?
    ensures exists j :: 0 <= j < |log| && IdentityHit(log[j].body, lane, run)
                        && LastHit(log, lane, run).value == log[j].at
    decreases |log|
  {
    hide IdentityHit;
    var n := |log| - 1;
    if IdentityHit(log[n].body, lane, run) {
    } else {
      LastHitIsAComment(log[..n], lane, run);
      var j :| 0 <= j < n && IdentityHit(log[..n][j].body, lane, run)
               && LastHit(log, lane, run).value == log[..n][j].at;
      assert log[j] == log[..n][j];
    }
  }

  /** In a sorted log the idle time is the shortest of all times since a comment of the identity; it is infinite
      exactly when there is none. */
  lemma IdleIsShortest(log: seq<Comment>, lane: string, run: Run, ref: Time)
    requires Sorted(log)
    ensures var idle := Idle(log, lane, run, ref);
      && (idle.None? <==> forall j :: 0 <= j < |log| ==> !IdentityHit(log[j].body, lane, run))
      && (idle.Some? ==>
            && (exists j :: 0 <= j < |log| && IdentityHit(log[j].body, lane, run) && ref - log[j].at == idle.value)
            && forall j :: 0 <= j < |log| && IdentityHit(log[j].body, lane, run) ==> idle.value <= ref - log[j].at)
  {
    hide IdentityHit, LastHit;
    if LastHit(log, lane, run).Some? {
      LastHitIsAComment(log, lane, run);
    }
    forall j | 0 <= j < |log| && IdentityHit(log[j].body, lane, run)
      ensures LastHit(log, lane, run).Some? && log[j].at <= LastHit(log, lane, run).value
    {
      LastHitAfter(log, j, lane, run);
    }
  }

  /** Some comment of the identity vouches for it at `ref`. */
  ghost predicate Heard(log: seq<Comment>, lane: string, run: Run, ref: Time) {
    exists j :: 0 <= j < |log| && IdentityHit(log[j].body, lane, run) && ref - log[j].at <= STALE
  }

  /** Fresh means heard within the stale limit. */
  lemma FreshExactly(log: seq<Comment>, lane: string, run: Run, ref: Time)
    requires Sorted(log)
    ensures Fresh(log, lane, run, ref) <==> Heard(log, lane, run, ref)
  {
    hide IdentityHit, LastHit;
    IdleIsShortest(log, lane, run, ref);
  }

  lemma OwnMarkerHits(log: seq<Comment>, c: Comment)
    requires MarkerOf(c).Some? && !Anonymous(c.body)
    ensures var m := MarkerOf(c).value; LastHit(log + [c], m.lane, m.run) == Some(c.at)
  {
    MarkerHitsItself(c.body);
    LastHitAppend(log, c, MarkerOf(c).value.lane, MarkerOf(c).value.run);
  }

  /** `idle_min`: scan newest-first from `start` for the first hit. */
  method IdleMin(nodes: seq<Comment>, lane: string, run: Run, ref: Time, start: nat) returns (idle: Option<int>)
    requires start <= |nodes|
    ensures idle == Idle(Chronological(nodes[start..]), lane, run, ref)
  {
    var i := start;
    while i < |nodes|
      invariant start <= i <= |nodes|
      invariant Idle(Chronological(nodes[start..]), lane, run, ref) == Idle(Chronological(nodes[i..]), lane, run, ref)
    {
      ChronologicalStep(nodes, i);
      LastHitAppend(Chronological(nodes[i + 1..]), nodes[i], lane, run);
      if IdentityHit(nodes[i].body, lane, run) {
        return Some(ref - nodes[i].at);
      }
      i := i + 1;
    }
    return None;
  }
}
