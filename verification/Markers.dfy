/** CLAIM / RELEASE markers: how `scripts/claim.py` prints them and reads them back. */
module Markers {
  import opened Text

  const LOCK := '\U{1F512}'
  const MARK := "\U{1F512} CLAIM"
  const REL := "\U{1F513} RELEASE"

  type Run = Option<string>

  datatype Marker = Claim(lane: string, run: Run) | Release(lane: string, run: Run)

  function ParseMarker(body: string): Option<Marker> {
    var first := FirstLine(body);
    if !Contains(first, MARK) && !Contains(first, REL) then None
    else
      var m := TokenAfter(first, "lane=");
      var lane := if m.Some? then m.value else "unknown";
      var run := TokenAfter(first, "run=");
      Some(if Contains(first, MARK) then Claim(lane, run) else Release(lane, run))
  }

  /** Whether a comment refreshes the identity (lane, run). */
  predicate IdentityHit(body: string, lane: string, run: Run) {
    if run.Some? && run.value != "" then Contains(FirstLine(body), "run=" + run.value)
    else Contains(body, "lane=" + lane)
  }

  /** A run-less marker whose first line names no lane; its lane reads as "unknown". */
  predicate Anonymous(body: string) {
    && ParseMarker(body).Some?
    && ParseMarker(body).value.run.None?
    && TokenAfter(FirstLine(body), "lane=").None?
  }

  // ----- what the three commands print -----

  function RunPart(run: Run): string {
    if run.Some? then " run=" + run.value else ""
  }

  function MarkerLine(head: string, lane: string, run: Run, suffix: string): string {
    head + " lane=" + (lane + (RunPart(run) + suffix))
  }

  /** `tail` is the fixed prose with its timestamp, the caller's note and the takeover text. */
  function ClaimBody(lane: string, run: string, tail: string): string {
    MarkerLine(MARK, lane, Some(run), "") + "\n" + ("\n" + tail)
  }

  const HEARTBEAT := " \U{B7} heartbeat"

  function BeatBody(lane: string, run: Run, note: string): string {
    MarkerLine(MARK, lane, run, HEARTBEAT) + "\n" + ("\n" + if note == "" then "still working" else note)
  }

  function ReleaseBody(lane: string, run: Run, target: string, note: string): string {
    MarkerLine(REL, lane, run, " -> " + target) + "\n" + ("\n" + if note == "" then "released" else note)
  }

  /** The states every board has, and the older spellings still in use. */
  const STATES := {"Ready", "In Work", "QA Review", "Backlog", "Done", "Triage", "Canceled", "Duplicate"}
  const STATE_ALIASES := map[
    "Todo" := "Ready", "In Progress" := "In Work", "In-Work" := "In Work",
    "In Review" := "QA Review", "QA-Review" := "QA Review", "Verifying" := "QA Review"]

  /** The board's own name for a state argument. */
  function BoardState(target: string): string {
    if target in STATE_ALIASES then STATE_ALIASES[target] else target
  }

  /** What `check_state_arg` lets through. */
  predicate StateArg(target: string) {
    BoardState(target) in STATES
  }

  /** An accepted state lands on a board state, under its own name if it has one there. */
  lemma StatesAreCanonical(target: string)
    requires StateArg(target)
    ensures BoardState(target) in STATES && BoardState(BoardState(target)) == BoardState(target)
    ensures target in STATES ==> BoardState(target) == target
    ensures target !in STATES ==> target in STATE_ALIASES && BoardState(target) == STATE_ALIASES[target]
  {
    assert STATES !! STATE_ALIASES.Keys by {
      assert forall s :: s in STATE_ALIASES.Keys ==> s !in STATES;
    }
  }

  predicate LaneArg(lane: string) {
    lane != "" && NoSpace(lane) && !Contains(lane, "run=")
  }

  predicate RunArg(run: Run) {
    run.Some? ==> run.value != "" && NoSpace(run.value)
  }

  // ----- round trip -----

  /** What may follow the identity on a marker line. */
  predicate Suffix(suffix: string) {
    && (suffix != "" ==> suffix[0] == ' ')
    && (|suffix| > 1 ==> suffix[1] != 'C')
    && '=' !in suffix && '\n' !in suffix && LOCK !in suffix
  }

  /** The fixed text in front of the lane: it ends in `lane=`, which occurs nowhere earlier. */
  lemma HeadText(head: string)
    requires head == MARK || head == REL
    ensures var pre := head + " lane=";
      && |pre| == |head| + 6
      && (forall i :: 0 <= i < |pre| ==> pre[i] != 'r' && pre[i] != '\n')
      && (forall i :: 0 <= i <= |head| ==> pre[i] != 'l')
      && pre[|head| + 1..] == "lane="
  {
  }

  lemma LaneToken(head: string, lane: string, rest: string)
    requires head == MARK || head == REL
    requires lane != "" && NoSpace(lane)
    requires rest != "" ==> rest[0] == ' '
    ensures TokenAfter(head + " lane=" + (lane + rest), "lane=") == Some(lane)
  {
    var pre := head + " lane=";
    var s := pre + (lane + rest);
    var p := |head| + 1;
    HeadText(head);
    assert s[p..p + 5] == pre[p..];
    assert s[p + 5..] == lane + rest;
    assert s[p + 5] == lane[0];
    NonSpaceRunStops(lane, rest);
    assert TokenAt(s, "lane=", p, lane);
    forall q | 0 <= q < p ensures !Starts(s, "lane=", q) {
      assert s[q] == pre[q];
      MatchChars(s, "lane=", q);
      assert "lane="[0] == 'l';
    }
    LeftmostIsResult(s, "lane=", p, lane);
  }

  /** `run=` does not begin inside `head lane=<lane>` followed by a blank. */
  lemma NoRunBefore(head: string, lane: string, rest: string, q: int)
    requires head == MARK || head == REL
    requires LaneArg(lane)
    requires rest != "" ==> rest[0] == ' '
    requires 0 <= q <= |head| + 6 + |lane|
    ensures !Starts(head + " lane=" + (lane + rest), "run=", q)
  {
    var pre := head + " lane=";
    var s := pre + (lane + rest);
    var b := |pre|;
    var key := "run=";
    HeadText(head);
    MatchChars(s, key, q);
    assert key[0] == 'r' && ' ' !in key;
    if q < b {
      assert s[q] == pre[q];
    } else if q + 4 <= b + |lane| {
      assert s[q..q + 4] == lane[q - b..q - b + 4];
      assert MatchAt(lane, key, q - b) == MatchAt(s, key, q);
    } else if rest != "" {
      assert s[b + |lane|] == ' ';
      var j := b + |lane| - q;
      assert key[j] != ' ';
    }
  }

  lemma RunTokenFound(pre: string, r: string, suffix: string)
    requires r != "" && NoSpace(r) && Suffix(suffix)
    requires forall q :: 0 <= q <= |pre| ==> !Starts(pre + (RunPart(Some(r)) + suffix), "run=", q)
    ensures TokenAfter(pre + (RunPart(Some(r)) + suffix), "run=") == Some(r)
  {
    var rest := RunPart(Some(r)) + suffix;
    var s := pre + rest;
    var p := |pre| + 1;
    assert rest[1..5] == "run=" && rest[5..] == r + suffix;
    assert s[p..p + 4] == rest[1..5];
    assert s[p + 4..] == rest[5..];
    assert s[p + 4] == r[0];
    NonSpaceRunStops(r, suffix);
    assert TokenAt(s, "run=", p, r);
    LeftmostIsResult(s, "run=", p, r);
  }

  lemma RunTokenAbsent(pre: string, suffix: string)
    requires Suffix(suffix)
    requires forall q :: 0 <= q <= |pre| ==> !Starts(pre + suffix, "run=", q)
    ensures TokenAfter(pre + suffix, "run=") == None
  {
    var s := pre + suffix;
    var b := |pre|;
    forall q ensures !Starts(s, "run=", q) {
      MatchChars(s, "run=", q);
      assert "run="[3] == '=';
      if b < q < |s| - 4 {
        assert s[q + 3] == suffix[q + 3 - b];
      }
    }
  }

  lemma RunToken(head: string, lane: string, run: Run, suffix: string)
    requires head == MARK || head == REL
    requires LaneArg(lane) && RunArg(run) && Suffix(suffix)
    ensures TokenAfter(MarkerLine(head, lane, run, suffix), "run=") == run
  {
    var rest := RunPart(run) + suffix;
    var pre := head + " lane=" + lane;
    assert pre + rest == MarkerLine(head, lane, run, suffix);
    forall q | 0 <= q <= |pre| ensures !Starts(pre + rest, "run=", q) {
      NoRunBefore(head, lane, rest, q);
    }
    if run.Some? {
      RunTokenFound(pre, run.value, suffix);
    } else {
      assert rest == suffix;
      RunTokenAbsent(pre, suffix);
    }
  }

  lemma HeadIsContained(head: string, mid: string, tail: string)
    ensures Contains(head + mid + tail, head)
  {
    assert (head + mid + tail)[0..|head|] == head;
    assert MatchAt(head + mid + tail, head, 0);
  }

  /** A blank inside `lane run=<run>suffix` is never followed by `C` and preceded by the lock sign. */
  lemma NoMarkAt(lane: string, run: Run, suffix: string, i: int)
    requires LaneArg(lane) && RunArg(run) && Suffix(suffix)
    requires 0 <= i < |lane + (RunPart(run) + suffix)| - 2
    ensures var t := lane + (RunPart(run) + suffix); !(t[i] == LOCK && t[i + 1] == ' ' && t[i + 2] == 'C')
  {
  }

  /** A RELEASE line never reads as a CLAIM. */
  lemma ReleaseIsNoClaim(lane: string, run: Run, suffix: string)
    requires LaneArg(lane) && RunArg(run) && Suffix(suffix)
    ensures !Contains(MarkerLine(REL, lane, run, suffix), MARK)
  {
    var s := MarkerLine(REL, lane, run, suffix);
    var t := lane + (RunPart(run) + suffix);
    var pre := "\U{1F513} RELEASE lane=";
    assert s == pre + t;
    assert LOCK !in pre;
    forall i | 0 <= i <= |s| - |MARK| ensures !MatchAt(s, MARK, i) {
      MatchChars(s, MARK, i);
      assert MARK[0] == LOCK && MARK[1] == ' ' && MARK[2] == 'C';
      assert MatchAt(s, MARK, i) ==> s[i + 0] == LOCK && s[i + 1] == ' ' && s[i + 2] == 'C';
      if i < |pre| {
        assert s[i] == pre[i];
      } else {
        NoMarkAt(lane, run, suffix, i - |pre|);
      }
    }
  }

  function PrintedMarker(claim: bool, lane: string, run: Run): Marker {
    if claim then Claim(lane, run) else Release(lane, run)
  }

  lemma NoNewline(head: string, lane: string, run: Run, suffix: string)
    requires head == MARK || head == REL
    requires LaneArg(lane) && RunArg(run) && Suffix(suffix)
    ensures '\n' !in MarkerLine(head, lane, run, suffix)
  {
  }

  lemma LineTokens(head: string, lane: string, run: Run, suffix: string, rest: string)
    requires head == MARK || head == REL
    requires LaneArg(lane) && RunArg(run) && Suffix(suffix)
    ensures
      var s := MarkerLine(head, lane, run, suffix);
      && FirstLine(s + "\n" + rest) == s
      && Contains(s, head)
      && TokenAfter(s, "lane=") == Some(lane) && TokenAfter(s, "run=") == run
  {
    var s := MarkerLine(head, lane, run, suffix);
    NoNewline(head, lane, run, suffix);
    FirstLineStops(s, rest);
    LaneToken(head, lane, RunPart(run) + suffix);
    RunToken(head, lane, run, suffix);
    HeadIsContained(head, " lane=", lane + (RunPart(run) + suffix));
  }

  lemma LineParses(claim: bool, lane: string, run: Run, suffix: string, rest: string)
    requires LaneArg(lane) && RunArg(run) && Suffix(suffix)
    ensures
      var body := MarkerLine(if claim then MARK else REL, lane, run, suffix) + "\n" + rest;
      ParseMarker(body) == Some(PrintedMarker(claim, lane, run)) && !Anonymous(body)
  {
    LineTokens(if claim then MARK else REL, lane, run, suffix, rest);
    if !claim {
      ReleaseIsNoClaim(lane, run, suffix);
    }
  }

  /** `tok` is what the first match of the key on the line names; `None` when nothing matches. */
  ghost predicate NamedBy(line: string, key: string, tok: Option<string>) {
    if tok.Some? then exists p :: LeftmostToken(line, key, p, tok.value) else forall q :: !Starts(line, key, q)
  }

  /** A comment is a marker exactly when its first line carries one of the two signs, and a claim whenever that is the
      claim sign, whatever else is there; lane and run are the first tokens after their keys. */
  lemma MarkerMeans(body: string)
    ensures var line, m := FirstLine(body), ParseMarker(body);
      && (m.Some? <==> Contains(line, MARK) || Contains(line, REL))
      && (m.Some? ==>
            && (m.value.Claim? <==> Contains(line, MARK))
            && NamedBy(line, "run=", m.value.run)
            && (|| NamedBy(line, "lane=", Some(m.value.lane))
                || (m.value.lane == "unknown" && NamedBy(line, "lane=", None))))
  {
    hide Contains, LeftmostToken, Starts, FirstLine;
  }

  /** What a comment parsed with a run, or with an explicit `lane=`, always refreshes: itself. */
  lemma MarkerHitsItself(body: string)
    requires ParseMarker(body).Some? && !Anonymous(body)
    ensures var m := ParseMarker(body).value; IdentityHit(body, m.lane, m.run)
  {
    var m := ParseMarker(body).value;
    var first := FirstLine(body);
    if m.run.Some? {
      TokenIsContained(first, "run=", m.run.value);
    } else {
      TokenIsContained(first, "lane=", m.lane);
      PrefixKeepsContains(first, body, "lane=" + m.lane);
    }
  }

  lemma ParsedLaneIsToken(body: string)
    requires ParseMarker(body).Some?
    ensures ParseMarker(body).value.lane != "" && NoSpace(ParseMarker(body).value.lane)
  {
    hide NoSpace, Contains, FirstLine, TokenAfter;
    UnknownIsToken();
    var lane := TokenAfter(FirstLine(body), "lane=");
    if lane.Some? {
      TokenIsContained(FirstLine(body), "lane=", lane.value);
    }
  }

  lemma UnknownIsToken()
    ensures NoSpace("unknown")
  {
  }

  lemma ParsedRunIsToken(body: string)
    requires ParseMarker(body).Some?
    ensures RunArg(ParseMarker(body).value.run)
  {
  }

  /** The comment of each command reads back as exactly the marker it was printed from,
      whatever the note says, and refreshes that identity. */
  lemma ClaimRoundTrip(lane: string, run: string, tail: string)
    requires LaneArg(lane) && RunArg(Some(run))
    ensures var body := ClaimBody(lane, run, tail);
      && ParseMarker(body) == Some(Claim(lane, Some(run))) && !Anonymous(body)
      && IdentityHit(body, lane, Some(run))
  {
    LineParses(true, lane, Some(run), "", "\n" + tail);
    MarkerHitsItself(ClaimBody(lane, run, tail));
  }

  lemma BeatRoundTrip(lane: string, run: Run, note: string)
    requires LaneArg(lane) && RunArg(run)
    ensures var body := BeatBody(lane, run, note);
      && ParseMarker(body) == Some(Claim(lane, run)) && !Anonymous(body)
      && IdentityHit(body, lane, run)
  {
    LineParses(true, lane, run, HEARTBEAT, "\n" + if note == "" then "still working" else note);
    MarkerHitsItself(BeatBody(lane, run, note));
  }

  lemma ReleaseRoundTrip(lane: string, run: Run, target: string, note: string)
    requires LaneArg(lane) && RunArg(run) && StateArg(target)
    ensures var body := ReleaseBody(lane, run, target, note);
      && ParseMarker(body) == Some(Release(lane, run)) && !Anonymous(body)
      && IdentityHit(body, lane, run)
  {
    StateText(target);
    LineParses(false, lane, run, " -> " + target, "\n" + if note == "" then "released" else note);
    MarkerHitsItself(ReleaseBody(lane, run, target, note));
  }

  predicate PlainText(s: string) {
    s != "" && '=' !in s && '\n' !in s && LOCK !in s
  }

  lemma PlainStates()
    ensures forall s :: s in STATES || s in STATE_ALIASES ==> PlainText(s)
  {
  }

  lemma StateText(target: string)
    requires StateArg(target)
    ensures Suffix(" -> " + target)
  {
    hide STATES, STATE_ALIASES, PlainText;
    PlainStates();
    PlainSuffix(target);
  }

  lemma PlainSuffix(target: string)
    requires PlainText(target)
    ensures Suffix(" -> " + target)
  {
    var s := " -> " + target;
    assert s[0] == ' ' && s[1] == '-';
  }

  /** The text below the marker line and the blank line after it. */
  function Below(body: string): string {
    var n := |FirstLine(body)| + 2;
    if n <= |body| then body[n..] else ""
  }

  lemma BelowLine(line: string, text: string)
    requires '\n' !in line
    ensures Below(line + "\n" + ("\n" + text)) == text
  {
    FirstLineStops(line, "\n" + text);
    assert (line + "\n" + ("\n" + text))[|line| + 2..] == text;
  }

  /** The caller's text comes back as it was given; a missing one is replaced by a default. */
  lemma NotesReadBack(lane: string, run: string, runArg: Run, target: string, text: string)
    requires LaneArg(lane) && RunArg(Some(run)) && RunArg(runArg) && StateArg(target)
    ensures Below(ClaimBody(lane, run, text)) == text
    ensures text != "" ==> Below(BeatBody(lane, runArg, text)) == text == Below(ReleaseBody(lane, runArg, target, text))
    ensures Below(BeatBody(lane, runArg, "")) == "still working"
    ensures Below(ReleaseBody(lane, runArg, target, "")) == "released"
  {
    hide Below, MarkerLine, LaneArg, RunArg, Suffix, StateArg;
    StateText(target);
    EmptySuffix();
    NoNewline(MARK, lane, Some(run), "");
    NoNewline(MARK, lane, runArg, HEARTBEAT);
    NoNewline(REL, lane, runArg, " -> " + target);
    BelowLine(MarkerLine(MARK, lane, Some(run), ""), text);
    BelowLine(MarkerLine(MARK, lane, runArg, HEARTBEAT), if text == "" then "still working" else text);
    BelowLine(MarkerLine(MARK, lane, runArg, HEARTBEAT), "still working");
    BelowLine(MarkerLine(REL, lane, runArg, " -> " + target), if text == "" then "released" else text);
    BelowLine(MarkerLine(REL, lane, runArg, " -> " + target), "released");
  }

  /** The marker lines, as the three commands print them. */
  lemma LinesPrinted(lane: string, run: string, runArg: Run, target: string, text: string)
    requires LaneArg(lane) && RunArg(Some(run)) && RunArg(runArg) && StateArg(target)
    ensures FirstLine(ClaimBody(lane, run, text)) == MARK + " lane=" + lane + " run=" + run
    ensures FirstLine(BeatBody(lane, Some(run), text)) == MARK + " lane=" + lane + " run=" + run + " \U{B7} heartbeat"
    ensures FirstLine(BeatBody(lane, None, text)) == MARK + " lane=" + lane + " \U{B7} heartbeat"
    ensures FirstLine(ReleaseBody(lane, Some(run), target, text))
         == REL + " lane=" + lane + " run=" + run + " -> " + target
    ensures FirstLine(ReleaseBody(lane, None, target, text)) == REL + " lane=" + lane + " -> " + target
  {
    hide LaneArg, RunArg, Suffix, StateArg, FirstLine, MARK, REL;
    StateText(target);
    EmptySuffix();
    NoRunIsToken();
    LineStops(MARK, lane, Some(run), "", "\n" + text);
    LineStops(MARK, lane, Some(run), HEARTBEAT, "\n" + if text == "" then "still working" else text);
    LineStops(MARK, lane, None, HEARTBEAT, "\n" + if text == "" then "still working" else text);
    LineStops(REL, lane, Some(run), " -> " + target, "\n" + if text == "" then "released" else text);
    LineStops(REL, lane, None, " -> " + target, "\n" + if text == "" then "released" else text);
  }

  lemma NoRunIsToken()
    ensures RunArg(None)
  {
  }

  lemma LineStops(head: string, lane: string, run: Run, suffix: string, rest: string)
    requires head == MARK || head == REL
    requires LaneArg(lane) && RunArg(run) && Suffix(suffix)
    ensures FirstLine(MarkerLine(head, lane, run, suffix) + "\n" + rest)
         == head + " lane=" + lane + RunPart(run) + suffix
  {
    hide LaneArg, RunArg, Suffix, FirstLine, MARK, REL;
    NoNewline(head, lane, run, suffix);
    FirstLineStops(MarkerLine(head, lane, run, suffix), rest);
    assert MarkerLine(head, lane, run, suffix) == head + " lane=" + lane + RunPart(run) + suffix;
  }

  lemma EmptySuffix()
    ensures Suffix("") && Suffix(HEARTBEAT)
  {
  }

  // ----- whose comment is it -----

  /** Text below the first line can neither make nor change a marker, nor refresh a run. */
  lemma NotesCarryNoRun(line: string, note1: string, note2: string, lane: string, run: string)
    requires '\n' !in line && run != ""
    ensures ParseMarker(line + "\n" + note1) == ParseMarker(line + "\n" + note2)
    ensures IdentityHit(line + "\n" + note1, lane, Some(run)) <==> IdentityHit(line + "\n" + note2, lane, Some(run))
  {
    FirstLineStops(line, note1);
    FirstLineStops(line, note2);
  }

  /** Past the printed `run=`, the text `run=<q>` can only match inside the run. */
  lemma LaterMatch(pre: string, r: string, q: string, suffix: string, i: int)
    requires RunArg(Some(r)) && RunArg(Some(q)) && Suffix(suffix) && i > |pre| + 1
    requires MatchAt(pre + (" run=" + r + suffix), "run=" + q, i)
    ensures MatchAt(r, "run=" + q, i - |pre| - 5)
  {
    var s, key, t := pre + (" run=" + r + suffix), "run=" + q, " run=" + r + suffix;
    var b := |pre| + 5;
    MatchChars(s, key, i);
    assert key[0] == 'r' && key[3] == '=' && forall j :: 4 <= j < |key| ==> key[j] == q[j - 4];
    assert forall j :: |pre| <= j < |s| ==> s[j] == t[j - |pre|];
    assert t[2] == 'u' && t[3] == 'n' && t[4] == '=';
    assert i >= b;
    BlankStops(r, q, suffix, i - b);
    assert s[i..i + |key|] == (r + suffix)[i - b..i - b + |key|] == r[i - b..i - b + |key|];
  }

  /** A text without blanks does not reach across the end of the run. */
  lemma BlankStops(r: string, q: string, suffix: string, i: nat)
    requires RunArg(Some(q)) && Suffix(suffix) && i + 4 + |q| <= |r + suffix|
    ensures i + 4 + |q| <= |r| || exists j :: 0 <= j < 4 + |q| && (r + suffix)[i + j] != ("run=" + q)[j]
  {
    var key := "run=" + q;
    if i >= |r| {
      assert (r + suffix)[i + 3] == suffix[i + 3 - |r|] && key[3] == '=';
    } else if i + 4 + |q| > |r| {
      var j := |r| - i;
      assert (r + suffix)[i + j] == suffix[0] == ' ';
      assert key[j] != ' ' by {
        if j >= 4 {
          assert key[j] == q[j - 4];
        }
      }
    }
  }

  lemma TokenPrefix(r: string, q: string, suffix: string)
    requires RunArg(Some(q)) && Suffix(suffix) && |q| <= |r + suffix|
    ensures (r + suffix)[..|q|] == q <==> q <= r
  {
    if |q| > |r| {
      assert (r + suffix)[..|q|][|r|] == suffix[0] == ' ' && IsSpace(' ') && !IsSpace(q[|r|]);
    } else {
      assert (r + suffix)[..|q|] == r[..|q|];
    }
  }

  /** At the printed `run=` it matches exactly when `q` begins the run. */
  lemma PrintedMatch(pre: string, r: string, q: string, suffix: string)
    requires RunArg(Some(r)) && RunArg(Some(q)) && Suffix(suffix)
    ensures MatchAt(pre + (" run=" + r + suffix), "run=" + q, |pre| + 1) <==> q <= r
  {
    hide NoSpace, Suffix;
    var s, key, i := pre + (" run=" + r + suffix), "run=" + q, |pre| + 1;
    assert s[i + 4..] == r + suffix;
    if |q| <= |r + suffix| {
      TokenPrefix(r, q, suffix);
      assert s[i..i + |key|] == "run=" + (r + suffix)[..|q|];
      assert ("run=" + (r + suffix)[..|q|])[4..] == (r + suffix)[..|q|] && key[4..] == q;
    }
  }

  lemma EarlyMatch(head: string, lane: string, r: string, q: string, suffix: string, i: int)
    requires head == MARK || head == REL
    requires LaneArg(lane) && RunArg(Some(r)) && RunArg(Some(q)) && Suffix(suffix) && i <= |head + " lane=" + lane|
    ensures !MatchAt(head + " lane=" + lane + (" run=" + r + suffix), "run=" + q, i)
  {
    hide IsSpace, MARK, REL;
    var pre, tail := head + " lane=" + lane, " run=" + r + suffix;
    var s, key := pre + tail, "run=" + q;
    if 0 <= i <= |s| - |key| {
      assert s == head + " lane=" + (lane + tail);
      NoRunBefore(head, lane, tail, i);
      assert s[i..i + |key|][..4] == s[i..i + 4] && key[..4] == "run=";
      assert s[i..i + |key|][4] == s[i + 4] && key[4] == q[0];
    }
  }

  lemma RunContained(head: string, lane: string, r: string, q: string, suffix: string)
    requires head == MARK || head == REL
    requires LaneArg(lane) && RunArg(Some(r)) && RunArg(Some(q)) && Suffix(suffix)
    ensures Contains(MarkerLine(head, lane, Some(r), suffix), "run=" + q) <==> q <= r || Contains(r, "run=" + q)
  {
    hide NoSpace, MARK, REL, MatchAt;
    var pre, key := head + " lane=" + lane, "run=" + q;
    var s, b := pre + (" run=" + r + suffix), |pre| + 5;
    assert s == MarkerLine(head, lane, Some(r), suffix);
    PrintedMatch(pre, r, q, suffix);
    if Contains(s, key) {
      var i :| 0 <= i <= |s| - |key| && MatchAt(s, key, i);
      if i <= |pre| {
        EarlyMatch(head, lane, r, q, suffix, i);
      } else if i > |pre| + 1 {
        LaterMatch(pre, r, q, suffix, i);
        MatchInRange(r, key, i - b);
      }
    }
    if Contains(r, key) {
      var j :| 0 <= j <= |r| - |key| && MatchAt(r, key, j);
      InnerMatch(pre, r, suffix, key, j);
    }
  }

  lemma MatchInRange(s: string, sub: string, i: int)
    requires MatchAt(s, sub, i)
    ensures 0 <= i <= |s| - |sub|
  {
  }

  lemma InnerMatch(pre: string, r: string, suffix: string, key: string, j: int)
    requires MatchAt(r, key, j)
    ensures MatchAt(pre + (" run=" + r + suffix), key, |pre| + 5 + j)
  {
    var s := pre + (" run=" + r + suffix);
    assert s[|pre| + 5..|pre| + 5 + |r|] == r;
    assert s[|pre| + 5 + j..|pre| + 5 + j + |key|] == r[j..j + |key|];
  }

  /** A printed marker refreshes exactly the runs that begin its own, or that its own quotes after `run=`; among runs
      of one length, its own alone. */
  lemma RefreshesExactly(head: string, lane: string, r: string, q: string, suffix: string, rest: string)
    requires head == MARK || head == REL
    requires LaneArg(lane) && RunArg(Some(r)) && RunArg(Some(q)) && Suffix(suffix)
    ensures var hit := IdentityHit(MarkerLine(head, lane, Some(r), suffix) + "\n" + rest, lane, Some(q));
      && (hit <==> q <= r || Contains(r, "run=" + q))
      && (|q| == |r| ==> (hit <==> q == r))
  {
    hide NoSpace, MARK, REL, MarkerLine, FirstLine;
    LineTokens(head, lane, Some(r), suffix, rest);
    RunContained(head, lane, r, q, suffix);
  }
}
