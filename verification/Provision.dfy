/** Scratch-database setup (`vitest.global-setup.ts`): bounded retries, the search for a reachable server,
    and the decision to skip silently or fail the run. */
module Provision {
  import opened Text

  const ATTEMPTS := 5
  const BACKOFF_MS := 250

  datatype ErrorClass = AbsentError | TransientError | OtherError

  datatype Outcome = Success | Failure(kind: ErrorClass)

  predicate IsTransient(o: Outcome) {
    o == Failure(TransientError)
  }

  /** What the world would answer to the five attempts of one action. */
  type World = w: seq<Outcome> | |w| == 5 witness [Success, Success, Success, Success, Success]

  function Pow2(n: nat): nat {
    if n == 0 then 1 else 2 * Pow2(n - 1)
  }

  /** How often the action runs: up to the first answer that is not transient, five times at most. */
  function Runs(w: World): (n: nat)
    ensures 1 <= n <= ATTEMPTS
    ensures forall i :: 0 <= i < n - 1 ==> IsTransient(w[i])
    ensures n < ATTEMPTS ==> !IsTransient(w[n - 1])
  {
    RunsFrom(w, 1)
  }

  function RunsFrom(w: World, n: nat): (r: nat)
    requires 1 <= n <= ATTEMPTS && forall i :: 0 <= i < n - 1 ==> IsTransient(w[i])
    ensures n <= r <= ATTEMPTS
    ensures forall i :: 0 <= i < r - 1 ==> IsTransient(w[i])
    ensures r < ATTEMPTS ==> !IsTransient(w[r - 1])
    decreases ATTEMPTS - n
  {
    if n == ATTEMPTS || !IsTransient(w[n - 1]) then n else RunsFrom(w, n + 1)
  }

  /** The answer the caller of the retry loop sees. */
  function Final(w: World): Outcome {
    w[Runs(w) - 1]
  }

  lemma RunsIsFirst(w: World, n: nat)
    requires 1 <= n <= ATTEMPTS
    requires forall i :: 0 <= i < n - 1 ==> IsTransient(w[i])
    requires n == ATTEMPTS || !IsTransient(w[n - 1])
    ensures Runs(w) == n
  {
  }

  /** `withPsqlRetries`: stops at the first non-transient answer, returns or rethrows that answer (the last
      error once the attempts are used up), and has then slept 250 * (2^(n-1) - 1) ms for n runs. */
  method WithPsqlRetries(w: World) returns (result: Outcome, runs: nat, slept: nat)
    ensures runs == Runs(w) && result == Final(w)
    ensures slept == BACKOFF_MS * (Pow2(runs - 1) - 1)
    ensures slept <= 3750
  {
    slept := 0;
    var attempt := 1;
    while true
      invariant 1 <= attempt <= ATTEMPTS
      invariant forall i :: 0 <= i < attempt - 1 ==> IsTransient(w[i])
      invariant slept == BACKOFF_MS * (Pow2(attempt - 1) - 1)
      decreases ATTEMPTS - attempt
    {
      var o := w[attempt - 1];
      if o.Success? || !IsTransient(o) || attempt == ATTEMPTS {
        RunsIsFirst(w, attempt);
        assert Pow2(1) == 2 && Pow2(2) == 4 && Pow2(3) == 8 && Pow2(4) == 16;
        return o, attempt, slept;
      }
      slept := slept + BACKOFF_MS * Pow2(attempt - 1);
      attempt := attempt + 1;
    }
  }

  // ----- finding a server -----

  /** `Contended` covers every final error that is not absence. */
  datatype Reach = Ok(target: nat) | NoServer | Contended(target: nat)

  function Probe(final: Outcome, target: nat): Reach {
    match final
    case Success => Ok(target)
    case Failure(kind) => if kind.AbsentError? then NoServer else Contended(target)
  }

  /** First reachable target, else the last contended one, else nobody. */
  ghost predicate BestReach(worlds: seq<World>, r: Reach) {
    match r
    case Ok(t) =>
      t < |worlds| && Final(worlds[t]) == Success && forall i :: 0 <= i < t ==> Final(worlds[i]) != Success
    case Contended(t) =>
      && t < |worlds|
      && Final(worlds[t]).Failure? && !Final(worlds[t]).kind.AbsentError?
      && (forall i :: 0 <= i < |worlds| ==> Final(worlds[i]) != Success)
      && (forall i :: t < i < |worlds| ==> Final(worlds[i]) == Failure(AbsentError))
    case NoServer =>
      forall i :: 0 <= i < |worlds| ==> Final(worlds[i]) == Failure(AbsentError)
  }

  method FindReachableTarget(worlds: seq<World>) returns (r: Reach)
    ensures BestReach(worlds, r)
  {
    hide Final, Runs;
    r := NoServer;
    var i := 0;
    while i < |worlds|
      invariant 0 <= i <= |worlds|
      invariant !r.Ok? && BestReach(worlds[..i], r)
    {
      var result, runs, slept := WithPsqlRetries(worlds[i]);
      var probe := Probe(result, i);
      assert worlds[..i + 1][..i] == worlds[..i];
      if probe.Ok? {
        forall j | 0 <= j < i ensures Final(worlds[j]) != Success {
          assert worlds[..i][j] == worlds[j];
        }
        return probe;
      }
      if probe.Contended? {
        r := probe;
      }
      i := i + 1;
    }
    assert worlds[..i] == worlds;
  }

  // ----- what psql's answers mean -----

  /** A failed psql call: its code, the signal that ended it, and its error output followed by its message. */
  datatype PsqlError = PsqlError(code: string, signal: string, text: string)

  function LowerChar(c: char): char {
    if 'A' <= c <= 'Z' then ((c as int) + 32) as char else c
  }

  function Lower(s: string): string {
    seq(|s|, i requires 0 <= i < |s| => LowerChar(s[i]))
  }

  /** The error says `phrase`, in any case. */
  predicate Says(e: PsqlError, phrase: string) {
    Contains(Lower(e.text), phrase)
  }

  /** The same character, or the same ASCII letter in the other case. */
  predicate CaseVariant(x: char, y: char) {
    || x == y
    || ('A' <= x <= 'Z' && y as int == x as int + 32)
    || ('A' <= y <= 'Z' && x as int == y as int + 32)
  }

  /** The texts differ only in the case of ASCII letters. */
  predicate SameButCase(a: string, b: string) {
    |a| == |b| && forall i :: 0 <= i < |a| ==> CaseVariant(a[i], b[i])
  }

  lemma LowerForgetsCase(a: string, b: string)
    ensures Lower(a) == Lower(b) <==> SameButCase(a, b)
  {
    if Lower(a) == Lower(b) {
      assert |a| == |b|;
      forall i | 0 <= i < |a| ensures CaseVariant(a[i], b[i]) {
        assert Lower(a)[i] == Lower(b)[i];
      }
    }
  }

  lemma LowerSlice(text: string, i: int, n: nat)
    requires 0 <= i <= |text| - n
    ensures Lower(text)[i..i + n] == Lower(text[i..i + n])
  {
  }

  lemma LowerStays(phrase: string)
    requires forall i :: 0 <= i < |phrase| ==> !('A' <= phrase[i] <= 'Z')
    ensures Lower(phrase) == phrase
  {
  }

  /** An error says a phrase exactly when some spelling of it, in any case, stands in its text. */
  lemma SaysExactly(e: PsqlError, phrase: string)
    requires forall i :: 0 <= i < |phrase| ==> !('A' <= phrase[i] <= 'Z')
    ensures Says(e, phrase) <==>
      exists i, spelling :: MatchAt(e.text, spelling, i) && SameButCase(spelling, phrase)
  {
    hide Lower, SameButCase;
    var text, n := e.text, |phrase|;
    LowerStays(phrase);
    assert |Lower(text)| == |text| by { LowerKeepsLength(text); }
    if Says(e, phrase) {
      var i :| 0 <= i <= |Lower(text)| - n && MatchAt(Lower(text), phrase, i);
      LowerSlice(text, i, n);
      LowerForgetsCase(text[i..i + n], phrase);
      assert MatchAt(text, text[i..i + n], i);
    }
    if i, spelling :| MatchAt(text, spelling, i) && SameButCase(spelling, phrase) {
      SameLength(spelling, phrase);
      LowerForgetsCase(spelling, phrase);
      LowerSlice(text, i, n);
      assert MatchAt(Lower(text), phrase, i);
    }
  }

  lemma LowerKeepsLength(s: string)
    ensures |Lower(s)| == |s|
  {
  }

  lemma SameLength(a: string, b: string)
    requires SameButCase(a, b)
    ensures |a| == |b|
  {
  }

  /** What a server under load, a connection cut short, and a missing server say. */
  const CONTENTION := {
    "too many clients already", "remaining connection slots", "sorry, too many clients",
    "is being accessed by other users", "the database system is starting up",
    "the database system is shutting down", "the database system is in recovery mode"}
  const HUNG_UP := "server closed the connection unexpectedly"
  const UNREACHABLE := {
    "connection refused", "could not connect to server", "no such file or directory",
    "network is unreachable", "name or service not known"}

  predicate SaysOne(e: PsqlError, phrases: set<string>) {
    exists phrase :: phrase in phrases && Says(e, phrase)
  }

  predicate Contention(e: PsqlError) {
    e.code == "ETIMEDOUT" || e.signal == "SIGTERM" || SaysOne(e, CONTENTION)
  }

  predicate HungUp(e: PsqlError) {
    Says(e, HUNG_UP)
  }

  predicate Unreachable(e: PsqlError) {
    e.code == "ECONNREFUSED" || SaysOne(e, UNREACHABLE) || HungUp(e)
  }

  /** Only an error that shows neither contention nor a connection cut short counts as a missing server. */
  function Classify(e: PsqlError): (kind: ErrorClass)
    ensures kind.TransientError? <==> Contention(e) || HungUp(e)
    ensures kind.AbsentError? <==> Unreachable(e) && !Contention(e) && !HungUp(e)
  {
    if Contention(e) then TransientError
    else if Unreachable(e) then if HungUp(e) then TransientError else AbsentError
    else OtherError
  }

  /** psql's answer to one call. */
  datatype Answer = Done | Error(err: PsqlError)

  function Judged(a: Answer): Outcome {
    match a
    case Done => Success
    case Error(err) => Failure(Classify(err))
  }

  /** A database that exists already is what the attempt wanted: a timeout can arrive after the server has
      committed. The second wording must stand on one line. */
  predicate AlreadyThere(e: PsqlError) {
    var text, first, second := Lower(e.text), "duplicate key value", "pg_database";
    || Says(e, "already exists")
    || exists i, j :: 0 <= i < |text| && 0 <= j < |text| && MatchAt(text, first, i) && MatchAt(text, second, j)
                      && i + |first| <= j && forall k :: i + |first| <= k < j ==> text[k] !in "\n\r\U{2028}\U{2029}"
  }

  /** Both wordings, in any case and wherever they stand. */
  lemma DuplicateIsThere(e: PsqlError, before: string, between: string, after: string)
    requires forall c :: c in between ==> c !in "\n\r\U{2028}\U{2029}"
    requires SameButCase(e.text, before + "duplicate key value" + between + "pg_database" + after)
    ensures AlreadyThere(e)
  {
    var first, second := "duplicate key value", "pg_database";
    var whole := before + first + between + second + after;
    hide Contains, SameButCase;
    LowerForgetsCase(e.text, whole);
    var i, j := |before|, |before| + |first| + |between|;
    var text := Lower(whole);
    LowerStays(first);
    LowerStays(second);
    assert whole[i..i + |first|] == first && whole[j..j + |second|] == second;
    LowerSlice(whole, i, |first|);
    LowerSlice(whole, j, |second|);
    assert MatchAt(text, first, i) && MatchAt(text, second, j);
    forall k | i + |first| <= k < j ensures text[k] !in "\n\r\U{2028}\U{2029}" {
      assert whole[k] == between[k - i - |first|];
      assert whole[k] in between;
    }
  }

  /** Neither verdict on an error depends on the case of its text. */
  lemma CaseDoesNotMatter(e: PsqlError, e': PsqlError)
    requires e.code == e'.code && e.signal == e'.signal && SameButCase(e.text, e'.text)
    ensures Classify(e) == Classify(e') && (AlreadyThere(e) <==> AlreadyThere(e'))
  {
    hide Lower, Contains, SameButCase;
    LowerForgetsCase(e.text, e'.text);
  }

  /** However it is spelled, a refused connection that shows neither contention nor a cut connection is absence. */
  lemma RefusedIsAbsent(e: PsqlError, spelling: string, i: int)
    requires MatchAt(e.text, spelling, i) && SameButCase(spelling, "connection refused")
    requires !Contention(e) && !HungUp(e)
    ensures Classify(e) == AbsentError
  {
    hide Contention, HungUp, Says, SameButCase;
    SaysExactly(e, "connection refused");
    assert "connection refused" in UNREACHABLE;
  }

  function JudgedCreate(a: Answer): Outcome {
    if a.Error? && AlreadyThere(a.err) then Success else Judged(a)
  }

  /** psql's answers to the five attempts of one action, should it come to that. */
  type Answers = w: seq<Answer> | |w| == 5 witness [Done, Done, Done, Done, Done]

  function ProbeWorld(answers: Answers): World {
    seq(5, i requires 0 <= i < 5 => Judged(answers[i]))
  }

  function CreateWorld(answers: Answers): World {
    seq(5, i requires 0 <= i < 5 => JudgedCreate(answers[i]))
  }

  /** The answer to the last call made to a server. */
  function LastAnswer(answers: Answers): Answer {
    answers[Runs(ProbeWorld(answers)) - 1]
  }

  predicate Retryable(a: Answer) {
    a.Error? && (Contention(a.err) || HungUp(a.err))
  }

  /** The `n`-th call was made and was the last: every earlier one could be retried, and it is the fifth or could
      not be. */
  ghost predicate CameTo(answers: Answers, n: nat) {
    && 1 <= n <= 5
    && (forall i :: 0 <= i < n - 1 ==> Retryable(answers[i]))
    && (n == 5 || !Retryable(answers[n - 1]))
  }

  lemma LastAnswerExactly(answers: Answers)
    ensures exists n :: CameTo(answers, n)
    ensures forall n :: CameTo(answers, n) ==> LastAnswer(answers) == answers[n - 1]
  {
    hide Contention, HungUp, Unreachable;
    var w := ProbeWorld(answers);
    assert CameTo(answers, Runs(w));
    forall n | CameTo(answers, n) ensures Runs(w) == n {
      RunsIsFirst(w, n);
    }
  }

  /** CREATE succeeded with its `n`-th call, after calls that could be retried and had not created anything. */
  ghost predicate CreatedBy(answers: Answers, n: nat) {
    && 1 <= n <= 5
    && (forall i :: 0 <= i < n - 1 ==> Retryable(answers[i]) && !AlreadyThere(answers[i].err))
    && (answers[n - 1].Done? || AlreadyThere(answers[n - 1].err))
  }

  lemma CreateExactly(answers: Answers)
    ensures Final(CreateWorld(answers)) == Success <==> exists n :: CreatedBy(answers, n)
    ensures forall n :: CreatedBy(answers, n) ==> Runs(CreateWorld(answers)) == n
  {
    hide Contention, HungUp, AlreadyThere, Unreachable;
    var w := CreateWorld(answers);
    if Final(w) == Success {
      assert CreatedBy(answers, Runs(w));
    }
    forall n | CreatedBy(answers, n) ensures Runs(w) == n && Final(w) == Success {
      RunsIsFirst(w, n);
    }
  }

  lemma FinalIsJudged(answers: Answers)
    ensures Final(ProbeWorld(answers)) == Judged(LastAnswer(answers))
  {
  }

  // ----- the decision -----

  datatype Setup = Pinned | SilentSkip | Failed | Provisioned(target: nat, name: nat)

  predicate IsPin(pinned: Option<string>) {
    pinned.Some? && pinned.value != ""
  }

  /** The server looks missing: unreachable, with no sign of contention or of a connection cut short. */
  predicate LooksMissing(answers: Answers) {
    var last := LastAnswer(answers);
    last.Error? && Unreachable(last.err) && !Contention(last.err) && !HungUp(last.err)
  }

  lemma MissingMeansAbsent(answers: Answers)
    ensures LooksMissing(answers) <==> Final(ProbeWorld(answers)) == Failure(AbsentError)
    ensures LastAnswer(answers).Done? <==> Final(ProbeWorld(answers)) == Success
  {
    hide Runs, ProbeWorld, Contention, Unreachable, HungUp;
    FinalIsJudged(answers);
  }

  /** `provisionTestDatabase`. `pinned` is TEST_DATABASE_URL; `servers` and `create` hold psql's answers.
      The database name carries the number of its attempt. */
  method ProvisionTestDatabase(pinned: Option<string>, required: bool, servers: seq<Answers>, create: Answers)
    returns (s: Setup)
    ensures s.Pinned? <==> IsPin(pinned)
    ensures s.SilentSkip? <==>
      !IsPin(pinned) && !required && forall i :: 0 <= i < |servers| ==> LooksMissing(servers[i])
    ensures s.Provisioned? <==>
      && !IsPin(pinned) && (exists n :: CreatedBy(create, n))
      && exists i :: 0 <= i < |servers| && LastAnswer(servers[i]).Done?
    ensures s.Provisioned? ==>
      && s.target < |servers| && LastAnswer(servers[s.target]).Done?
      && (forall i :: 0 <= i < s.target ==> !LastAnswer(servers[i]).Done?)
      && CreatedBy(create, s.name)
  {
    hide LooksMissing, LastAnswer, ProbeWorld, CreateWorld, Final, CreatedBy, Runs;
    CreateExactly(create);
    if pinned.Some? && pinned.value != "" {
      return Pinned;
    }
    var worlds: seq<World> := seq(|servers|, i requires 0 <= i < |servers| => ProbeWorld(servers[i]));
    var reach := FindReachableTarget(worlds);
    forall i | 0 <= i < |servers|
      ensures LooksMissing(servers[i]) <==> Final(worlds[i]) == Failure(AbsentError)
      ensures LastAnswer(servers[i]).Done? <==> Final(worlds[i]) == Success
    {
      MissingMeansAbsent(servers[i]);
    }
    if !reach.Ok? {
      if reach.Contended? || required {
        return Failed;
      }
      return SilentSkip;
    }
    var result, runs, slept := WithPsqlRetries(CreateWorld(create));
    if result.Success? {
      return Provisioned(reach.target, runs);
    }
    return Failed;
  }
}
