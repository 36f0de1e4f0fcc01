/** Merging a batch of operator rules into the auto-approve policy document (`admin-router.ts`). */
module Policy {
  import opened Text

  /** The amounts, limits and dates of a rule; the merge never looks at them. */
  type Terms = string

  /** `parses` is the verdict of the strict rule parser on the rule's own fields. */
  datatype Rule = Rule(id: string, implementer: string, terms: Terms, parses: bool)

  datatype Reason = Absent | Off | Invalid | Unreadable

  datatype Document = Enabled(rules: seq<Rule>) | Disabled(reason: Reason, parked: Option<seq<Rule>>)

  /** The stored text, as the structure it encodes. */
  datatype Json = Json(enabled: bool, rules: seq<Rule>)

  predicate DistinctIds(rules: seq<Rule>) {
    forall i, j :: 0 <= i < j < |rules| ==> rules[i].id != rules[j].id
  }

  predicate AllParse(rules: seq<Rule>) {
    forall i :: 0 <= i < |rules| ==> rules[i].parses
  }

  /** `policyDocumentFromJson`: one bad rule or a repeated id makes the whole document invalid. */
  function DocumentFromJson(json: Json): Document {
    if !AllParse(json.rules) || !DistinctIds(json.rules) then Disabled(Invalid, None)
    else if !json.enabled then Disabled(Off, Some(json.rules))
    else Enabled(json.rules)
  }

  /** The rules whose id is not in `ids`, in order. */
  function Untouched(rules: seq<Rule>, ids: set<string>): seq<Rule> {
    if rules == [] then []
    else (if rules[0].id in ids then [] else [rules[0]]) + Untouched(rules[1..], ids)
  }

  function Without(rules: seq<Rule>, id: string): seq<Rule> {
    Untouched(rules, {id})
  }

  predicate Broken(current: Document) {
    current.Disabled? && (current.reason.Invalid? || current.reason.Unreadable?)
  }

  /** `mergeRuleIntoAutoApprovePolicy`; `None` is the policy_invalid refusal. */
  function MergeRule(current: Document, rule: Rule): Option<Json> {
    match current
    case Disabled(reason, parked) =>
      if reason.Invalid? || reason.Unreadable? then None
      else if reason.Absent? then Some(Json(true, [rule]))
      else
        var others := if parked.Some? then parked.value else [];
        Some(Json(false, Without(others, rule.id) + [rule]))
    case Enabled(rules) => Some(Json(true, Without(rules, rule.id) + [rule]))
  }

  // ----- reference: what a batch should leave -----

  function Rules(current: Document): seq<Rule> {
    match current
    case Enabled(rules) => rules
    case Disabled(Off, Some(rules)) => rules
    case _ => []
  }

  predicate StaysEnabled(current: Document) {
    current.Enabled? || current.reason.Absent?
  }

  function Ids(rules: seq<Rule>): set<string> {
    set r | r in rules :: r.id
  }

  /** The last occurrence of each id of the batch, in order. */
  function LastOccurrences(batch: seq<Rule>): seq<Rule> {
    if batch == [] then []
    else (if batch[0].id in Ids(batch[1..]) then [] else [batch[0]]) + LastOccurrences(batch[1..])
  }

  /** The old rules the batch does not mention, then the last version of each batch rule. */
  function NormalForm(rules: seq<Rule>, batch: seq<Rule>): seq<Rule> {
    Untouched(rules, Ids(batch)) + LastOccurrences(batch)
  }

  // ----- one step on the normal form -----

  lemma Assoc(a: seq<Rule>, b: seq<Rule>, c: seq<Rule>)
    ensures a + (b + c) == a + b + c
  {
  }

  lemma EmptyLists(ids: set<string>, who: string)
    ensures Untouched([], ids) == [] && Others([], who) == []
  {
  }

  lemma UntouchedCons(x: Rule, rules: seq<Rule>, ids: set<string>)
    ensures Untouched([x] + rules, ids) == (if x.id in ids then [] else [x]) + Untouched(rules, ids)
  {
  }

  lemma {:induction false} UntouchedConcat(a: seq<Rule>, b: seq<Rule>, ids: set<string>)
    ensures Untouched(a + b, ids) == Untouched(a, ids) + Untouched(b, ids)
  {
    hide Untouched;
    if a == [] {
      assert Untouched([], ids) == [] by { EmptyLists(ids, ""); }
      assert a + b == b && [] + Untouched(b, ids) == Untouched(b, ids);
    } else {
      var x, t := a[0], a[1..];
      var head := if x.id in ids then [] else [x];
      UntouchedConcat(t, b, ids);
      assert Untouched(a, ids) == head + Untouched(t, ids) by {
        UntouchedCons(x, t, ids);
        assert a == [x] + t;
      }
      assert Untouched(a + b, ids) == head + Untouched(t + b, ids) by {
        UntouchedCons(x, t + b, ids);
        assert a + b == [x] + (t + b);
      }
      Assoc(head, Untouched(t, ids), Untouched(b, ids));
    }
  }

  lemma {:induction false} WithoutUntouched(rules: seq<Rule>, ids: set<string>, id: string)
    ensures Without(Untouched(rules, ids), id) == Untouched(rules, ids + {id})
  {
    if rules != [] {
      WithoutUntouched(rules[1..], ids, id);
      var head := if rules[0].id in ids then [] else [rules[0]];
      UntouchedConcat(head, Untouched(rules[1..], ids), {id});
    }
  }

  lemma IdsSplit(a: seq<Rule>, b: seq<Rule>)
    ensures Ids(a + b) == Ids(a) + Ids(b)
  {
  }

  lemma {:induction false} LastAppend(batch: seq<Rule>, r: Rule)
    ensures LastOccurrences(batch + [r]) == Without(LastOccurrences(batch), r.id) + [r]
  {
    if batch == [] {
      assert batch + [r] == [r];
      assert [r][1..] == [];
    } else {
      var x, t := batch[0], batch[1..];
      assert (batch + [r])[1..] == t + [r];
      IdsSplit(t, [r]);
      assert Ids([r]) == {r.id};
      hide Ids;
      LastAppend(t, r);
      var head, last := if x.id in Ids(t) then [] else [x], LastOccurrences(t);
      UntouchedConcat(head, last, {r.id});
      var head' := if x.id in Ids(t + [r]) then [] else [x];
      assert Without(head, r.id) == head' by { assert [x][1..] == []; }
      assert head' + (Without(last, r.id) + [r]) == head' + Without(last, r.id) + [r];
    }
  }

  /** Merging one more rule keeps the normal form. */
  lemma NormalFormStep(rules: seq<Rule>, batch: seq<Rule>, r: Rule)
    ensures Without(NormalForm(rules, batch), r.id) + [r] == NormalForm(rules, batch + [r])
  {
    IdsSplit(batch, [r]);
    assert Ids([r]) == {r.id};
    hide Ids, Untouched, LastOccurrences;
    UntouchedConcat(Untouched(rules, Ids(batch)), LastOccurrences(batch), {r.id});
    WithoutUntouched(rules, Ids(batch), r.id);
    LastAppend(batch, r);
  }

  // ----- well-formedness of the normal form -----

  lemma {:induction false} UntouchedFacts(rules: seq<Rule>, ids: set<string>)
    ensures forall r :: r in Untouched(rules, ids) <==> r in rules && r.id !in ids
    ensures DistinctIds(rules) ==> DistinctIds(Untouched(rules, ids))
  {
    if rules != [] {
      UntouchedFacts(rules[1..], ids);
      assert rules == [rules[0]] + rules[1..];
      if DistinctIds(rules) {
        var t := Untouched(rules[1..], ids);
        forall j | 0 <= j < |t| ensures t[j].id != rules[0].id {
          assert t[j] in rules[1..];
        }
      }
    }
  }

  lemma {:induction false} LastFacts(batch: seq<Rule>)
    ensures forall r :: r in LastOccurrences(batch) ==> r in batch
    ensures Ids(LastOccurrences(batch)) == Ids(batch)
    ensures DistinctIds(LastOccurrences(batch))
  {
    if batch != [] {
      var x, t := batch[0], batch[1..];
      LastFacts(t);
      assert batch == [x] + t;
      IdsSplit([x], t);
      assert Ids([x]) == {x.id};
      var last := LastOccurrences(t);
      if x.id !in Ids(t) {
        IdsSplit([x], last);
        forall j | 0 <= j < |last| ensures last[j].id != x.id {
          assert last[j].id in Ids(last);
        }
      }
    }
  }

  lemma NormalFormIsValid(rules: seq<Rule>, batch: seq<Rule>)
    requires DistinctIds(rules) && AllParse(rules)
    ensures DistinctIds(NormalForm(rules, batch))
    ensures AllParse(batch) ==> AllParse(NormalForm(rules, batch))
  {
    var a, b := Untouched(rules, Ids(batch)), LastOccurrences(batch);
    UntouchedFacts(rules, Ids(batch));
    LastFacts(batch);
    forall i, j | 0 <= i < |a| && 0 <= j < |b| ensures a[i].id != b[j].id {
      assert a[i] in a && b[j] in b;
      assert b[j].id in Ids(b);
    }
    forall i | 0 <= i < |a| ensures a[i].parses {
      assert a[i] in a;
    }
    if AllParse(batch) {
      forall j | 0 <= j < |b| ensures b[j].parses {
        assert b[j] in b;
      }
    }
  }

  // ----- the loop of both routes -----

  /** What the stored document can be: parsed ones are valid. */
  predicate Stored(current: Document) {
    DistinctIds(Rules(current)) && AllParse(Rules(current))
  }

  /** All but possibly the last rule of the batch parse. */
  predicate Readable(batch: seq<Rule>) {
    batch == [] || AllParse(batch[..|batch| - 1])
  }

  /** The document after the loop has merged `batch`. */
  function Expected(current: Document, batch: seq<Rule>): Json {
    Json(StaysEnabled(current), NormalForm(Rules(current), batch))
  }

  lemma MergeFails(policy: Document, r: Rule)
    ensures MergeRule(policy, r).None? <==> Broken(policy)
  {
  }

  lemma MergeStep(current: Document, batch: seq<Rule>, r: Rule)
    requires Stored(current) && !Broken(current) && AllParse(batch)
    ensures var doc := if batch == [] then current else DocumentFromJson(Expected(current, batch));
      MergeRule(doc, r) == Some(Expected(current, batch + [r]))
  {
    hide LastOccurrences, Ids, NormalForm;
    NormalFormIsValid(Rules(current), batch);
    NormalFormStep(Rules(current), batch, r);
    if batch == [] {
      NothingMerged(Rules(current));
      assert [] + [r] == [r];
    }
  }

  lemma {:induction false} NothingMerged(rules: seq<Rule>)
    ensures NormalForm(rules, []) == rules
  {
    if rules != [] {
      NothingMerged(rules[1..]);
    }
    assert Ids([]) == {};
  }

  // ----- what the batch leaves, rule by rule -----

  /** `r` is a rule of the document before the merge: live, or parked. */
  predicate Held(current: Document, r: Rule) {
    match current
    case Enabled(rules) => r in rules
    case Disabled(reason, parked) => reason.Off? && parked.Some? && r in parked.value
  }

  /** The batch has the last word on its id with rule `i`. */
  ghost predicate LastOfId(batch: seq<Rule>, i: int) {
    0 <= i < |batch| && forall j :: i < j < |batch| ==> batch[j].id != batch[i].id
  }

  /** `r` stays: an old rule whose id the batch does not use, or the batch's last rule of its id. */
  ghost predicate Stays(current: Document, batch: seq<Rule>, r: Rule) {
    || (Held(current, r) && forall i :: 0 <= i < |batch| ==> batch[i].id != r.id)
    || exists i :: LastOfId(batch, i) && batch[i] == r
  }

  lemma {:induction false} LastMembers(batch: seq<Rule>, r: Rule)
    ensures r in LastOccurrences(batch) <==> exists i :: LastOfId(batch, i) && batch[i] == r
  {
    if batch != [] {
      var x, t := batch[0], batch[1..];
      LastMembers(t, r);
      if i :| LastOfId(t, i) && t[i] == r {
        assert forall j :: i + 1 < j < |batch| ==> batch[j] == t[j - 1];
        assert LastOfId(batch, i + 1) && batch[i + 1] == r;
      }
      if i :| LastOfId(batch, i) && batch[i] == r {
        if i == 0 {
          forall y | y in t ensures y.id != x.id {
            var j :| 0 <= j < |t| && t[j] == y;
            assert batch[j + 1] == y;
          }
        } else {
          assert forall j :: i - 1 < j < |t| ==> t[j] == batch[j + 1];
          assert LastOfId(t, i - 1) && t[i - 1] == r;
        }
      }
      if x.id !in Ids(t) {
        assert forall j :: 0 < j < |batch| ==> batch[j] in t;
        assert LastOfId(batch, 0);
      }
    }
  }

  lemma StoredExactly(current: Document, batch: seq<Rule>, r: Rule)
    ensures r in Expected(current, batch).rules <==> Stays(current, batch, r)
  {
    UntouchedFacts(Rules(current), Ids(batch));
    LastMembers(batch, r);
    hide LastOccurrences, Untouched, LastOfId;
    assert r.id in Ids(batch) <==> exists i :: 0 <= i < |batch| && batch[i].id == r.id by {
      if i :| 0 <= i < |batch| && batch[i].id == r.id {
        assert batch[i] in batch;
      }
    }
  }

  ghost predicate InOrder(s: seq<Rule>, x: Rule, y: Rule) {
    exists i, j :: 0 <= i < j < |s| && s[i] == x && s[j] == y
  }

  lemma HeadOrder(x: Rule, t: seq<Rule>, y: Rule)
    requires y in t
    ensures InOrder([x] + t, x, y)
  {
    var j :| 0 <= j < |t| && t[j] == y;
    assert ([x] + t)[0] == x && ([x] + t)[j + 1] == y;
  }

  lemma TailOrder(x: Rule, t: seq<Rule>, y: Rule, z: Rule)
    requires InOrder(t, y, z)
    ensures InOrder([x] + t, y, z)
  {
    var i, j :| 0 <= i < j < |t| && t[i] == y && t[j] == z;
    assert ([x] + t)[i + 1] == y && ([x] + t)[j + 1] == z;
  }

  lemma {:induction false} UntouchedOrder(rules: seq<Rule>, ids: set<string>, a: nat, b: nat)
    requires a < b < |Untouched(rules, ids)|
    ensures InOrder(rules, Untouched(rules, ids)[a], Untouched(rules, ids)[b])
  {
    hide InOrder, Untouched, DistinctIds;
    EmptyLists(ids, "");
    assert rules != [];
    var x, t, u, ut := rules[0], rules[1..], Untouched(rules, ids), Untouched(rules[1..], ids);
    assert rules == [x] + t;
    UntouchedCons(x, t, ids);
    UntouchedFacts(t, ids);
    if x.id !in ids && a == 0 {
      assert u[b] == ut[b - 1];
      HeadOrder(x, t, u[b]);
    } else {
      var d := if x.id in ids then 0 else 1;
      UntouchedOrder(t, ids, a - d, b - d);
      TailOrder(x, t, u[a], u[b]);
    }
  }

  lemma {:induction false} LastOrder(batch: seq<Rule>, a: nat, b: nat)
    requires a < b < |LastOccurrences(batch)|
    ensures InOrder(batch, LastOccurrences(batch)[a], LastOccurrences(batch)[b])
  {
    hide InOrder, Ids;
    var x, t, u, ut := batch[0], batch[1..], LastOccurrences(batch), LastOccurrences(batch[1..]);
    assert batch == [x] + t;
    LastFacts(t);
    if x.id !in Ids(t) && a == 0 {
      assert u[b] == ut[b - 1];
      HeadOrder(x, t, u[b]);
    } else {
      var d := if x.id in Ids(t) then 0 else 1;
      LastOrder(t, a - d, b - d);
      TailOrder(x, t, u[a], u[b]);
    }
  }

  /** Old rules keep their order and come first; the batch's rules follow in theirs. */
  lemma StoredOrder(rules: seq<Rule>, batch: seq<Rule>, a: nat, b: nat)
    requires a < b < |NormalForm(rules, batch)|
    ensures var x, y := NormalForm(rules, batch)[a], NormalForm(rules, batch)[b];
      InOrder(rules, x, y) || (x in rules && y in batch) || InOrder(batch, x, y)
  {
    var u, v := Untouched(rules, Ids(batch)), LastOccurrences(batch);
    UntouchedFacts(rules, Ids(batch));
    LastFacts(batch);
    if b < |u| {
      UntouchedOrder(rules, Ids(batch), a, b);
    } else if a >= |u| {
      LastOrder(batch, a - |u|, b - |u|);
    } else {
      assert u[a] in u && v[b - |u|] in v;
    }
  }

  /** The loop over the stamped rules. It fails exactly when the current document is broken or a rule before
      the last does not read back; otherwise the text it stores is the normal form: the old rules the batch
      does not mention, then the last version of each batch rule, with the enabled flag preserved
      (a brand-new document starts enabled). */
  method MergeBatch(current: Document, batch: seq<Rule>) returns (stored: Option<Json>)
    requires Stored(current) && batch != []
    ensures stored.None? <==>
      || (current.Disabled? && (current.reason.Invalid? || current.reason.Unreadable?))
      || exists i :: 0 <= i < |batch| - 1 && !batch[i].parses
    ensures stored.Some? ==> stored.value == Expected(current, batch)
    ensures stored.Some? ==> forall r :: r in stored.value.rules <==> Stays(current, batch, r)
    ensures stored.Some? ==>
      (stored.value.enabled <==> current.Enabled? || (current.Disabled? && current.reason.Absent?))
  {
    FailureMeans(current, batch);
    hide StaysEnabled, Stays;
    hide Expected, AllParse, Stored, MergeRule, DocumentFromJson, Readable, Broken;
    var policy := current;
    var json := Json(false, []);
    var i := 0;
    while i < |batch|
      invariant 0 <= i <= |batch|
      invariant if i == 0 then policy == current else
        && !Broken(current) && Readable(batch[..i])
        && json == Expected(current, batch[..i]) && policy == DocumentFromJson(json)
    {
      BrokenOnTheWay(current, batch, i);
      var merged := MergeRule(policy, batch[i]);
      MergeFails(policy, batch[i]);
      if merged.None? {
        return None;
      }
      MergeStep(current, batch[..i], batch[i]);
      assert batch[..i] + [batch[i]] == batch[..i + 1];
      json := merged.value;
      policy := DocumentFromJson(json);
      i := i + 1;
    }
    assert batch[..i] == batch;
    forall r ensures r in json.rules <==> Stays(current, batch, r) {
      StoredExactly(current, batch, r);
    }
    FlagKept(current, batch);
    return Some(json);
  }

  lemma FailureMeans(current: Document, batch: seq<Rule>)
    requires batch != []
    ensures Broken(current) || !Readable(batch) <==>
      || (current.Disabled? && (current.reason.Invalid? || current.reason.Unreadable?))
      || exists i :: 0 <= i < |batch| - 1 && !batch[i].parses
  {
    var init := batch[..|batch| - 1];
    assert forall i :: 0 <= i < |init| ==> init[i] == batch[i];
  }

  lemma FlagKept(current: Document, batch: seq<Rule>)
    requires !Broken(current)
    ensures Expected(current, batch).enabled <==>
      current.Enabled? || (current.Disabled? && current.reason.Absent?)
  {
  }

  /** Before rule `i`: the policy in hand is broken exactly if the loop is bound to fail. */
  lemma BrokenOnTheWay(current: Document, batch: seq<Rule>, i: nat)
    requires Stored(current) && i < |batch|
    requires i > 0 ==> !Broken(current) && Readable(batch[..i])
    ensures var policy := if i == 0 then current else DocumentFromJson(Expected(current, batch[..i]));
      && (Broken(policy) ==> Broken(current) || !Readable(batch))
      && (!Broken(policy) ==> AllParse(batch[..i]) && Readable(batch[..i + 1]) && !Broken(current))
  {
    hide Expected, Rules, DistinctIds;
    assert batch[..i + 1][..i] == batch[..i];
    if i > 0 {
      ReadBack(current, batch[..i]);
      if AllParse(batch[..|batch| - 1]) {
        assert forall k :: 0 <= k < i ==> batch[..i][k] == batch[..|batch| - 1][k];
      }
    }
  }

  /** Reading the stored text back gives the same rules and flag, unless the last rule merged does not parse. */
  lemma ReadBack(current: Document, batch: seq<Rule>)
    requires Stored(current) && !Broken(current) && Readable(batch)
    ensures var doc := DocumentFromJson(Expected(current, batch));
      if AllParse(batch)
      then Stored(doc) && !Broken(doc) && Rules(doc) == NormalForm(Rules(current), batch)
           && (doc.Enabled? <==> StaysEnabled(current))
      else doc == Disabled(Invalid, None)
  {
    hide Untouched, LastOccurrences, Ids, DistinctIds;
    var nf := NormalForm(Rules(current), batch);
    NormalFormIsValid(Rules(current), batch);
    if !AllParse(batch) {
      var n := |batch| - 1;
      LastAppend(batch[..n], batch[n]);
      assert batch[..n] + [batch[n]] == batch;
      assert nf[|nf| - 1] == batch[n];
    }
  }

  lemma {:induction false} AllTouched(rules: seq<Rule>, ids: set<string>)
    requires forall r :: r in rules ==> r.id in ids
    ensures Untouched(rules, ids) == []
  {
    if rules != [] {
      AllTouched(rules[1..], ids);
    }
  }

  lemma {:induction false} NoneTouched(rules: seq<Rule>, ids: set<string>)
    requires forall r :: r in rules ==> r.id !in ids
    ensures Untouched(rules, ids) == rules
  {
    if rules != [] {
      NoneTouched(rules[1..], ids);
    }
  }

  /** Approving the same batch twice stores what approving it once stores. */
  lemma MergeTwiceIsOnce(current: Document, batch: seq<Rule>)
    requires Stored(current) && !Broken(current) && AllParse(batch)
    ensures Expected(DocumentFromJson(Expected(current, batch)), batch) == Expected(current, batch)
  {
    hide NormalForm, Stored, Rules, DistinctIds;
    ReadBack(current, batch);
    NormalFormIdempotent(Rules(current), batch);
  }

  lemma NormalFormIdempotent(rules: seq<Rule>, batch: seq<Rule>)
    ensures NormalForm(NormalForm(rules, batch), batch) == NormalForm(rules, batch)
  {
    hide Untouched, LastOccurrences, DistinctIds;
    var ids := Ids(batch);
    var a, b := Untouched(rules, ids), LastOccurrences(batch);
    UntouchedFacts(rules, ids);
    LastFacts(batch);
    assert forall r :: r in b ==> r.id in ids;
    hide Ids;
    UntouchedConcat(a, b, ids);
    NoneTouched(a, ids);
    AllTouched(b, ids);
    assert a + [] == a;
  }

  // ----- whose rules are touched -----

  /** `stampOperatorRule` over a batch: every draft gets the implementer it is approved for. */
  function Stamp(drafts: seq<Rule>, who: string): (stamped: seq<Rule>)
    ensures |stamped| == |drafts|
    ensures forall i :: 0 <= i < |drafts| ==> stamped[i] == drafts[i].(implementer := who)
  {
    seq(|drafts|, i requires 0 <= i < |drafts| => drafts[i].(implementer := who))
  }

  /** The rules of everybody else, in order. */
  function Others(rules: seq<Rule>, who: string): seq<Rule> {
    if rules == [] then []
    else (if rules[0].implementer == who then [] else [rules[0]]) + Others(rules[1..], who)
  }

  lemma OthersCons(x: Rule, rules: seq<Rule>, who: string)
    ensures Others([x] + rules, who) == (if x.implementer == who then [] else [x]) + Others(rules, who)
  {
  }

  lemma {:induction false} OthersConcat(a: seq<Rule>, b: seq<Rule>, who: string)
    ensures Others(a + b, who) == Others(a, who) + Others(b, who)
  {
    hide Others;
    if a == [] {
      assert Others([], who) == [] by { EmptyLists({}, who); }
      assert a + b == b && [] + Others(b, who) == Others(b, who);
    } else {
      var x, t := a[0], a[1..];
      var head := if x.implementer == who then [] else [x];
      OthersConcat(t, b, who);
      assert Others(a, who) == head + Others(t, who) by {
        OthersCons(x, t, who);
        assert a == [x] + t;
      }
      assert Others(a + b, who) == head + Others(t + b, who) by {
        OthersCons(x, t + b, who);
        assert a + b == [x] + (t + b);
      }
      Assoc(head, Others(t, who), Others(b, who));
    }
  }

  lemma {:induction false} OthersFacts(rules: seq<Rule>, who: string)
    ensures forall r :: r in Others(rules, who) <==> r in rules && r.implementer != who
    ensures (forall r :: r in rules ==> r.implementer == who) ==> Others(rules, who) == []
  {
    if rules != [] {
      OthersFacts(rules[1..], who);
      assert rules == [rules[0]] + rules[1..];
    }
  }

  lemma {:induction false} OthersCommute(rules: seq<Rule>, who: string, ids: set<string>)
    ensures Others(Untouched(rules, ids), who) == Untouched(Others(rules, who), ids)
  {
    if rules != [] {
      var x, t := rules[0], rules[1..];
      OthersCommute(t, who, ids);
      var kept, mine := if x.id in ids then [] else [x], if x.implementer == who then [] else [x];
      OthersConcat(kept, Untouched(t, ids), who);
      UntouchedConcat(mine, Others(t, who), ids);
      assert [x][1..] == [];
    }
  }

  lemma StampedIds(drafts: seq<Rule>, who: string)
    ensures Ids(Stamp(drafts, who)) == Ids(drafts)
    ensures forall r :: r in Stamp(drafts, who) ==> r.implementer == who
  {
    var stamped := Stamp(drafts, who);
    forall r | r in drafts ensures r.id in Ids(stamped) {
      var i :| 0 <= i < |drafts| && drafts[i] == r;
      assert stamped[i] in stamped;
    }
  }

  lemma {:induction false} UntouchedShrinks(rules: seq<Rule>, ids: set<string>)
    ensures |Untouched(rules, ids)| <= |rules|
    ensures Untouched(rules, ids) == rules <==> forall r :: r in rules ==> r.id !in ids
  {
    UntouchedFacts(rules, ids);
    if forall r :: r in rules ==> r.id !in ids {
      NoneTouched(rules, ids);
    }
    if rules != [] {
      UntouchedShrinks(rules[1..], ids);
    }
  }

  /** A batch approved for one implementer leaves the others exactly the rules whose ids it does not use, in their
      order, and adds none to them; so it spares them all if and only if it shares no rule id with them. */
  lemma OthersSurvive(rules: seq<Rule>, drafts: seq<Rule>, who: string)
    ensures var after := Others(NormalForm(rules, Stamp(drafts, who)), who);
      && after == Untouched(Others(rules, who), Ids(drafts))
      && (after == Others(rules, who) <==> forall r :: r in rules && r.implementer != who ==> r.id !in Ids(drafts))
  {
    hide Untouched, LastOccurrences, Others, Ids, Stamp;
    var batch := Stamp(drafts, who);
    StampedIds(drafts, who);
    var kept, last := Untouched(rules, Ids(drafts)), LastOccurrences(batch);
    OthersConcat(kept, last, who);
    LastFacts(batch);
    OthersFacts(last, who);
    OthersFacts(rules, who);
    assert Others(kept, who) + [] == Others(kept, who);
    OthersCommute(rules, who, Ids(drafts));
    UntouchedShrinks(Others(rules, who), Ids(drafts));
  }

  /** Two implementers with the same rule id: approving the second one's rule removes the first one's. */
  lemma SharedIdOverwrites(earlier: Rule, draft: Rule, who: string)
    requires earlier.id == draft.id && earlier.implementer != who
    ensures Others(NormalForm([earlier], Stamp([draft], who)), who) == []
  {
    hide NormalForm, Stamp;
    OthersSurvive([earlier], [draft], who);
    AllTouched(Others([earlier], who), Ids([draft]));
  }
}
