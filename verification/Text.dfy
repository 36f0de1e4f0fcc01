/** Text scanning as `scripts/claim.py` does it: first line of a comment, substring tests,
    and the two regular expressions `lane=(\S+)` and `run=(\S+)`. */
module Text {

  datatype Option<+T> = None | Some(value: T)

  /** Characters that Python's `\s` matches in a `str` pattern. */
  predicate IsSpace(c: char) {
    || c == ' '
    || '\t' <= c <= '\r'
    || '\U{1C}' <= c <= '\U{1F}'
    || c == '\U{85}' || c == '\U{A0}' || c == '\U{1680}'
    || '\U{2000}' <= c <= '\U{200A}'
    || c == '\U{2028}' || c == '\U{2029}' || c == '\U{202F}' || c == '\U{205F}' || c == '\U{3000}'
  }

  lemma SpacesAre(c: char)
    ensures IsSpace(c) <==>
      var n := c as int;
      9 <= n <= 13 || 28 <= n <= 32 || 8192 <= n <= 8202 || n in {133, 160, 5760, 8232, 8233, 8239, 8287, 12288}
  {
  }

  predicate NoSpace(s: string) {
    forall i :: 0 <= i < |s| ==> !IsSpace(s[i])
  }

  predicate MatchAt(s: string, sub: string, i: int) {
    0 <= i <= |s| - |sub| && s[i..i + |sub|] == sub
  }

  /** `sub` occurs somewhere in `s`. */
  predicate Contains(s: string, sub: string) {
    exists i :: 0 <= i <= |s| - |sub| && MatchAt(s, sub, i)
  }

  lemma MatchChars(s: string, sub: string, i: int)
    ensures MatchAt(s, sub, i) ==> 0 <= i <= |s| - |sub| && forall j :: 0 <= j < |sub| ==> s[i + j] == sub[j]
  {
  }

  /** The text up to the first line break. */
  function FirstLine(body: string): (line: string)
    ensures '\n' !in line
    ensures line <= body
    ensures line == body || body[|line|] == '\n'
  {
    if body == "" || body[0] == '\n' then "" else [body[0]] + FirstLine(body[1..])
  }

  lemma {:induction false} FirstLineStops(line: string, rest: string)
    requires '\n' !in line
    ensures FirstLine(line + "\n" + rest) == line
  {
    if line == "" {
      assert (line + "\n" + rest)[0] == '\n';
    } else {
      FirstLineStops(line[1..], rest);
      assert (line + "\n" + rest)[1..] == line[1..] + "\n" + rest;
    }
  }

  /** A match of `key(\S+)` may begin at position `q`. */
  predicate Starts(s: string, key: string, q: int) {
    MatchAt(s, key, q) && q + |key| < |s| && !IsSpace(s[q + |key|])
  }

  /** `tok` is the maximal run of non-space characters that follows `key` at `p`. */
  predicate TokenAt(s: string, key: string, p: int, tok: string) {
    && Starts(s, key, p)
    && tok != ""
    && tok == NonSpaceRun(s[p + |key|..])
  }

  /** `p` is the leftmost match and `tok` its group. */
  predicate LeftmostToken(s: string, key: string, p: int, tok: string) {
    TokenAt(s, key, p, tok) && forall q :: 0 <= q < p ==> !Starts(s, key, q)
  }

  function NonSpaceRun(s: string): (r: string)
    ensures r <= s && NoSpace(r)
    ensures r == s || IsSpace(s[|r|])
  {
    if s == "" || IsSpace(s[0]) then "" else [s[0]] + NonSpaceRun(s[1..])
  }

  lemma {:induction false} NonSpaceRunStops(tok: string, rest: string)
    requires NoSpace(tok) && (rest == "" || IsSpace(rest[0]))
    ensures NonSpaceRun(tok + rest) == tok
  {
    if tok == "" {
      assert tok + rest == rest;
    } else {
      NonSpaceRunStops(tok[1..], rest);
      assert (tok + rest)[1..] == tok[1..] + rest;
    }
  }

  /** The token after the first match of the key, scanning from position `from`. */
  function Search(s: string, key: string, from: nat): (r: Option<string>)
    requires from <= |s|
    ensures r.None? ==> forall q :: from <= q ==> !Starts(s, key, q)
    ensures r.Some? ==>
      exists p :: from <= p && TokenAt(s, key, p, r.value) && forall q :: from <= q < p ==> !Starts(s, key, q)
    decreases |s| - from
  {
    if from == |s| then None
    else if Starts(s, key, from) then
      var tok := NonSpaceRun(s[from + |key|..]);
      assert TokenAt(s, key, from, tok);
      Some(tok)
    else Search(s, key, from + 1)
  }

  function TokenAfter(s: string, key: string): (r: Option<string>)
    ensures r.None? ==> forall q :: !Starts(s, key, q)
    ensures r.Some? ==> exists p :: LeftmostToken(s, key, p, r.value)
  {
    var r := Search(s, key, 0);
    assert r.Some? ==> exists p :: LeftmostToken(s, key, p, r.value) by {
      if r.Some? {
        var p :| 0 <= p && TokenAt(s, key, p, r.value) && forall q :: 0 <= q < p ==> !Starts(s, key, q);
        assert LeftmostToken(s, key, p, r.value);
      }
    }
    r
  }

  /** The leftmost match is unique, so exhibiting one determines the search result. */
  lemma LeftmostIsResult(s: string, key: string, p: int, tok: string)
    requires LeftmostToken(s, key, p, tok)
    ensures TokenAfter(s, key) == Some(tok)
  {
  }

  /** A key that cannot begin in the text before it yields the token that follows it. */
  lemma TokenFound(pre: string, key: string, tok: string, rest: string)
    requires key != "" && key[0] !in pre
    requires tok != "" && NoSpace(tok) && (rest == "" || IsSpace(rest[0]))
    ensures TokenAfter(pre + (key + (tok + rest)), key) == Some(tok)
  {
    hide IsSpace;
    var s, p := pre + (key + (tok + rest)), |pre|;
    assert s[p..p + |key|] == key && s[p + |key|..] == tok + rest && s[p + |key|] == tok[0];
    NonSpaceRunStops(tok, rest);
    assert TokenAt(s, key, p, tok);
    forall i | 0 <= i < p ensures !Starts(s, key, i) {
      assert s[i] == pre[i];
      MatchChars(s, key, i);
    }
    LeftmostIsResult(s, key, p, tok);
  }

  lemma TokenIsContained(s: string, key: string, tok: string)
    requires TokenAfter(s, key) == Some(tok)
    ensures Contains(s, key + tok) && tok != "" && NoSpace(tok)
  {
    hide IsSpace, NoSpace;
    var p :| LeftmostToken(s, key, p, tok);
    var rest := s[p + |key|..];
    assert tok == rest[..|tok|];
    assert s[p..p + |key + tok|] == s[p..p + |key|] + rest[..|tok|];
    assert MatchAt(s, key + tok, p);
  }

  lemma PrefixKeepsContains(line: string, body: string, sub: string)
    requires line <= body && Contains(line, sub)
    ensures Contains(body, sub)
  {
    var i :| 0 <= i <= |line| - |sub| && MatchAt(line, sub, i);
    assert body[i..i + |sub|] == line[i..i + |sub|];
    assert MatchAt(body, sub, i);
  }
}
