/** `escapeHtml` and the replacement chain of `safeJsonForScript`: successive global replacements,
    shown equal to one substitution per character. */
module Escaping {
  import opened Text

  type Table = map<char, string>

  /** One global replacement of a character by a text. */
  function ReplaceAll(s: string, c: char, rep: string): string {
    if s == "" then "" else (if s[0] == c then rep else [s[0]]) + ReplaceAll(s[1..], c, rep)
  }

  /** The replacements of `order`, one pass after another. */
  function Passes(table: Table, order: string, s: string): string
    requires forall c :: c in order ==> c in table
  {
    if order == "" then s else Passes(table, order[1..], ReplaceAll(s, order[0], table[order[0]]))
  }

  /** Every character of `done` replaced at the same time. */
  function Substitute(table: Table, done: set<char>, s: string): string
    requires done <= table.Keys
  {
    if s == "" then "" else (if s[0] in done then table[s[0]] else [s[0]]) + Substitute(table, done, s[1..])
  }

  lemma {:induction false} ReplaceConcat(s: string, t: string, c: char, rep: string)
    ensures ReplaceAll(s + t, c, rep) == ReplaceAll(s, c, rep) + ReplaceAll(t, c, rep)
  {
    if s == "" {
      assert s + t == t;
    } else {
      ReplaceConcat(s[1..], t, c, rep);
      assert (s + t)[1..] == s[1..] + t;
      var head := if s[0] == c then rep else [s[0]];
      assert ReplaceAll(s + t, c, rep) == head + (ReplaceAll(s[1..], c, rep) + ReplaceAll(t, c, rep));
    }
  }

  lemma {:induction false} ReplaceAbsent(s: string, c: char, rep: string)
    requires c !in s
    ensures ReplaceAll(s, c, rep) == s
  {
    if s != "" {
      ReplaceAbsent(s[1..], c, rep);
    }
  }

  /** One more pass extends the simultaneous substitution, if `x` occurs in no text inserted so far. */
  lemma {:induction false} PassExtends(table: Table, done: set<char>, x: char, s: string)
    requires done <= table.Keys && x in table && x !in done
    requires forall d :: d in done ==> x !in table[d]
    ensures ReplaceAll(Substitute(table, done, s), x, table[x]) == Substitute(table, done + {x}, s)
  {
    if s != "" {
      var head := if s[0] in done then table[s[0]] else [s[0]];
      var rest := Substitute(table, done, s[1..]);
      PassExtends(table, done, x, s[1..]);
      ReplaceConcat(head, rest, x, table[x]);
      if s[0] in done {
        ReplaceAbsent(head, x, table[x]);
      } else {
        assert ReplaceAll(head, x, table[x]) == if s[0] == x then table[x] + "" else [s[0]] + "";
        assert head[1..] == "";
      }
    }
  }

  lemma {:induction false} SubstituteNothing(table: Table, s: string)
    ensures Substitute(table, {}, s) == s
  {
    if s != "" {
      SubstituteNothing(table, s[1..]);
    }
  }

  /** No pass replaces a character inside text that an earlier pass inserted. */
  ghost predicate Independent(table: Table, done: set<char>, order: string)
    requires done <= table.Keys && forall c :: c in order ==> c in table
  {
    && (forall i :: 0 <= i < |order| ==> order[i] !in done && forall d :: d in done ==> order[i] !in table[d])
    && (forall i, j :: 0 <= i < j < |order| ==> order[i] != order[j] && order[j] !in table[order[i]])
  }

  function Chars(order: string): set<char> {
    set c | c in order
  }

  lemma {:induction false} PassesFrom(table: Table, done: set<char>, order: string, s: string)
    requires done <= table.Keys && (forall c :: c in order ==> c in table) && Independent(table, done, order)
    ensures Passes(table, order, Substitute(table, done, s)) == Substitute(table, done + Chars(order), s)
    decreases |order|
  {
    if order == "" {
      assert done + Chars(order) == done;
    } else {
      hide Substitute, ReplaceAll;
      var x := order[0];
      PassExtends(table, done, x, s);
      LaterPasses(table, done, order);
      PassesFrom(table, done + {x}, order[1..], s);
    }
  }

  lemma LaterPasses(table: Table, done: set<char>, order: string)
    requires done <= table.Keys && (forall c :: c in order ==> c in table)
    requires Independent(table, done, order) && order != ""
    ensures forall c :: c in order[1..] ==> c in table
    ensures Independent(table, done + {order[0]}, order[1..])
    ensures done + {order[0]} + Chars(order[1..]) == done + Chars(order)
  {
    assert order == [order[0]] + order[1..];
    assert forall c :: c in order[1..] ==> c in order;
  }

  /** Independent passes are one simultaneous substitution. */
  lemma PassesAreSimultaneous(table: Table, order: string, s: string)
    requires (forall c :: c in order ==> c in table) && Independent(table, {}, order)
    ensures Passes(table, order, s) == Substitute(table, Chars(order), s)
  {
    SubstituteNothing(table, s);
    PassesFrom(table, {}, order, s);
    assert {} + Chars(order) == Chars(order);
  }

  // ----- escapeHtml -----

  const HTML: Table := map['&' := "&amp;", '<' := "&lt;", '>' := "&gt;", '"' := "&quot;", '\'' := "&#39;"]
  const HTML_ORDER := "&<>\"'"

  function EscapeHtml(s: string): string {
    Passes(HTML, HTML_ORDER, s)
  }

  function EscapeOnce(s: string): string {
    Substitute(HTML, HTML.Keys, s)
  }

  /** Some order of all five passes. */
  ghost predicate HtmlOrder(order: string) {
    && Chars(order) == HTML.Keys
    && forall i, j :: 0 <= i < j < |order| ==> order[i] != order[j]
  }

  lemma OnlyAmpersandReenters(c: char, d: char)
    requires c in HTML && d in HTML
    ensures d in HTML[c] <==> d == '&'
  {
  }

  lemma AmpersandFirst(order: string, s: string)
    requires HtmlOrder(order) && order != "" && order[0] == '&'
    ensures forall c :: c in order ==> c in HTML
    ensures Passes(HTML, order, s) == EscapeOnce(s)
  {
    assert forall c :: c in order ==> c in Chars(order);
    forall i, j | 0 <= i < j < |order| ensures order[j] !in HTML[order[i]] {
      OnlyAmpersandReenters(order[i], order[j]);
    }
    assert Independent(HTML, {}, order);
    PassesAreSimultaneous(HTML, order, s);
  }

  lemma {:induction false} ReplaceGrows(s: string, c: char, rep: string)
    requires |rep| >= 2
    ensures |ReplaceAll(s, c, rep)| >= |s| + if c in s then 1 else 0
    ensures forall x :: x in s && x != c ==> x in ReplaceAll(s, c, rep)
  {
    if s != "" {
      ReplaceGrows(s[1..], c, rep);
      assert s == [s[0]] + s[1..];
    }
  }

  lemma {:induction false} PassesGrow(order: string, s: string)
    requires (forall c :: c in order ==> c in HTML) && '&' in s
    ensures |Passes(HTML, order, s)| >= |s| + if '&' in order then 1 else 0
    decreases |order|
  {
    if order != "" {
      var c := order[0];
      var t := ReplaceAll(s, c, HTML[c]);
      assert order == [c] + order[1..];
      ReplaceGrows(s, c, HTML[c]);
      OnlyAmpersandReenters(c, '&');
      if c == '&' {
        ReplaceKeepsAmpersand(s, HTML[c]);
      }
      PassesGrow(order[1..], t);
    }
  }

  lemma {:induction false} ReplaceKeepsAmpersand(s: string, rep: string)
    requires '&' in s && '&' in rep
    ensures '&' in ReplaceAll(s, '&', rep)
  {
    if s[0] != '&' {
      assert s == [s[0]] + s[1..];
      ReplaceKeepsAmpersand(s[1..], rep);
    }
  }

  lemma SingleChar(table: Table, done: set<char>, x: char)
    requires done <= table.Keys && x in done
    ensures ReplaceAll([x], x, table[x]) == table[x] == Substitute(table, done, [x])
  {
  }

  lemma LateAmpersand(order: string)
    requires HtmlOrder(order) && order != "" && order[0] != '&' && forall c :: c in order ==> c in HTML
    ensures Passes(HTML, order, [order[0]]) != EscapeOnce([order[0]])
  {
    hide ReplaceAll, Substitute;
    var x := order[0];
    assert '&' in Chars(order);
    assert order == [x] + order[1..];
    SingleChar(HTML, HTML.Keys, x);
    OnlyAmpersandReenters(x, '&');
    PassesGrow(order[1..], HTML[x]);
  }

  /** Whatever order the five passes run in, they escape every string correctly exactly when `&` goes first. */
  lemma OrderMatters(order: string)
    requires HtmlOrder(order)
    ensures order != "" && forall c :: c in order ==> c in HTML
    ensures (forall s :: Passes(HTML, order, s) == EscapeOnce(s)) <==> order[0] == '&'
  {
    assert '&' in Chars(order);
    assert forall c :: c in order ==> c in Chars(order);
    if order[0] == '&' {
      forall s ensures Passes(HTML, order, s) == EscapeOnce(s) {
        AmpersandFirst(order, s);
      }
    } else {
      LateAmpersand(order);
    }
  }

  lemma EscapeIsSimultaneous(s: string)
    ensures EscapeHtml(s) == EscapeOnce(s)
  {
    assert HTML_ORDER[0] == '&' && HTML_ORDER[1] == '<' && HTML_ORDER[2] == '>';
    assert HTML_ORDER[3] == '"' && HTML_ORDER[4] == '\'';
    assert Chars(HTML_ORDER) == HTML.Keys;
    AmpersandFirst(HTML_ORDER, s);
  }

  /** Read the five entities back; anything else stands for itself. */
  function Unescape(s: string): string
    decreases |s|
  {
    if s == "" then ""
    else if "&amp;" <= s then "&" + Unescape(s[5..])
    else if "&lt;" <= s then "<" + Unescape(s[4..])
    else if "&gt;" <= s then ">" + Unescape(s[4..])
    else if "&quot;" <= s then "\"" + Unescape(s[6..])
    else if "&#39;" <= s then "'" + Unescape(s[5..])
    else [s[0]] + Unescape(s[1..])
  }

  lemma UnescapeHead(c: char, rest: string)
    ensures c in HTML ==> Unescape(HTML[c] + rest) == [c] + Unescape(rest)
    ensures c !in HTML ==> Unescape([c] + rest) == [c] + Unescape(rest)
  {
    if c in HTML {
      var s := HTML[c] + rest;
      assert s[|HTML[c]|..] == rest;
      assert HTML[c] <= s;
      assert s[0] == '&' && s[1] == HTML[c][1] && s[2] == HTML[c][2];
    } else {
      assert ([c] + rest)[1..] == rest;
      assert ([c] + rest)[0] == c;
    }
  }

  /** Nothing is lost: the input can be read back from the escaped text. */
  lemma {:induction false} UnescapeEscape(s: string)
    ensures Unescape(EscapeHtml(s)) == s
  {
    EscapeIsSimultaneous(s);
    if s != "" {
      UnescapeEscape(s[1..]);
      EscapeIsSimultaneous(s[1..]);
      UnescapeHead(s[0], EscapeOnce(s[1..]));
    }
  }

  /** No raw angle bracket or quote is left. */
  lemma {:induction false} EscapedIsInert(s: string)
    ensures forall c :: c in EscapeHtml(s) ==> c == '&' || c !in HTML
  {
    EscapeIsSimultaneous(s);
    if s != "" {
      EscapedIsInert(s[1..]);
      EscapeIsSimultaneous(s[1..]);
      if s[0] in HTML {
        forall d | d in HTML[s[0]] ensures d == '&' || d !in HTML {
          if d in HTML {
            OnlyAmpersandReenters(s[0], d);
          }
        }
      }
    }
  }

  // ----- safeJsonForScript -----

  const JSON: Table := map['<' := "\\u003c", '>' := "\\u003e", '&' := "\\u0026"]

  /** The chain applied to the text that `JSON.stringify` returns. */
  function SafeJsonForScript(json: string): string {
    Passes(JSON, "<>&", json)
  }

  lemma SafeJsonIsSimultaneous(json: string)
    ensures SafeJsonForScript(json) == Substitute(JSON, JSON.Keys, json)
    ensures forall c :: c in SafeJsonForScript(json) ==> c !in JSON
  {
    var order := "<>&";
    assert order[0] == '<' && order[1] == '>' && order[2] == '&';
    assert Chars(order) == JSON.Keys;
    JsonPasses(order, json);
  }

  /** The three passes over the JSON text, in any order of the three, are one substitution that leaves no
      `<`, `>` or `&`. */
  lemma JsonPasses(order: string, s: string)
    requires Chars(order) == JSON.Keys && forall i, j :: 0 <= i < j < |order| ==> order[i] != order[j]
    ensures forall c :: c in order ==> c in JSON
    ensures Passes(JSON, order, s) == Substitute(JSON, JSON.Keys, s)
    ensures forall c :: c in Passes(JSON, order, s) ==> c !in JSON
  {
    assert forall c :: c in order ==> c in Chars(order);
    forall i, j | 0 <= i < j < |order| ensures order[j] !in JSON[order[i]] {
      assert order[i] in order && order[j] in order;
      JsonRepIsInert(order[i]);
    }
    assert Independent(JSON, {}, order);
    PassesAreSimultaneous(JSON, order, s);
    JsonInert(s);
  }

  lemma JsonRepIsInert(c: char)
    requires c in JSON
    ensures forall d :: d in JSON ==> d !in JSON[c]
  {
  }

  lemma {:induction false} JsonInert(s: string)
    ensures forall c :: c in Substitute(JSON, JSON.Keys, s) ==> c !in JSON
  {
    if s != "" {
      JsonInert(s[1..]);
    }
  }

  // ----- what a JSON parser reads -----

  /** What a parser sees of a JSON text: string values, as UTF-16 code units, and the characters outside strings. */
  datatype Token = Punct(c: char) | Str(units: seq<int>)

  function Units(c: char): seq<int> {
    if c as int < 0x10000 then [c as int]
    else [0xD800 + (c as int - 0x10000) / 0x400, 0xDC00 + (c as int - 0x10000) % 0x400]
  }

  /** The short escapes. */
  function Short(c: char): Option<int> {
    match c
    case '"' => Some(34)
    case '\\' => Some(92)
    case '/' => Some(47)
    case 'b' => Some(8)
    case 'f' => Some(12)
    case 'n' => Some(10)
    case 'r' => Some(13)
    case 't' => Some(9)
    case _ => None
  }

  function Hex(c: char): Option<int> {
    if '0' <= c <= '9' then Some(c as int - '0' as int)
    else if 'a' <= c <= 'f' then Some(c as int - 'a' as int + 10)
    else if 'A' <= c <= 'F' then Some(c as int - 'A' as int + 10)
    else None
  }

  function Hex4(s: string): Option<int>
    requires |s| == 4
  {
    var a, b, c, d := Hex(s[0]), Hex(s[1]), Hex(s[2]), Hex(s[3]);
    if a.Some? && b.Some? && c.Some? && d.Some?
    then Some(((a.value * 16 + b.value) * 16 + c.value) * 16 + d.value) else None
  }

  /** The code units of the next character or escape of a string, and how much text it takes. */
  function Next(s: string): (r: Option<(seq<int>, nat)>)
    ensures r.Some? ==> 0 < r.value.1 <= |s|
  {
    if s == "" || s[0] == '"' || s[0] as int < 0x20 then None
    else if s[0] != '\\' then Some((Units(s[0]), 1))
    else if |s| < 2 then None
    else if s[1] == 'u' then
      if |s| >= 6 && Hex4(s[2..6]).Some? then Some(([Hex4(s[2..6]).value], 6)) else None
    else if Short(s[1]).Some? then Some(([Short(s[1]).value], 2))
    else None
  }

  /** Reads up to the closing quote: the value and the text after it. */
  function ReadString(s: string): (r: Option<(seq<int>, string)>)
    ensures r.Some? ==> |r.value.1| < |s|
    decreases |s|
  {
    if s != "" && s[0] == '"' then Some(([], s[1..]))
    else
      var n := Next(s);
      if n.None? then None
      else
        var r := ReadString(s[n.value.1..]);
        if r.None? then None else Some((n.value.0 + r.value.0, r.value.1))
  }

  function Lex(s: string): Option<seq<Token>>
    decreases |s|
  {
    if s == "" then Some([])
    else if s[0] == '"' then
      var r := ReadString(s[1..]);
      if r.None? then None
      else
        var rest := Lex(r.value.1);
        if rest.None? then None else Some([Str(r.value.0)] + rest.value)
    else
      var rest := Lex(s[1..]);
      if rest.None? then None else Some([Punct(s[0])] + rest.value)
  }

  function Safe(s: string): string {
    Substitute(JSON, JSON.Keys, s)
  }

  lemma {:induction false} SafePlain(p: string, rest: string)
    requires forall c :: c in p ==> c !in JSON
    ensures Safe(p + rest) == p + Safe(rest)
  {
    if p == "" {
      assert p + rest == rest;
    } else {
      assert (p + rest)[1..] == p[1..] + rest;
      SafePlain(p[1..], rest);
    }
  }

  lemma SafeReplaced(s: string)
    requires s != "" && s[0] in JSON
    ensures Safe(s) == JSON[s[0]] + Safe(s[1..])
  {
  }

  /** The six characters that stand for `c` read as `c`. */
  lemma ReplacementReads(c: char, rest: string)
    requires c in JSON
    ensures Next(JSON[c] + rest) == Some((Units(c), 6)) && (JSON[c] + rest)[6..] == rest
  {
    var s := JSON[c] + rest;
    assert s[0] == '\\' && s[1] == 'u' && s[2..6] == JSON[c][2..6];
    assert |JSON[c]| == 6 && JSON[c][2] == '0' && JSON[c][3] == '0';
  }

  /** Whatever `Next` takes as it stands contains none of the three characters. */
  lemma NextIsPlain(s: string)
    requires Next(s).Some? && s[0] !in JSON
    ensures forall c :: c in s[..Next(s).value.1] ==> c !in JSON
  {
    var n := Next(s).value.1;
    if s[0] == '\\' && s[1] == 'u' {
      var h := s[2..6];
      assert Hex(h[0]).Some? && Hex(h[1]).Some? && Hex(h[2]).Some? && Hex(h[3]).Some?;
      assert s[..6] == [s[0], s[1], h[0], h[1], h[2], h[3]];
    } else if s[0] == '\\' {
      assert s[..2] == [s[0], s[1]];
    } else {
      assert s[..1] == [s[0]];
    }
  }

  /** `Next` looks no further than what it takes. */
  lemma NextIsLocal(s: string, rest: string)
    requires Next(s).Some?
    ensures Next(s[..Next(s).value.1] + rest) == Next(s)
  {
    var n := Next(s).value.1;
    var t := s[..n] + rest;
    assert t[0] == s[0];
    if s[0] == '\\' {
      assert t[1] == s[1];
      if s[1] == 'u' {
        assert t[2..6] == s[2..6];
      }
    }
  }

  /** One character or escape, replaced or not, reads the same. */
  lemma NextIsSafe(s: string)
    requires Next(s).Some?
    ensures var n := Next(s).value.1;
      Next(Safe(s)).Some? && Next(Safe(s)).value.0 == Next(s).value.0
      && Safe(s)[Next(Safe(s)).value.1..] == Safe(s[n..])
  {
    hide Next, Substitute;
    var n := Next(s).value.1;
    NextStarts(s);
    if s[0] in JSON {
      SafeReplaced(s);
      ReplacementReads(s[0], Safe(s[1..]));
    } else {
      NextIsPlain(s);
      NextIsLocal(s, Safe(s[n..]));
      assert s == s[..n] + s[n..];
      SafePlain(s[..n], s[n..]);
    }
  }

  lemma NextStarts(s: string)
    requires Next(s).Some?
    ensures s != "" && s[0] != '"' && (s[0] in JSON ==> Next(s).value == (Units(s[0]), 1))
  {
  }

  lemma SafeStart(s: string)
    ensures s != "" && s[0] !in JSON ==> Safe(s) == [s[0]] + Safe(s[1..])
    ensures s != "" && s[0] in JSON ==> Safe(s) != "" && Safe(s)[0] == '\\'
    ensures s == "" ==> Safe(s) == ""
  {
  }

  lemma {:induction false} StringIsSafe(s: string)
    requires ReadString(s).Some?
    ensures ReadString(Safe(s)) == Some((ReadString(s).value.0, Safe(ReadString(s).value.1)))
    decreases |s|
  {
    hide Next, Safe;
    if s != "" && s[0] == '"' {
      SafeStart(s);
    } else {
      var n := Next(s).value.1;
      NextStarts(s);
      SafeStart(s);
      StringIsSafe(s[n..]);
      NextIsSafe(s);
    }
  }

  /** No raw `<`, `>` or `&` outside the strings, as in every JSON text. */
  ghost predicate PlainOutside(tokens: seq<Token>) {
    forall t :: t in tokens && t.Punct? ==> t.c !in JSON
  }

  lemma {:induction false} LexIsSafe(s: string)
    requires Lex(s).Some? && PlainOutside(Lex(s).value)
    ensures Lex(Safe(s)) == Lex(s)
    decreases |s|
  {
    hide ReadString, Safe;
    SafeStart(s);
    if s != "" {
      if s[0] == '"' {
        StringIsSafe(s[1..]);
        LexIsSafe(ReadString(s[1..]).value.1);
      } else {
        assert Punct(s[0]) in Lex(s).value;
        LexIsSafe(s[1..]);
      }
    }
  }

  lemma {:induction false} StringLeavesSuffix(s: string)
    requires ReadString(s).Some?
    ensures forall c :: c in ReadString(s).value.1 ==> c in s
    decreases |s|
  {
    hide Next;
    if s != "" && s[0] == '"' {
    } else {
      StringLeavesSuffix(s[Next(s).value.1..]);
    }
  }

  lemma {:induction false} PunctIsText(s: string)
    requires Lex(s).Some?
    ensures forall t :: t in Lex(s).value && t.Punct? ==> t.c in s
    decreases |s|
  {
    hide ReadString;
    if s != "" {
      if s[0] == '"' {
        StringLeavesSuffix(s[1..]);
        PunctIsText(ReadString(s[1..]).value.1);
      } else {
        PunctIsText(s[1..]);
      }
    }
  }

  /** Of a text that lexes as JSON, a parser reads the same before and after the replacements if and only if the
      three characters occur in its strings only. */
  lemma SafeJsonReadsTheSame(json: string)
    requires Lex(json).Some?
    ensures Lex(SafeJsonForScript(json)) == Lex(json) <==> PlainOutside(Lex(json).value)
  {
    hide Lex, Passes, Substitute;
    SafeJsonIsSimultaneous(json);
    if PlainOutside(Lex(json).value) {
      LexIsSafe(json);
    }
    if Lex(Safe(json)).Some? {
      PunctIsText(Safe(json));
      assert PlainOutside(Lex(Safe(json)).value);
    }
  }
}
