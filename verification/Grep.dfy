/**
 The regular expression matcher of grep: characters, '.', c*, a leading '^' and a trailing '$'.
 */
module Grep {

  /** One element of an expression; the character '.' stands for any character. */
  datatype Item = One(c: char) | Star(c: char)

  /** An expression without '^': its elements, and whether it ends in an anchoring '$'. */
  datatype Pattern = Pattern(items: seq<Item>, dollar: bool)

  function Parse(re: string): Pattern {
    if re == [] then Pattern([], false)
    else if |re| > 1 && re[1] == '*' then
      var rest := Parse(re[2..]);
      Pattern([Star(re[0])] + rest.items, rest.dollar)
    else if re == "$" then Pattern([], true)
    else
      var rest := Parse(re[1..]);
      Pattern([One(re[0])] + rest.items, rest.dollar)
  }

  // ---- the language of an expression ----

  predicate Fits(c: char, x: char) {
    c == '.' || c == x
  }

  predicate AllFit(c: char, w: string) {
    forall i :: 0 <= i < |w| ==> Fits(c, w[i])
  }

  /** A part of a word stands for an element. */
  predicate StandsFor(part: string, item: Item) {
    match item
    case One(c) => |part| == 1 && Fits(c, part[0])
    case Star(c) => AllFit(c, part)
  }

  function Concat(parts: seq<string>): string {
    if parts == [] then [] else parts[0] + Concat(parts[1..])
  }

  ghost predicate Splits(w: string, items: seq<Item>, parts: seq<string>)
  {
    |parts| == |items| && Concat(parts) == w && forall i :: 0 <= i < |items| ==> StandsFor(parts[i], items[i])
  }

  /** A word is in the language if it falls into one part for each element. */
  ghost predicate InLanguage(w: string, items: seq<Item>)
  {
    exists parts :: Splits(w, items, parts)
  }

  /** Some prefix of the text is in the language, the whole text under '$'. */
  ghost predicate Prefix(p: Pattern, text: string)
  {
    exists k :: 0 <= k <= |text| && InLanguage(text[..k], p.items) && (p.dollar ==> k == |text|)
  }

  /** What match() decides: the text itself under '^', and otherwise some suffix of it, has such a prefix. */
  ghost predicate Matches(re: string, text: string)
  {
    if re != [] && re[0] == '^' then Prefix(Parse(re[1..]), text)
    else exists s :: 0 <= s <= |text| && Prefix(Parse(re), text[s..])
  }

  // ---- taking the language apart ----

  lemma NoItems(w: string)
    ensures InLanguage(w, []) <==> w == []
  {
    if w == [] {
      assert Splits(w, [], []);
    }
  }

  /** The first part and the rest. */
  lemma FirstPart(w: string, item: Item, items: seq<Item>)
    ensures InLanguage(w, [item] + items) <==>
      exists j :: 0 <= j <= |w| && StandsFor(w[..j], item) && InLanguage(w[j..], items)
  {
    if InLanguage(w, [item] + items) {
      var parts :| Splits(w, [item] + items, parts);
      var j := |parts[0]|;
      assert w[..j] == parts[0] && w[j..] == Concat(parts[1..]);
      assert StandsFor(parts[0], ([item] + items)[0]);
      assert Splits(w[j..], items, parts[1..]) by {
        forall i | 0 <= i < |items| ensures StandsFor(parts[1..][i], items[i]) {
          assert StandsFor(parts[i + 1], ([item] + items)[i + 1]);
        }
      }
    }
    if j :| 0 <= j <= |w| && StandsFor(w[..j], item) && InLanguage(w[j..], items) {
      var rest :| Splits(w[j..], items, rest);
      var parts := [w[..j]] + rest;
      assert parts[1..] == rest;
      assert w == w[..j] + w[j..];
      assert Splits(w, [item] + items, parts);
    }
  }

  lemma PrefixEmpty(text: string)
    ensures Prefix(Pattern([], false), text)
    ensures Prefix(Pattern([], true), text) <==> text == []
  {
    NoItems(text[..0]);
    NoItems(text[..|text|]);
    assert InLanguage(text[..0], []);
    assert text[..|text|] == text;
  }

  lemma PrefixOne(c: char, p: Pattern, text: string)
    ensures Prefix(Pattern([One(c)] + p.items, p.dollar), text) <==>
      text != [] && Fits(c, text[0]) && Prefix(p, text[1..])
  {
    var q := Pattern([One(c)] + p.items, p.dollar);
    if Prefix(q, text) {
      var k :| 0 <= k <= |text| && InLanguage(text[..k], q.items) && (q.dollar ==> k == |text|);
      FirstPart(text[..k], One(c), p.items);
      assert text[..k][1..] == text[1..][..k - 1];
      assert InLanguage(text[1..][..k - 1], p.items);
    }
    if text != [] && Fits(c, text[0]) && Prefix(p, text[1..]) {
      var k :| 0 <= k <= |text[1..]| && InLanguage(text[1..][..k], p.items) && (p.dollar ==> k == |text[1..]|);
      FirstPart(text[..k + 1], One(c), p.items);
      assert text[..k + 1][1..] == text[1..][..k];
      assert StandsFor(text[..k + 1][..1], One(c));
      assert InLanguage(text[..k + 1], q.items);
    }
  }

  lemma PrefixStar(c: char, p: Pattern, text: string)
    ensures Prefix(Pattern([Star(c)] + p.items, p.dollar), text) <==>
      exists j :: 0 <= j <= |text| && AllFit(c, text[..j]) && Prefix(p, text[j..])
  {
    var q := Pattern([Star(c)] + p.items, p.dollar);
    if Prefix(q, text) {
      var k :| 0 <= k <= |text| && InLanguage(text[..k], q.items) && (q.dollar ==> k == |text|);
      FirstPart(text[..k], Star(c), p.items);
      var j :| 0 <= j <= k && StandsFor(text[..k][..j], Star(c)) && InLanguage(text[..k][j..], p.items);
      assert text[..k][..j] == text[..j] && text[..k][j..] == text[j..][..k - j];
      assert AllFit(c, text[..j]) && Prefix(p, text[j..]);
    }
    if j :| 0 <= j <= |text| && AllFit(c, text[..j]) && Prefix(p, text[j..]) {
      var k :| 0 <= k <= |text[j..]| && InLanguage(text[j..][..k], p.items) && (p.dollar ==> k == |text[j..]|);
      FirstPart(text[..j + k], Star(c), p.items);
      assert text[..j + k][j..] == text[j..][..k] && text[..j + k][..j] == text[..j];
      assert InLanguage(text[..j + k], q.items);
    }
  }

  // ---- the matcher ----

  /** matchhere(): whether the expression matches at the beginning of the text. */
  method MatchHere(re: string, text: string) returns (r: bool)
    ensures r <==> Prefix(Parse(re), text)
    decreases |re|, 0
  {
    hide Prefix;
    PrefixEmpty(text);
    if re == [] {
      return true;
    }
    if |re| > 1 && re[1] == '*' {
      r := MatchStar(re[0], re[2..], text);
      return;
    }
    if re[0] == '$' && |re| == 1 {
      return text == [];
    }
    PrefixOne(re[0], Parse(re[1..]), text);
    if text != [] && (re[0] == '.' || re[0] == text[0]) {
      r := MatchHere(re[1..], text[1..]);
      return;
    }
    return false;
  }

  /** matchstar(): whether c* and the rest of the expression match at the beginning of the text. */
  method MatchStar(c: char, re: string, text: string) returns (r: bool)
    ensures r <==> Prefix(Pattern([Star(c)] + Parse(re).items, Parse(re).dollar), text)
    decreases |re|, 1
  {
    hide Prefix;
    PrefixStar(c, Parse(re), text);
    var t := 0;
    while true
      invariant 0 <= t <= |text| && AllFit(c, text[..t])
      invariant forall j :: 0 <= j < t ==> !Prefix(Parse(re), text[j..])
      decreases |text| - t
    {
      r := MatchHere(re, text[t..]);
      if r {
        return;
      }
      if !(t < |text| && (text[t] == c || c == '.')) {
        break;
      }
      t := t + 1;
    }
    forall j | 0 <= j <= |text| && AllFit(c, text[..j]) ensures !Prefix(Parse(re), text[j..]) {
      assert j > t ==> text[..j][t] == text[t];
    }
  }

  /** match(): exactly whether the expression matches somewhere in the text, at its start under '^'. */
  method Match(re: string, text: string) returns (r: bool)
    ensures r <==> Matches(re, text)
  {
    hide Prefix;
    if re != [] && re[0] == '^' {
      r := MatchHere(re[1..], text);
      return;
    }
    var t := 0;
    while true
      invariant 0 <= t <= |text|
      invariant forall s :: 0 <= s < t ==> !Prefix(Parse(re), text[s..])
      decreases |text| - t
    {
      r := MatchHere(re, text[t..]);
      if r {
        return;
      }
      if t == |text| {
        return;
      }
      t := t + 1;
    }
  }
}
