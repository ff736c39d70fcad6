/** The regular expression matcher of user/grep.c against the language its patterns
    denote.  A string is the characters before the terminating NUL. */
module Grep {

  /** One character, or any number of one character; '.' stands for every one. */
  datatype Item = One(c: char) | Star(c: char)

  /** A pattern is a sequence of items, and may ask for the end of the text. */
  datatype Pattern = Pattern(items: seq<Item>, atEnd: bool)

  // ---- what a pattern means -----------------------------------------------

  predicate Fits(c: char, x: char) {
    c == '.' || c == x
  }

  predicate AllFit(c: char, w: seq<char>) {
    forall i :: 0 <= i < |w| ==> Fits(c, w[i])
  }

  predicate Word(item: Item, w: seq<char>) {
    match item
    case One(c) => |w| == 1 && Fits(c, w[0])
    case Star(c) => AllFit(c, w)
  }

  function Concat(parts: seq<seq<char>>): seq<char> {
    if parts == [] then [] else parts[0] + Concat(parts[1..])
  }

  ghost predicate Splits(items: seq<Item>, w: seq<char>, parts: seq<seq<char>>) {
    && |parts| == |items| && Concat(parts) == w
    && forall i :: 0 <= i < |items| ==> Word(items[i], parts[i])
  }

  /** The language of a sequence of items: one word of each, in order. */
  ghost predicate InLanguage(items: seq<Item>, w: seq<char>) {
    exists parts :: Splits(items, w, parts)
  }

  /** A prefix of k characters is in the pattern's language. */
  ghost predicate MatchesPrefix(p: Pattern, text: seq<char>, k: nat) {
    k <= |text| && InLanguage(p.items, text[..k]) && (p.atEnd ==> k == |text|)
  }

  ghost predicate MatchesAt(p: Pattern, text: seq<char>) {
    exists k: nat :: MatchesPrefix(p, text, k)
  }

  /** How a pattern is written: a character before * is starred, whatever it is; a
      last $ is the end of the text; every other character is itself. */
  function Read(re: seq<char>): Pattern {
    if re == [] then Pattern([], false)
    else if |re| >= 2 && re[1] == '*' then var p := Read(re[2..]); p.(items := [Star(re[0])] + p.items)
    else if re == ['$'] then Pattern([], true)
    else var p := Read(re[1..]); p.(items := [One(re[0])] + p.items)
  }

  /** A leading ^ ties the match to the start of the text. */
  ghost predicate Matches(re: seq<char>, text: seq<char>) {
    if re != [] && re[0] == '^' then MatchesAt(Read(re[1..]), text)
    else exists i :: 0 <= i <= |text| && MatchesAt(Read(re), text[i..])
  }

  // ---- how the language unfolds -------------------------------------------

  lemma LanguageNil(w: seq<char>)
    ensures InLanguage([], w) <==> w == []
  {
    if w == [] {
      assert Splits([], w, []);
    }
  }

  lemma LanguageCons(item: Item, rest: seq<Item>, w: seq<char>, k: nat)
    requires k <= |w| && Word(item, w[..k]) && InLanguage(rest, w[k..])
    ensures InLanguage([item] + rest, w)
  {
    var parts :| Splits(rest, w[k..], parts);
    var all := [w[..k]] + parts;
    assert all[1..] == parts;
    assert Splits([item] + rest, w, all);
  }

  lemma LanguageSplit(item: Item, rest: seq<Item>, w: seq<char>) returns (k: nat)
    requires InLanguage([item] + rest, w)
    ensures k <= |w| && Word(item, w[..k]) && InLanguage(rest, w[k..])
  {
    var items := [item] + rest;
    var parts :| Splits(items, w, parts);
    k := |parts[0]|;
    assert Word(items[0], parts[0]);
    forall i | 0 <= i < |rest| ensures Word(rest[i], parts[1..][i]) {
      assert Word(items[i + 1], parts[i + 1]);
    }
    assert Splits(rest, w[k..], parts[1..]);
  }

  lemma AtNil(atEnd: bool, text: seq<char>)
    ensures MatchesAt(Pattern([], atEnd), text) <==> (atEnd ==> text == [])
  {
    var p := Pattern([], atEnd);
    if atEnd ==> text == [] {
      LanguageNil(text[..0]);
      assert MatchesPrefix(p, text, 0);
    }
    if k: nat :| MatchesPrefix(p, text, k) {
      LanguageNil(text[..k]);
    }
  }

  lemma AtOne(c: char, rest: Pattern, text: seq<char>)
    ensures MatchesAt(rest.(items := [One(c)] + rest.items), text) <==>
            text != [] && Fits(c, text[0]) && MatchesAt(rest, text[1..])
  {
    var p := rest.(items := [One(c)] + rest.items);
    if k: nat :| MatchesPrefix(p, text, k) {
      var j := LanguageSplit(One(c), rest.items, text[..k]);
      assert text[..k][1..] == text[1..][..k - 1];
      assert MatchesPrefix(rest, text[1..], k - 1);
    }
    if text != [] && Fits(c, text[0]) && MatchesAt(rest, text[1..]) {
      var k: nat :| MatchesPrefix(rest, text[1..], k);
      assert text[..k + 1][1..] == text[1..][..k];
      LanguageCons(One(c), rest.items, text[..k + 1], 1);
      assert MatchesPrefix(p, text, k + 1);
    }
  }

  /** j characters of the star, and the rest after them. */
  ghost predicate StarAt(c: char, rest: Pattern, text: seq<char>, j: nat) {
    j <= |text| && AllFit(c, text[..j]) && MatchesAt(rest, text[j..])
  }

  ghost predicate SomeStar(c: char, rest: Pattern, text: seq<char>) {
    exists j: nat :: StarAt(c, rest, text, j)
  }

  lemma AtStar(c: char, rest: Pattern, text: seq<char>)
    ensures MatchesAt(rest.(items := [Star(c)] + rest.items), text) <==> SomeStar(c, rest, text)
  {
    var p := rest.(items := [Star(c)] + rest.items);
    if k: nat :| MatchesPrefix(p, text, k) {
      var j := LanguageSplit(Star(c), rest.items, text[..k]);
      assert text[..k][j..] == text[j..][..k - j];
      assert text[..k][..j] == text[..j];
      assert MatchesPrefix(rest, text[j..], k - j);
      assert StarAt(c, rest, text, j);
    }
    if j: nat :| StarAt(c, rest, text, j) {
      var k: nat :| MatchesPrefix(rest, text[j..], k);
      assert text[..j + k][j..] == text[j..][..k];
      assert text[..j + k][..j] == text[..j];
      LanguageCons(Star(c), rest.items, text[..j + k], j);
      assert MatchesPrefix(p, text, j + k);
    }
  }

  /** Where no character is starred, a pattern's characters stand for themselves: a
      leading *, a ^ and a $ that is not last among them. */
  lemma {:induction false} ReadLiteral(re: seq<char>)
    requires forall i :: 1 <= i < |re| ==> re[i] != '*'
    ensures var n := if re != [] && re[|re| - 1] == '$' then |re| - 1 else |re|;
            && |Read(re).items| == n && (Read(re).atEnd <==> n < |re|)
            && forall i :: 0 <= i < n ==> Read(re).items[i] == One(re[i])
  {
    if re != [] && re != ['$'] {
      ReadLiteral(re[1..]);
      assert forall i :: 1 <= i < |re| ==> re[i] == re[1..][i - 1];
    }
  }

  // ---- the matcher --------------------------------------------------------

  /** match() */
  method Match(re: seq<char>, text: seq<char>) returns (r: bool)
    ensures r <==> Matches(re, text)
  {
    if re != [] && re[0] == '^' {
      r := MatchHere(re[1..], text);
      return;
    }
    var t := text;
    ghost var i := 0;
    while true
      invariant 0 <= i <= |text| && t == text[i..]
      invariant forall j :: 0 <= j < i ==> !MatchesAt(Read(re), text[j..])
      decreases |t|
    {
      var here := MatchHere(re, t);
      if here {
        return true;
      }
      if t == [] {
        return false;
      }
      t := t[1..];
      i := i + 1;
    }
  }

  /** matchhere() */
  method MatchHere(re: seq<char>, text: seq<char>) returns (r: bool)
    ensures r <==> MatchesAt(Read(re), text)
    decreases |re|, 0
  {
    if re == [] {
      AtNil(false, text);
      return true;
    }
    if |re| >= 2 && re[1] == '*' {
      AtStar(re[0], Read(re[2..]), text);
      r := MatchStar(re[0], re[2..], text);
      return;
    }
    if re[0] == '$' && |re| == 1 {
      AtNil(true, text);
      return text == [];
    }
    AtOne(re[0], Read(re[1..]), text);
    if text != [] && (re[0] == '.' || re[0] == text[0]) {
      r := MatchHere(re[1..], text[1..]);
      return;
    }
    return false;
  }

  /** matchstar() */
  method MatchStar(c: char, re: seq<char>, text: seq<char>) returns (r: bool)
    ensures r <==> SomeStar(c, Read(re), text)
    decreases |re|, 1
  {
    var t := text;
    ghost var i := 0;
    while true
      invariant 0 <= i <= |text| && t == text[i..] && AllFit(c, text[..i])
      invariant forall j: nat :: j < i ==> !StarAt(c, Read(re), text, j)
      decreases |t|
    {
      var here := MatchHere(re, t);
      if here {
        assert StarAt(c, Read(re), text, i);
        return true;
      }
      if t == [] {
        return false;
      }
      var x := t[0];
      t := t[1..];
      assert text[..i + 1] == text[..i] + [x];
      if !(x == c || c == '.') {
        assert !Fits(c, text[i]);
        assert forall j: nat :: i < j <= |text| ==> text[..j][i] == text[i];
        return false;
      }
      i := i + 1;
    }
  }
}
