/**
 The patterns of `invalidate` (app/infra/kline_cache.py): documented as globs, compiled to regular expressions by
 replacing `*` and `?`, and searched for anywhere in a params key.
 */
module Glob {
  import opened Wrappers

  datatype Token = Lit(c: char) | Any | Star

  /** The glob reading: the whole text fits the pattern. */
  predicate Matches(p: seq<Token>, s: string)
    decreases |p| + |s|
  {
    if p == [] then s == ""
    else if p[0].Star? then Matches(p[1..], s) || (s != "" && Matches(p, s[1..]))
    else s != "" && (p[0].Any? || p[0].c == s[0]) && Matches(p[1..], s[1..])
  }

  predicate FitsAt(p: seq<Token>, s: string, i: nat, j: nat)
    requires i <= j <= |s|
  {
    Matches(p, s[i..j])
  }

  /** The regular expression's reading: some part of the text fits the pattern. */
  predicate Search(p: seq<Token>, s: string) {
    exists i, j | 0 <= i <= j <= |s| :: FitsAt(p, s, i, j)
  }

  /** A character of a glob. */
  function GlobToken(c: char): Token {
    if c == '*' then Star else if c == '?' then Any else Lit(c)
  }

  /** What the same character becomes in the regular expression, in which a dot fits every character. */
  function RegexToken(c: char): Token {
    if c == '.' then Any else GlobToken(c)
  }

  function GlobOf(pattern: string): (p: seq<Token>)
    ensures |p| == |pattern| && forall i :: 0 <= i < |p| ==> p[i] == GlobToken(pattern[i])
  {
    if pattern == "" then [] else [GlobToken(pattern[0])] + GlobOf(pattern[1..])
  }

  function RegexOf(pattern: string): (p: seq<Token>)
    ensures |p| == |pattern| && forall i :: 0 <= i < |p| ==> p[i] == RegexToken(pattern[i])
  {
    if pattern == "" then [] else [RegexToken(pattern[0])] + RegexOf(pattern[1..])
  }

  /** Free of the characters that mean something else to a regular expression. */
  predicate Plain(pattern: string) {
    forall c :: c in pattern ==> c !in "\\^$+()[]{}|"
  }

  /** The test `invalidate` compiles a pattern to; `engine` is what the library makes of one that is not plain. */
  function Compiled(pattern: string, engine: Option<string -> bool>): Option<string -> bool> {
    if Plain(pattern) then Some(key => Search(RegexOf(pattern), key)) else engine
  }

  // ------------------------------------------------------------------------
  // When the two readings agree
  // ------------------------------------------------------------------------

  predicate AllAny(p: seq<Token>) {
    forall t :: t in p ==> t.Any?
  }

  /** The pattern starts with a star, up to question marks before it. */
  predicate HeadOpen(p: seq<Token>) {
    p != [] && (p[0].Star? || (p[0].Any? && HeadOpen(p[1..])))
  }

  /** The pattern ends with a star, up to question marks after it. */
  predicate TailOpen(p: seq<Token>) {
    p != [] && (TailOpen(p[1..]) || (p[0].Star? && AllAny(p[1..])))
  }

  lemma {:induction false} AllAnyCounts(p: seq<Token>, s: string)
    requires AllAny(p)
    ensures Matches(p, s) <==> |s| == |p|
  {
    if p != [] {
      assert p[0] in p;
      if s != "" { AllAnyCounts(p[1..], s[1..]); }
    }
  }

  lemma {:induction false} StarThenAny(p: seq<Token>, s: string)
    requires p != [] && p[0].Star? && AllAny(p[1..])
    ensures Matches(p, s) <==> |s| >= |p| - 1
  {
    AllAnyCounts(p[1..], s);
    if s != "" { StarThenAny(p, s[1..]); }
  }

  lemma {:induction false} OneMoreInFront(p: seq<Token>, s: string, c: char)
    requires HeadOpen(p) && Matches(p, s)
    ensures Matches(p, [c] + s)
  {
    assert ([c] + s)[1..] == s;
    if !p[0].Star? {
      assert s == [s[0]] + s[1..];
      OneMoreInFront(p[1..], s[1..], s[0]);
    }
  }

  lemma {:induction false} OneMoreBehind(p: seq<Token>, s: string, c: char)
    requires TailOpen(p) && Matches(p, s)
    ensures Matches(p, s + [c])
    decreases |p| + |s|
  {
    if s != "" { assert (s + [c])[1..] == s[1..] + [c]; }
    if p[0].Star? && AllAny(p[1..]) {
      StarThenAny(p, s);
      StarThenAny(p, s + [c]);
    } else if p[0].Star? && Matches(p[1..], s) {
      OneMoreBehind(p[1..], s, c);
    } else if p[0].Star? {
      OneMoreBehind(p, s[1..], c);
    } else {
      OneMoreBehind(p[1..], s[1..], c);
    }
  }

  lemma {:induction false} MoreInFront(p: seq<Token>, s: string, x: string)
    requires HeadOpen(p) && Matches(p, s)
    ensures Matches(p, x + s)
  {
    if x == "" {
      assert x + s == s;
    } else {
      MoreInFront(p, s, x[1..]);
      OneMoreInFront(p, x[1..] + s, x[0]);
      assert [x[0]] + (x[1..] + s) == x + s;
    }
  }

  lemma {:induction false} MoreBehind(p: seq<Token>, s: string, y: string)
    requires TailOpen(p) && Matches(p, s)
    ensures Matches(p, s + y)
  {
    if y == "" {
      assert s + y == s;
    } else {
      var n := |y| - 1;
      MoreBehind(p, s, y[..n]);
      OneMoreBehind(p, s + y[..n], y[n]);
      assert s + y[..n] + [y[n]] == s + y;
    }
  }

  lemma WholeIsPart(p: seq<Token>, s: string)
    requires Matches(p, s)
    ensures Search(p, s)
  {
    assert s[0..|s|] == s;
    assert FitsAt(p, s, 0, |s|);
  }

  lemma OpenEndsAgree(p: seq<Token>, s: string)
    requires HeadOpen(p) && TailOpen(p)
    ensures Search(p, s) <==> Matches(p, s)
  {
    if Search(p, s) {
      var i, j :| 0 <= i <= j <= |s| && FitsAt(p, s, i, j);
      MoreBehind(p, s[i..j], s[j..]);
      MoreInFront(p, s[i..j] + s[j..], s[..i]);
      assert s[..i] + (s[i..j] + s[j..]) == s;
    }
    if Matches(p, s) { WholeIsPart(p, s); }
  }

  // ------------------------------------------------------------------------
  // A text on which they differ
  // ------------------------------------------------------------------------

  /** The shortest text of the pattern, with `d` for every question mark. */
  function Instance(p: seq<Token>, d: char): string {
    if p == [] then ""
    else if p[0].Star? then Instance(p[1..], d)
    else [if p[0].Any? then d else p[0].c] + Instance(p[1..], d)
  }

  lemma {:induction false} InstanceMatches(p: seq<Token>, d: char)
    ensures Matches(p, Instance(p, d))
  {
    if p != [] {
      InstanceMatches(p[1..], d);
      if !p[0].Star? { assert Instance(p, d)[1..] == Instance(p[1..], d); }
    }
  }

  function FirstLit(p: seq<Token>): char {
    if p == [] then 'a' else if p[0].Lit? then p[0].c else FirstLit(p[1..])
  }

  function LastLit(p: seq<Token>): char {
    if p == [] then 'a' else if AllAny(p[1..]) && p[0].Lit? then p[0].c else LastLit(p[1..])
  }

  /** The tokens after the last literal, of a pattern whose end is not open. */
  function TailLength(p: seq<Token>): nat {
    if p == [] then 0 else if AllAny(p[1..]) then |p| - 1 else TailLength(p[1..])
  }

  /** With the head closed, the first literal has its fixed place. */
  lemma {:induction false} ClosedHead(p: seq<Token>, d: char)
    requires !HeadOpen(p) && !AllAny(p) && d != FirstLit(p)
    ensures !Matches(p, [d] + Instance(p, d))
  {
    var s := [d] + Instance(p, d);
    if p[0].Any? {
      assert !AllAny(p[1..]);
      ClosedHead(p[1..], d);
      assert s[1..] == [d] + Instance(p[1..], d);
    }
  }

  /** With the end closed, the last literal has its fixed place, counted from the end. */
  lemma {:induction false} ClosedTail(p: seq<Token>, s: string)
    requires !TailOpen(p) && !AllAny(p) && Matches(p, s)
    ensures |s| > TailLength(p) && s[|s| - 1 - TailLength(p)] == LastLit(p)
    decreases |p| + |s|
  {
    if AllAny(p[1..]) {
      AllAnyCounts(p[1..], s[1..]);
    } else if p[0].Star? && Matches(p[1..], s) {
      ClosedTail(p[1..], s);
    } else if p[0].Star? {
      ClosedTail(p, s[1..]);
    } else {
      ClosedTail(p[1..], s[1..]);
    }
  }

  lemma {:induction false} AnyInstance(p: seq<Token>, d: char)
    requires AllAny(p)
    ensures |Instance(p, d)| == |p| && forall i :: 0 <= i < |p| ==> Instance(p, d)[i] == d
  {
    if p != [] { AnyInstance(p[1..], d); }
  }

  lemma {:induction false} InstanceTail(p: seq<Token>, d: char)
    requires !TailOpen(p) && !AllAny(p)
    ensures var t, k := Instance(p, d), TailLength(p);
            |t| > k && forall i :: |t| - k <= i < |t| ==> t[i] == d
  {
    if AllAny(p[1..]) {
      AnyInstance(p[1..], d);
    } else {
      InstanceTail(p[1..], d);
    }
  }

  lemma ExtraBehind(p: seq<Token>, d: char)
    requires !TailOpen(p) && !AllAny(p) && d != LastLit(p)
    ensures !Matches(p, Instance(p, d) + [d])
  {
    InstanceTail(p, d);
    if Matches(p, Instance(p, d) + [d]) { ClosedTail(p, Instance(p, d) + [d]); }
  }

  /** A character that is neither of two, nor a dot. */
  function Other(x: char, y: char): (d: char)
    ensures d != x && d != y && d != '.'
  {
    if x != 'a' && y != 'a' then 'a' else if x != 'b' && y != 'b' then 'b' else 'c'
  }

  ghost predicate Differ(p: seq<Token>, s: string) {
    Search(p, s) && !Matches(p, s)
  }

  lemma PartFits(p: seq<Token>, x: string, t: string, y: string)
    requires Matches(p, t)
    ensures Search(p, x + t + y)
  {
    var s := x + t + y;
    assert s[|x|..|x| + |t|] == t;
    assert FitsAt(p, s, |x|, |x| + |t|);
  }

  lemma ClosedEndDiffers(p: seq<Token>) returns (s: string)
    requires !(HeadOpen(p) && TailOpen(p))
    ensures Differ(p, s)
  {
    var d := Other(FirstLit(p), LastLit(p));
    var t := Instance(p, d);
    InstanceMatches(p, d);
    PartFits(p, [d], t, "");
    PartFits(p, "", t, [d]);
    assert [d] + t + "" == [d] + t && "" + t + [d] == t + [d];
    if AllAny(p) {
      AllAnyCounts(p, t);
      AllAnyCounts(p, t + [d]);
      s := t + [d];
    } else if !HeadOpen(p) {
      ClosedHead(p, d);
      s := [d] + t;
    } else {
      ExtraBehind(p, d);
      s := t + [d];
    }
  }

  /** Searching for a pattern and matching it whole agree on every text iff both its ends are open. */
  lemma SearchIsMatchExactly(p: seq<Token>)
    ensures (forall s :: Search(p, s) <==> Matches(p, s)) <==> HeadOpen(p) && TailOpen(p)
  {
    if HeadOpen(p) && TailOpen(p) {
      forall s ensures Search(p, s) <==> Matches(p, s) { OpenEndsAgree(p, s); }
    } else {
      var s := ClosedEndDiffers(p);
      assert Differ(p, s);
    }
  }

  // ------------------------------------------------------------------------
  // Patterns as they are written
  // ------------------------------------------------------------------------

  lemma {:induction false} LiteralsOccur(p: seq<Token>, s: string, c: char)
    requires Matches(p, s) && Lit(c) in p
    ensures c in s
    decreases |p| + |s|
  {
    if p[0].Star? && Matches(p[1..], s) {
      LiteralsOccur(p[1..], s, c);
    } else if p[0].Star? {
      LiteralsOccur(p, s[1..], c);
    } else if p[0] != Lit(c) {
      LiteralsOccur(p[1..], s[1..], c);
    }
  }

  lemma {:induction false} InstanceOmits(p: seq<Token>, d: char, c: char)
    requires Lit(c) !in p && c != d
    ensures c !in Instance(p, d)
  {
    if p != [] { InstanceOmits(p[1..], d, c); }
  }

  /** A dot in the pattern stands for itself in the glob and for any character in the regular expression. */
  lemma DotDiffers(pattern: string) returns (key: string)
    requires '.' in pattern
    ensures Search(RegexOf(pattern), key) && !Matches(GlobOf(pattern), key)
  {
    var glob, regex := GlobOf(pattern), RegexOf(pattern);
    key := Instance(regex, 'a');
    InstanceMatches(regex, 'a');
    WholeIsPart(regex, key);
    InstanceOmits(regex, 'a', '.');
    var i :| 0 <= i < |pattern| && pattern[i] == '.';
    assert glob[i] == Lit('.');
    if Matches(glob, key) { LiteralsOccur(glob, key, '.'); }
  }

  ghost predicate Agree(pattern: string) {
    forall key :: Search(RegexOf(pattern), key) <==> Matches(GlobOf(pattern), key)
  }

  /**
   The compiled pattern accepts exactly the keys of the glob if and only if the pattern has no dot and, up to question
   marks, starts and ends with a star.
   */
  lemma GlobExactly(pattern: string)
    ensures Agree(pattern) <==> '.' !in pattern && HeadOpen(GlobOf(pattern)) && TailOpen(GlobOf(pattern))
  {
    if '.' in pattern {
      var key := DotDiffers(pattern);
    } else {
      assert RegexOf(pattern) == GlobOf(pattern);
      SearchIsMatchExactly(GlobOf(pattern));
    }
  }

  lemma {:induction false} WiderMatches(pattern: string, key: string)
    requires Matches(GlobOf(pattern), key)
    ensures Matches(RegexOf(pattern), key)
    decreases |pattern| + |key|
  {
    if pattern != "" {
      var glob := GlobOf(pattern);
      assert glob[1..] == GlobOf(pattern[1..]) && RegexOf(pattern)[1..] == RegexOf(pattern[1..]);
      if glob[0].Star? && Matches(glob[1..], key) {
        WiderMatches(pattern[1..], key);
      } else if glob[0].Star? {
        WiderMatches(pattern, key[1..]);
      } else {
        WiderMatches(pattern[1..], key[1..]);
      }
    }
  }

  /** No key of the glob is missed: the search errs on the side of more. */
  lemma GlobIsFound(pattern: string, key: string)
    requires Matches(GlobOf(pattern), key)
    ensures Search(RegexOf(pattern), key)
  {
    WiderMatches(pattern, key);
    WholeIsPart(RegexOf(pattern), key);
  }

  /** The pattern `b` is found in the key `ab`, which as a glob it does not match. */
  lemma BareWordIsFound()
    ensures Search(RegexOf("b"), "ab") && !Matches(GlobOf("b"), "ab")
  {
    assert "b"[1..] == "";
    assert RegexOf("b") == [Lit('b')] == GlobOf("b");
    assert Matches([Lit('b')], "b");
    PartFits([Lit('b')], "a", "b", "");
    assert "a" + "b" + "" == "ab";
  }

  lemma {:induction false} FinalStarOpens(p: seq<Token>)
    ensures TailOpen(p + [Star])
  {
    if p != [] {
      FinalStarOpens(p[1..]);
      assert (p + [Star])[1..] == p[1..] + [Star];
    }
  }

  /** A word between two stars means the same either way unless it has a dot. */
  lemma StarredWord(word: string)
    ensures Agree("*" + word + "*") <==> '.' !in word
  {
    var pattern := "*" + word + "*";
    var p := GlobOf(pattern);
    GlobExactly(pattern);
    FinalStarOpens(p[..|p| - 1]);
    assert p == p[..|p| - 1] + [Star];
  }

  lemma {:induction false} StarTakes(p: seq<Token>, x: string, s: string)
    requires p != [] && p[0].Star? && Matches(p[1..], s)
    ensures Matches(p, x + s)
  {
    if x == "" {
      assert x + s == s;
    } else {
      StarTakes(p, x[1..], s);
      assert (x + s)[1..] == x[1..] + s;
    }
  }

  lemma {:induction false} WordMatches(word: string, rest: string, s: string)
    requires Matches(GlobOf(rest), s) && '*' !in word && '?' !in word
    ensures Matches(GlobOf(word + rest), word + s)
  {
    if word == "" {
      assert word + rest == rest && word + s == s;
    } else {
      WordMatches(word[1..], rest, s);
      var pattern, text := word + rest, word + s;
      assert pattern[1..] == word[1..] + rest && text[1..] == word[1..] + s;
      assert word[0] in word && GlobToken(word[0]) == Lit(word[0]);
      assert GlobOf(pattern)[0] == Lit(word[0]) && GlobOf(pattern)[1..] == GlobOf(pattern[1..]);
    }
  }

  /** A starred word is found in every text that contains it. */
  lemma StarredFinds(word: string, head: string, tail: string)
    requires '*' !in word && '?' !in word
    ensures Search(RegexOf("*" + word + "*"), head + word + tail)
  {
    assert Matches([Star], tail) by { StarTakes([Star], tail, ""); assert tail + "" == tail; }
    assert GlobOf("*") == [Star];
    WordMatches(word, "*", tail);
    var pattern := "*" + (word + "*");
    assert pattern[1..] == word + "*";
    assert GlobOf(pattern)[1..] == GlobOf(word + "*");
    StarTakes(GlobOf(pattern), head, word + tail);
    assert head + (word + tail) == head + word + tail && pattern == "*" + word + "*";
    GlobIsFound(pattern, head + word + tail);
  }
}
