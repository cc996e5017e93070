/**
 * How the story tester cuts text: `story.split("\n")` into sentences, and
 * each sentence into its keyword (up to the first space), its lookup key
 * (the rest, up to its last space) and its parameter (after the sentence's
 * last space). `String.split`, `indexOf`, `lastIndexOf` and `substring` are
 * modelled with the Java library's edge cases: trailing empty pieces are
 * dropped, a string without a separator splits into itself, and an index of
 * `-1` handed to `substring` throws.
 */
module StoryParsing {
  import opened Wrappers
  import opened JavaLang

  /** `s.indexOf(c)`: the first position of `c`, `-1` when there is none. */
  function IndexOf(s: string, c: char): (i: int)
    ensures -1 <= i < |s|
    ensures i == -1 <==> c !in s
    ensures 0 <= i ==> s[i] == c && forall k :: 0 <= k < i ==> s[k] != c
  {
    if s == [] then -1
    else if s[0] == c then 0
    else
      var j := IndexOf(s[1..], c);
      assert forall k :: 0 < k < |s| ==> s[k] == s[1..][k - 1];
      if j == -1 then -1 else j + 1
  }

  /** `s.lastIndexOf(c)`: the last position of `c`, `-1` when there is none. */
  function LastIndexOf(s: string, c: char): (i: int)
    ensures -1 <= i < |s|
    ensures i == -1 <==> c !in s
    ensures 0 <= i ==> s[i] == c && forall k :: i < k < |s| ==> s[k] != c
  {
    if s == [] then -1
    else if s[|s| - 1] == c then |s| - 1
    else LastIndexOf(s[..|s| - 1], c)
  }

  /** A position holding `c` with no `c` after it is the one `lastIndexOf` reports. */
  lemma LastIndexOfAt(s: string, c: char, i: int)
    requires 0 <= i < |s| && s[i] == c
    requires forall k :: i < k < |s| ==> s[k] != c
    ensures LastIndexOf(s, c) == i
  {
    var l := LastIndexOf(s, c);
    assert l >= i;
  }

  /** A position holding `c` with no `c` before it is the one `indexOf` reports. */
  lemma IndexOfAt(s: string, c: char, i: int)
    requires 0 <= i < |s| && s[i] == c
    requires forall k :: 0 <= k < i ==> s[k] != c
    ensures IndexOf(s, c) == i
  {
    var l := IndexOf(s, c);
    assert 0 <= l <= i;
  }

  // ------------------------------------------------------------ sentences

  /** A parsed sentence: `Given a classroom with capacity 75` is `("Given", "a classroom with capacity", "75")`. */
  datatype Sentence = Sentence(keyword: string, key: string, parameter: string)

  /** Keyword and parameter are single words; the key may hold spaces. */
  predicate WellFormed(x: Sentence)
  {
    ' ' !in x.keyword && ' ' !in x.parameter
  }

  function Render(x: Sentence): string
  {
    x.keyword + " " + x.key + " " + x.parameter
  }

  /**
   * The sentence loop's parse: the keyword is the text before the first
   * space, the key is the rest up to its own last space, and the parameter is
   * the text after the sentence's last space. A sentence with no space has no
   * rest (an array index error); one with a single space has no space left in
   * the rest, and cutting it at position -1 is a string index error.
   */
  function ParseSentence(s: string): (r: Result<Sentence, ClassName>)
    ensures ' ' !in s ==> r == Err(ARRAY_INDEX)
    ensures r.Ok? ==> WellFormed(r.value) && Render(r.value) == s
    ensures r.Err? ==> r.error == ARRAY_INDEX || r.error == STRING_INDEX
  {
    var i := IndexOf(s, ' ');
    if i == -1 then Err(ARRAY_INDEX)
    else
      var rest := s[i + 1..];
      var j := LastIndexOf(rest, ' ');
      if j == -1 then Err(STRING_INDEX)
      else
        SentenceParts(s, i, j);
        Ok(Sentence(s[..i], rest[..j], s[LastIndexOf(s, ' ') + 1..]))
  }

  /** With the first space at `i` and the last space of the rest at `j`, the sentence falls apart into keyword, key and parameter. */
  lemma SentenceParts(s: string, i: int, j: int)
    requires 0 <= i == IndexOf(s, ' ')
    requires 0 <= j == LastIndexOf(s[i + 1..], ' ')
    ensures LastIndexOf(s, ' ') == i + 1 + j
    ensures ' ' !in s[..i] && ' ' !in s[i + 2 + j..]
    ensures s == s[..i] + " " + s[i + 1..][..j] + " " + s[i + 2 + j..]
  {
    var rest := s[i + 1..];
    assert rest[j + 1..] == s[i + 2 + j..];
    assert LastIndexOf(s, ' ') == i + 1 + j by {
      assert forall k :: i + 1 + j < k < |s| ==> s[k] == rest[k - i - 1];
      LastIndexOfAt(s, ' ', i + 1 + j);
    }
    assert ' ' !in s[..i] by {
      assert forall k :: 0 <= k < i ==> s[..i][k] == s[k];
    }
    assert ' ' !in rest[j + 1..] by {
      var tail := rest[j + 1..];
      assert forall k :: 0 <= k < |tail| ==> tail[k] == rest[j + 1 + k];
    }
    CutAt(s, i);
    CutAt(rest, j);
    SpacedJoin(s[..i], rest[..j], rest[j + 1..]);
  }

  /** Two spaces between three parts, however the concatenation is grouped. */
  lemma SpacedJoin(a: string, b: string, c: string)
    ensures a + [' '] + (b + [' '] + c) == a + " " + b + " " + c
  {
  }

  /** A string is what comes before position `i`, the character there, and what follows. */
  lemma CutAt(s: string, i: int)
    requires 0 <= i < |s|
    ensures s == s[..i] + [s[i]] + s[i + 1..]
  {
  }

  /** Every well-formed sentence reads back as itself; so a sentence that fails to parse is no rendering of one. */
  lemma ParseRender(x: Sentence)
    requires WellFormed(x)
    ensures ParseSentence(Render(x)) == Ok(x)
  {
    var s := Render(x);
    var i := |x.keyword|;
    var rest := s[i + 1..];
    var j := |x.key|;
    assert IndexOf(s, ' ') == i by {
      assert s[i] == ' ' && s[..i] == x.keyword;
      IndexOfAt(s, ' ', i);
    }
    assert rest == x.key + " " + x.parameter;
    assert LastIndexOf(rest, ' ') == j by {
      assert rest[j] == ' ' && rest[j + 1..] == x.parameter;
      LastIndexOfAt(rest, ' ', j);
    }
    assert rest[..j] == x.key;
    assert s[..i] == x.keyword;
    assert s[i + 1 + j + 1..] == x.parameter;
  }

  // -------------------------------------------------------------- stories

  /** The pieces of `s` between the line feeds, empty pieces included: one more than the line feeds. */
  function Pieces(s: string): (ps: seq<string>)
    ensures |ps| >= 1
  {
    if s == [] then [""]
    else
      var p := Pieces(s[..|s| - 1]);
      var c := s[|s| - 1];
      assert s == s[..|s| - 1] + [c];
      if c == '\n' then p + [""] else ExtendLast(p, [c])
  }

  /** No piece holds a line feed, and a string without one is its only piece. */
  lemma {:induction false} PiecesLines(s: string)
    ensures forall i :: 0 <= i < |Pieces(s)| ==> '\n' !in Pieces(s)[i]
    ensures '\n' !in s ==> Pieces(s) == [s]
  {
    if s != [] {
      var c := s[|s| - 1];
      PiecesLines(s[..|s| - 1]);
      assert s == s[..|s| - 1] + [c];
      assert '\n' !in s ==> '\n' !in s[..|s| - 1];
    }
  }

  /** `p` with `t` appended to its last element. */
  function ExtendLast(p: seq<string>, t: string): (q: seq<string>)
    requires p != []
    ensures |q| == |p| && q[|q| - 1] == p[|p| - 1] + t
  {
    p[..|p| - 1] + [p[|p| - 1] + t]
  }

  function DropTrailingEmpty(ps: seq<string>): (r: seq<string>)
    ensures r <= ps
    ensures r == [] || r[|r| - 1] != ""
    ensures forall i :: |r| <= i < |ps| ==> ps[i] == ""
  {
    if ps == [] then []
    else if ps[|ps| - 1] == "" then DropTrailingEmpty(ps[..|ps| - 1])
    else ps
  }

  /**
   * `story.split("\n")`: a story without a line feed is its only sentence
   * (even when empty); otherwise the pieces between line feeds, with the
   * trailing empty ones removed.
   */
  function SplitLines(s: string): (ls: seq<string>)
    ensures '\n' !in s ==> ls == [s]
    ensures forall i :: 0 <= i < |ls| ==> '\n' !in ls[i]
  {
    PiecesLines(s);
    if '\n' !in s then [s] else DropTrailingEmpty(Pieces(s))
  }

  /** The inverse of splitting: lines joined by line feeds. */
  function JoinLines(ls: seq<string>): string
    requires ls != []
  {
    if |ls| == 1 then ls[0] else JoinLines(ls[..|ls| - 1]) + "\n" + ls[|ls| - 1]
  }

  /** Joining the pieces gives back the story. */
  lemma {:induction false} JoinPieces(s: string)
    ensures JoinLines(Pieces(s)) == s
  {
    if s != [] {
      var p := Pieces(s[..|s| - 1]);
      var c := s[|s| - 1];
      JoinPieces(s[..|s| - 1]);
      assert s == s[..|s| - 1] + [c];
      if c == '\n' {
        assert (p + [""])[..|p|] == p;
      } else {
        JoinExtendsLast(p, [c]);
      }
    }
  }

  lemma JoinExtendsLast(p: seq<string>, t: string)
    requires p != []
    ensures JoinLines(ExtendLast(p, t)) == JoinLines(p) + t
  {
  }

  /** Appending text without a line feed lengthens the last piece. */
  lemma {:induction false} PiecesAppend(s: string, t: string)
    requires '\n' !in t
    ensures Pieces(s + t) == ExtendLast(Pieces(s), t)
    decreases |t|
  {
    if t == [] {
      assert s + t == s;
      ExtendLastEmpty(Pieces(s));
    } else {
      var t' := t[..|t| - 1];
      var c := t[|t| - 1];
      assert t == t' + [c];
      PiecesAppend(s, t');
      PiecesAppendStep(s, t', c);
    }
  }

  lemma PiecesAppendStep(s: string, t: string, c: char)
    requires c != '\n'
    requires Pieces(s + t) == ExtendLast(Pieces(s), t)
    ensures Pieces(s + (t + [c])) == ExtendLast(Pieces(s), t + [c])
  {
    assert Pieces(s + (t + [c])) == ExtendLast(ExtendLast(Pieces(s), t), [c]) by {
      assert s + (t + [c]) == (s + t) + [c];
      PiecesSnoc(s + t, c);
    }
    ExtendLastTwice(Pieces(s), t, [c]);
  }

  lemma PiecesSnoc(x: string, c: char)
    requires c != '\n'
    ensures Pieces(x + [c]) == ExtendLast(Pieces(x), [c])
  {
    assert (x + [c])[..|x|] == x;
  }

  lemma PiecesNewline(x: string)
    ensures Pieces(x + "\n") == Pieces(x) + [""]
  {
    assert (x + "\n")[..|x|] == x;
  }

  lemma ExtendLastEmpty(p: seq<string>)
    requires p != []
    ensures ExtendLast(p, "") == p
  {
    assert p[|p| - 1] + "" == p[|p| - 1];
  }

  lemma ExtendLastTwice(p: seq<string>, a: string, b: string)
    requires p != []
    ensures ExtendLast(ExtendLast(p, a), b) == ExtendLast(p, a + b)
  {
    assert p[|p| - 1] + a + b == p[|p| - 1] + (a + b);
  }

  /** Lines without line feeds come back out of their join. */
  lemma {:induction false} PiecesJoin(ls: seq<string>)
    requires ls != []
    requires forall i :: 0 <= i < |ls| ==> '\n' !in ls[i]
    ensures Pieces(JoinLines(ls)) == ls
  {
    if |ls| == 1 {
      PiecesLines(ls[0]);
    } else {
      var init := ls[..|ls| - 1];
      PiecesJoin(init);
      PiecesJoinStep(init, ls[|ls| - 1]);
      assert init + [ls[|ls| - 1]] == ls;
    }
  }

  lemma PiecesJoinStep(init: seq<string>, last: string)
    requires init != [] && '\n' !in last
    requires Pieces(JoinLines(init)) == init
    ensures Pieces(JoinLines(init + [last])) == init + [last]
  {
    var a := JoinLines(init) + "\n";
    PiecesNewline(JoinLines(init));
    PiecesAppend(a, last);
    assert (init + [last])[..|init|] == init;
    assert a + last == JoinLines(init + [last]);
    var q := ExtendLast(init + [""], last);
    assert "" + last == last;
    assert q == q[..|q| - 1] + [q[|q| - 1]];
  }

  /**
   * Splitting inverts joining for lines without line feeds, provided the
   * last line is not empty (a trailing empty line is dropped) unless it is the
   * only one.
   */
  lemma SplitJoin(ls: seq<string>)
    requires ls != []
    requires forall i :: 0 <= i < |ls| ==> '\n' !in ls[i]
    requires |ls| == 1 || ls[|ls| - 1] != ""
    ensures SplitLines(JoinLines(ls)) == ls
  {
    PiecesJoin(ls);
    var s := JoinLines(ls);
    if '\n' !in s {
      assert Pieces(s) == [s];
    }
  }

  /** Joining the split lines gives back the story, less the line feeds that ended it. */
  lemma SplitThenJoin(s: string)
    requires SplitLines(s) != []
    ensures JoinLines(SplitLines(s)) <= s
  {
    JoinPieces(s);
    if '\n' in s {
      var ps := Pieces(s);
      assert SplitLines(s) == ps[..|SplitLines(s)|];
      JoinPrefix(ps, |SplitLines(s)|);
    }
  }

  lemma {:induction false} JoinPrefix(ps: seq<string>, n: nat)
    requires 0 < n <= |ps|
    ensures JoinLines(ps[..n]) <= JoinLines(ps)
    decreases |ps|
  {
    if n < |ps| {
      JoinPrefix(ps[..|ps| - 1], n);
      assert ps[..|ps| - 1][..n] == ps[..n];
    } else {
      assert ps[..n] == ps;
    }
  }

  // ------------------------------------------------------- nested lookup

  /** `story.split("\n", 2)[0]`: the text before the first line feed. */
  function FirstLine(story: string): (l: string)
    ensures l <= story && '\n' !in l
  {
    var i := IndexOf(story, '\n');
    if i == -1 then story else story[..i]
  }

  /**
   * `testOnNestedClasses`' key for the first sentence: the text between the
   * line's first and last spaces, a string index error unless the line has
   * two spaces.
   */
  function FirstSentenceKey(story: string): (r: Result<string, ClassName>)
    ensures r.Err? ==> r.error == STRING_INDEX
  {
    KeyBetweenSpaces(FirstLine(story))
  }

  /** The text between the first and the last space of `line`, cut out with `substring`. */
  function KeyBetweenSpaces(line: string): (r: Result<string, ClassName>)
    ensures r.Err? ==> r.error == STRING_INDEX
  {
    var b := IndexOf(line, ' ') + 1;
    var e := LastIndexOf(line, ' ');
    if 0 <= e && b <= e then Ok(line[b..e]) else Err(STRING_INDEX)
  }

  /** The nested search uses the same key the sentence parser extracts from the first line. */
  lemma FirstKeyAgrees(story: string)
    ensures FirstSentenceKey(story).Ok? <==> ParseSentence(FirstLine(story)).Ok?
    ensures FirstSentenceKey(story).Ok? ==> FirstSentenceKey(story).value == ParseSentence(FirstLine(story)).value.key
  {
    LineKeyAgrees(FirstLine(story));
  }

  /** On one line: the text between the first and last spaces is the parsed sentence's key. */
  lemma LineKeyAgrees(line: string)
    ensures KeyBetweenSpaces(line).Ok? <==> ParseSentence(line).Ok?
    ensures KeyBetweenSpaces(line).Ok? ==> KeyBetweenSpaces(line).value == ParseSentence(line).value.key
  {
    var i := IndexOf(line, ' ');
    if i != -1 {
      var j := LastIndexOf(line[i + 1..], ' ');
      if j == -1 {
        OneSpace(line, i);
      } else {
        TwoSpaces(line, i, j);
      }
    }
  }

  /** A line whose only space is its first has that space as its last, so neither reading finds a key. */
  lemma OneSpace(line: string, i: int)
    requires 0 <= i == IndexOf(line, ' ')
    requires LastIndexOf(line[i + 1..], ' ') == -1
    ensures KeyBetweenSpaces(line).Err? && ParseSentence(line).Err?
  {
    var rest := line[i + 1..];
    assert forall k :: i < k < |line| ==> line[k] == rest[k - i - 1];
    LastIndexOfAt(line, ' ', i);
  }

  /** With a space after the first, the key the parser takes is the text between the first and last spaces. */
  lemma TwoSpaces(line: string, i: int, j: int)
    requires 0 <= i == IndexOf(line, ' ')
    requires 0 <= j == LastIndexOf(line[i + 1..], ' ')
    ensures KeyBetweenSpaces(line).Ok? && ParseSentence(line).Ok?
    ensures KeyBetweenSpaces(line).value == ParseSentence(line).value.key
  {
    var rest := line[i + 1..];
    assert line[i + 1 + j] == rest[j];
    assert forall k :: i + 1 + j < k < |line| ==> line[k] == rest[k - i - 1];
    LastIndexOfAt(line, ' ', i + 1 + j);
    var key := line[i + 1..i + 1 + j];
    assert rest[..j] == key;
    KeyBetween(line, i + 1, i + 1 + j);
    assert ParseSentence(line).value.key == key;
  }

  /** Where the first and last spaces are known, the key is the text between them. */
  lemma KeyBetween(line: string, b: int, e: int)
    requires IndexOf(line, ' ') + 1 == b <= e == LastIndexOf(line, ' ')
    ensures KeyBetweenSpaces(line) == Ok(line[b..e])
  {
  }

  /** The first sentence `testOnInheritanceTree` reads is the first line `testOnNestedClasses` looked at. */
  lemma FirstLineIsFirstSentence(story: string)
    requires SplitLines(story) != []
    ensures SplitLines(story)[0] == FirstLine(story)
  {
    if '\n' in story {
      FirstPiece(story);
      assert SplitLines(story) == Pieces(story)[..|SplitLines(story)|];
    }
  }

  lemma FirstPiece(story: string)
    requires '\n' in story
    ensures FirstLine(story) == Pieces(story)[0]
  {
    var ps := Pieces(story);
    PiecesLines(story);
    JoinPieces(story);
    JoinFirst(ps);
    var i := |ps[0]|;
    assert story[..i] == ps[0] && story[i] == '\n';
    assert forall k :: 0 <= k < i ==> story[k] == ps[0][k];
    IndexOfAt(story, '\n', i);
  }

  lemma {:induction false} JoinFirst(ls: seq<string>)
    requires |ls| > 1
    ensures ls[0] + "\n" <= JoinLines(ls)
  {
    if |ls| > 2 {
      JoinFirst(ls[..|ls| - 1]);
    }
  }
}
