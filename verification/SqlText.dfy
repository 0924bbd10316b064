/** Python's whitespace operations on strings, as the schema parser uses them. */
module SqlText {

  /** `str.isspace` for one character. */
  predicate IsSpace(c: char) {
    || '\t' <= c <= '\r' || '\U{1C}' <= c <= ' ' || c == '\U{85}' || c == '\U{A0}' || c == '\U{1680}'
    || '\U{2000}' <= c <= '\U{200A}' || c == '\U{2028}' || c == '\U{2029}' || c == '\U{202F}'
    || c == '\U{205F}' || c == '\U{3000}'
  }

  /** The characters Python 3 counts as whitespace, by number. */
  lemma SpacesAre(c: char)
    ensures IsSpace(c) <==>
            || c as int in {9, 10, 11, 12, 13, 28, 29, 30, 31, 32, 133, 160, 5760, 8232, 8233, 8239, 8287, 12288}
            || 8192 <= c as int <= 8202
  {}

  function LStrip(s: string): (r: string)
    ensures r == "" || !IsSpace(r[0])
    ensures |r| <= |s|
  {
    if s != "" && IsSpace(s[0]) then LStrip(s[1..]) else s
  }

  function RStrip(s: string): (r: string)
    ensures r == "" || !IsSpace(r[|r| - 1])
    ensures |r| <= |s| && r == s[..|r|]
  {
    if s != "" && IsSpace(s[|s| - 1]) then RStrip(s[..|s| - 1]) else s
  }

  function Strip(s: string): string {
    RStrip(LStrip(s))
  }

  ghost predicate Blank(s: string) {
    forall i :: 0 <= i < |s| ==> IsSpace(s[i])
  }

  lemma {:induction false} LStripIs(s: string)
    ensures LStrip(s) == s[|s| - |LStrip(s)|..] && Blank(s[..|s| - |LStrip(s)|])
    decreases |s|
  {
    if s != "" && IsSpace(s[0]) {
      LStripIs(s[1..]);
    }
  }

  lemma {:induction false} RStripIs(s: string)
    ensures Blank(s[|RStrip(s)|..])
    decreases |s|
  {
    if s != "" && IsSpace(s[|s| - 1]) {
      RStripIs(s[..|s| - 1]);
    }
  }

  /** Stripping takes whitespace off both ends and leaves none there. */
  lemma StripIs(s: string) returns (i: nat, j: nat)
    ensures i <= j <= |s| && Strip(s) == s[i..j] && Blank(s[..i]) && Blank(s[j..])
    ensures Trimmed(Strip(s))
  {
    var t := LStrip(s);
    LStripIs(s);
    RStripIs(t);
    i, j := |s| - |t|, |s| - |t| + |RStrip(t)|;
    assert s[j..] == t[|RStrip(t)|..];
  }

  /** No whitespace at either end. */
  predicate Trimmed(s: string) {
    s == "" || (!IsSpace(s[0]) && !IsSpace(s[|s| - 1]))
  }

  lemma StripTrimmed(s: string)
    requires Trimmed(s)
    ensures Strip(s) == s && Strip(" " + s) == s
  {
    assert (" " + s)[1..] == s;
  }

  /** Length of the run of non-space characters a string starts with. */
  function TokenLength(s: string): (n: nat)
    ensures n <= |s| && (n < |s| ==> IsSpace(s[n]))
    ensures forall i :: 0 <= i < n ==> !IsSpace(s[i])
  {
    if s == "" || IsSpace(s[0]) then 0 else 1 + TokenLength(s[1..])
  }

  /** `str.split()`. */
  function Words(s: string): seq<string>
    decreases |s|
  {
    var t := LStrip(s);
    if t == "" then [] else [t[..TokenLength(t)]] + Words(t[TokenLength(t)..])
  }

  function JoinWords(words: seq<string>): string {
    if words == [] then ""
    else if |words| == 1 then words[0]
    else words[0] + " " + JoinWords(words[1..])
  }

  /** Whitespace runs become one space, and the ends are trimmed. */
  function Normalize(s: string): string {
    JoinWords(Words(s))
  }

  ghost predicate AreWords(words: seq<string>) {
    forall w :: w in words ==> w != "" && forall i :: 0 <= i < |w| ==> !IsSpace(w[i])
  }

  lemma {:induction false} WordsAreWords(s: string)
    ensures AreWords(Words(s))
    decreases |s|
  {
    var t := LStrip(s);
    if t != "" {
      WordsAreWords(t[TokenLength(t)..]);
    }
  }

  lemma {:induction false} JoinTrimmed(words: seq<string>)
    requires AreWords(words)
    ensures Trimmed(JoinWords(words)) && (JoinWords(words) == "" <==> words == [])
  {
    if |words| > 1 {
      JoinTrimmed(words[1..]);
      assert words[0] in words && words[1] in words[1..];
    } else if |words| == 1 {
      assert words[0] in words;
    }
  }

  lemma WordsCons(w: string, rest: string)
    requires w != "" && forall i :: 0 <= i < |w| ==> !IsSpace(w[i])
    requires rest == "" || IsSpace(rest[0])
    ensures Words(w + rest) == [w] + Words(rest)
  {
    TokenOfWord(w, rest);
    assert (w + rest)[0] == w[0];
  }

  lemma WordsAfterSpace(s: string)
    ensures Words(" " + s) == Words(s)
  {
    assert (" " + s)[1..] == s;
  }

  lemma {:induction false} WordsOfJoin(words: seq<string>)
    requires AreWords(words)
    ensures Words(JoinWords(words)) == words
  {
    if words != [] {
      assert words[0] in words;
      if |words| == 1 {
        WordsCons(words[0], "");
        assert words[0] + "" == words[0] && words == [words[0]];
      } else {
        var rest := " " + JoinWords(words[1..]);
        assert JoinWords(words) == words[0] + rest;
        WordsCons(words[0], rest);
        WordsAfterSpace(JoinWords(words[1..]));
        WordsOfJoin(words[1..]);
        assert words == [words[0]] + words[1..];
      }
    }
  }

  lemma {:induction false} TokenOfWord(w: string, rest: string)
    requires forall i :: 0 <= i < |w| ==> !IsSpace(w[i])
    requires rest == "" || IsSpace(rest[0])
    ensures TokenLength(w + rest) == |w|
    ensures (w + rest)[..|w|] == w && (w + rest)[|w|..] == rest
  {
    if w == "" {
      assert w + rest == rest;
    } else {
      assert (w + rest)[1..] == w[1..] + rest;
      TokenOfWord(w[1..], rest);
    }
  }

  /** Words with a gap before each of them and one behind the last. */
  ghost function Woven(words: seq<string>, gaps: seq<string>): string
    requires |gaps| == |words| + 1
  {
    if words == [] then gaps[0] else gaps[0] + words[0] + Woven(words[1..], gaps[1..])
  }

  lemma FirstWord(s: string) returns (gap: string, word: string, rest: string)
    requires LStrip(s) != ""
    ensures s == gap + word + rest && |rest| < |s| && Words(s) == [word] + Words(rest)
    ensures Blank(gap) && word != "" && (forall i :: 0 <= i < |word| ==> !IsSpace(word[i]))
    ensures rest == "" || IsSpace(rest[0])
  {
    var t := LStrip(s);
    LStripIs(s);
    gap, word, rest := s[..|s| - |t|], t[..TokenLength(t)], t[TokenLength(t)..];
  }

  lemma NoWord(s: string)
    requires LStrip(s) == ""
    ensures Words(s) == [] && Woven([], [s]) == s && Blank(s)
  {
    LStripIs(s);
    assert s[..|s|] == s;
  }

  /** The words of a text are its maximal runs of other characters than whitespace: they leave only
      whitespace, and some of it between any two of them. */
  lemma {:induction false} WordsSpell(s: string) returns (gaps: seq<string>)
    ensures |gaps| == |Words(s)| + 1 && Woven(Words(s), gaps) == s && AreWords(Words(s))
    ensures forall i :: 0 <= i < |gaps| ==> Blank(gaps[i])
    ensures forall i :: 0 < i < |gaps| - 1 ==> gaps[i] != ""
    decreases |s|
  {
    hide Words, LStrip, Blank, IsSpace, Woven, AreWords;
    WordsAreWords(s);
    if LStrip(s) == "" {
      NoWord(s);
      gaps := [s];
    } else {
      var gap, word, rest := FirstWord(s);
      var others := WordsSpell(rest);
      if |others| > 1 {
        NoWordFirst(rest, Words(rest), others);
      }
      gaps := WeaveOne(gap, word, Words(rest), others);
    }
  }

  lemma NoWordFirst(rest: string, words: seq<string>, gaps: seq<string>)
    requires |gaps| == |words| + 1 && |words| > 0 && Woven(words, gaps) == rest && AreWords(words)
    requires rest == "" || IsSpace(rest[0])
    ensures gaps[0] != ""
  {
    var w, tail := words[0], Woven(words[1..], gaps[1..]);
    assert w in words && rest == gaps[0] + w + tail;
    hide Woven, AreWords;
    SpaceFirst(gaps[0], w, tail);
  }

  lemma SpaceFirst(gap: string, word: string, tail: string)
    requires word != "" && !IsSpace(word[0]) && IsSpace((gap + word + tail)[0])
    ensures gap != ""
  {
    hide IsSpace;
  }

  lemma WeaveOne(gap: string, word: string, words: seq<string>, gaps: seq<string>) returns (all: seq<string>)
    requires |gaps| == |words| + 1
    ensures all == [gap] + gaps && Woven([word] + words, all) == gap + word + Woven(words, gaps)
  {
    all := [gap] + gaps;
    assert ([word] + words)[1..] == words && all[1..] == gaps;
  }

  /** Nothing at the ends and one space between words. */
  ghost function Single(n: nat): (gaps: seq<string>)
    ensures |gaps| == n + 1
  {
    seq(n + 1, i requires 0 <= i <= n => if i == 0 || i == n then "" else " ")
  }

  lemma {:induction false} JoinWeaves(words: seq<string>)
    ensures JoinWords(words) == Woven(words, Single(|words|))
    ensures |words| > 0 ==> " " + JoinWords(words) == Woven(words, Single(|words|)[0 := " "])
  {
    if |words| > 1 {
      JoinWeaves(words[1..]);
      assert Single(|words|)[1..] == Single(|words| - 1)[0 := " "];
      assert Single(|words|)[0 := " "][1..] == Single(|words|)[1..];
    } else if |words| == 1 {
      assert Woven(words[1..], Single(1)[1..]) == "";
      assert Single(1)[0 := " "][1..] == Single(1)[1..];
    }
  }

  /** Normalising keeps the words of a text, as they are and in their order, with one space between
      any two. */
  lemma NormalizeSpells(s: string) returns (gaps: seq<string>)
    ensures |gaps| == |Words(s)| + 1 && AreWords(Words(s))
    ensures s == Woven(Words(s), gaps) && Normalize(s) == Woven(Words(s), Single(|Words(s)|))
    ensures forall i :: 0 <= i < |gaps| ==> Blank(gaps[i])
    ensures forall i :: 0 < i < |gaps| - 1 ==> gaps[i] != ""
  {
    gaps := WordsSpell(s);
    JoinWeaves(Words(s));
  }

  /** Normalising twice changes nothing more, and the result is trimmed. */
  lemma NormalizeIdempotent(s: string)
    ensures Normalize(Normalize(s)) == Normalize(s) && Trimmed(Normalize(s))
  {
    WordsAreWords(s);
    WordsOfJoin(Words(s));
    JoinTrimmed(Words(s));
  }

  lemma {:induction false} LStripGap(gap: string, s: string)
    requires Blank(gap) && (s == "" || !IsSpace(s[0]))
    ensures LStrip(gap + s) == s
    decreases |gap|
  {
    if gap == "" {
      assert gap + s == s;
    } else {
      assert (gap + s)[1..] == gap[1..] + s;
      LStripGap(gap[1..], s);
    }
  }

  lemma {:induction false} RStripTail(s: string, tail: string)
    requires s != "" && !IsSpace(s[|s| - 1])
    ensures RStrip(s + tail) == s + RStrip(tail)
    decreases |tail|
  {
    if tail == "" {
      assert s + tail == s;
    } else {
      var n := |tail| - 1;
      assert (s + tail)[..|s| + n] == s + tail[..n];
      RStripTail(s, tail[..n]);
    }
  }

  /** Surrounding whitespace goes, and so does that behind the last word of a longer text. */
  lemma StripAround(gap: string, s: string, tail: string)
    requires Blank(gap) && s != "" && !IsSpace(s[0]) && !IsSpace(s[|s| - 1])
    ensures Strip(gap + s + tail) == s + RStrip(tail)
  {
    assert gap + s + tail == gap + (s + tail);
    LStripGap(gap, s + tail);
    RStripTail(s, tail);
  }

  lemma {:induction false} WordsSnocSpace(s: string, c: char)
    requires IsSpace(c)
    ensures Words(s + [c]) == Words(s)
    decreases |s|
  {
    if LStrip(s) == "" {
      LStripIs(s);
      LStripGap(s + [c], "");
      assert s + [c] + "" == s + [c];
    } else {
      var gap, word, rest := FirstWord(s);
      WordsSnocSpace(rest, c);
      WordsBehindGap(gap, word, rest + [c]);
      assert s + [c] == gap + word + (rest + [c]);
    }
  }

  lemma WordsBehindGap(gap: string, word: string, rest: string)
    requires Blank(gap) && word != "" && (forall i :: 0 <= i < |word| ==> !IsSpace(word[i]))
    requires rest == "" || IsSpace(rest[0])
    ensures Words(gap + word + rest) == [word] + Words(rest)
  {
    assert gap + word + rest == gap + (word + rest);
    LStripGap(gap, word + rest);
    LStripGap("", word + rest);
    assert "" + (word + rest) == word + rest;
    WordsCons(word, rest);
  }

  lemma {:induction false} WordsRStrip(s: string)
    ensures Words(RStrip(s)) == Words(s)
    decreases |s|
  {
    if s != "" && IsSpace(s[|s| - 1]) {
      var n := |s| - 1;
      WordsRStrip(s[..n]);
      WordsSnocSpace(s[..n], s[n]);
      assert s == s[..n] + [s[n]];
    }
  }

  /** Normalising does not see whether the ends were stripped before. */
  lemma NormalizeStrip(s: string)
    ensures Normalize(Strip(s)) == Normalize(s) && Normalize(RStrip(s)) == Normalize(s)
  {
    WordsRStrip(s);
    WordsRStrip(LStrip(s));
    LStripGap("", LStrip(s));
    assert "" + LStrip(s) == LStrip(s);
    assert Words(LStrip(s)) == Words(s);
  }

  predicate OccursAt(s: string, pattern: string, k: int) {
    0 <= k <= |s| - |pattern| && s[k..k + |pattern|] == pattern
  }

  /** `s.find(pattern, from)`. */
  function Find(s: string, pattern: string, from: nat): (r: int)
    ensures r == -1 || (from <= r <= |s| && OccursAt(s, pattern, r))
    ensures forall k :: from <= k && (r == -1 || k < r) ==> !OccursAt(s, pattern, k)
    decreases |s| - from
  {
    if from + |pattern| > |s| then -1
    else if OccursAt(s, pattern, from) then from
    else if from == |s| then -1
    else Find(s, pattern, from + 1)
  }
}
