/**
 * The lexicon-based rule classifier (src/baseline.py): a tokenizer that
 * lower-cases, blanks out everything but a-z and whitespace and splits on
 * whitespace; two fixed word sets; a count of hits per set; and a decision
 * that favours "negative" on ties.
 */
module Baseline {
  import opened Labels
  import opened Sequences

  // ---------------------------------------------------------------------
  // Lexicon
  // ---------------------------------------------------------------------

  const PosWords: set<string> :=
    {"good", "great", "excellent", "amazing", "awesome", "love", "like", "happy", "fantastic", "nice"}

  const NegWords: set<string> :=
    {"bad", "terrible", "awful", "hate", "boring", "disappointed", "poor", "worst", "sad", "angry"}

  /** No word is both positive and negative, so a token feeds at most one count. */
  lemma LexiconDisjoint()
    ensures PosWords * NegWords == {}
  {
  }

  // ---------------------------------------------------------------------
  // Characters
  // ---------------------------------------------------------------------

  predicate IsAsciiLower(c: char) {
    'a' <= c <= 'z'
  }

  predicate IsAsciiUpper(c: char) {
    'A' <= c <= 'Z'
  }

  /** Whitespace in the sense of Python's str.isspace, which is also what `\s` and str.split use. */
  predicate IsSpace(c: char) {
    ('\t' <= c <= '\r') || ('\U{1C}' <= c <= ' ') || c == '\U{85}' || c == '\U{A0}' ||
    c == '\U{1680}' || ('\U{2000}' <= c <= '\U{200A}') || c == '\U{2028}' || c == '\U{2029}' ||
    c == '\U{202F}' || c == '\U{205F}' || c == '\U{3000}'
  }

  /**
   * Lower-casing of one character: the ASCII capitals, and the Kelvin sign,
   * whose lower case is "k". Every other character is kept. Apart from the
   * capital I with dot above (U+0130, not modelled), no other character
   * lower-cases to anything in a-z, so the tokenizer treats it as a separator
   * either way.
   */
  function LowerChar(c: char): (r: char)
    ensures !IsAsciiUpper(r)
    ensures IsAsciiLower(r) <==> IsAsciiLower(c) || IsAsciiUpper(c) || c == '\U{212A}'
    ensures IsAsciiLower(c) || IsSpace(c) ==> r == c
    ensures IsAsciiUpper(c) ==> r as int - 'a' as int == c as int - 'A' as int
    ensures c == '\U{212A}' ==> r == 'k'
  {
    if IsAsciiUpper(c) then (c as int + 32) as char
    else if c == '\U{212A}' then 'k'
    else c
  }

  /** `text.lower()` */
  function Lower(s: string): (r: string)
    ensures |r| == |s|
    ensures forall i :: 0 <= i < |s| ==> r[i] == LowerChar(s[i])
  {
    seq(|s|, i requires 0 <= i < |s| => LowerChar(s[i]))
  }

  /** `re.sub(r"[^a-z\s]", " ", s)`: every character that is neither a-z nor whitespace becomes a space. */
  function Clean(s: string): (r: string)
    ensures |r| == |s|
    ensures forall i :: 0 <= i < |r| ==> IsAsciiLower(r[i]) || IsSpace(r[i])
    ensures forall i :: 0 <= i < |r| && (IsAsciiLower(s[i]) || IsSpace(s[i])) ==> r[i] == s[i]
    ensures forall i :: 0 <= i < |r| && !IsAsciiLower(s[i]) && !IsSpace(s[i]) ==> r[i] == ' '
  {
    seq(|s|, i requires 0 <= i < |s| => if IsAsciiLower(s[i]) || IsSpace(s[i]) then s[i] else ' ')
  }

  /** The one-element list [w], or nothing when w is empty. */
  function Emit(w: string): (r: seq<string>)
    ensures |r| <= 1 && (r == [] <==> w == [])
  {
    if w == [] then [] else [w]
  }

  /**
   * `s.split()`: the maximal runs of non-whitespace characters of `s`, in
   * order. The definition reads `s` from its end; `cur` is the part of the
   * current run already read, which lies to the right of `s`.
   */
  function SplitRev(s: string, cur: string): (r: seq<string>)
    requires forall c :: c in cur ==> !IsSpace(c)
    ensures forall w :: w in r ==> w != [] && forall c :: c in w ==> !IsSpace(c) && (c in s || c in cur)
  {
    if s == [] then Emit(cur)
    else if IsSpace(s[|s| - 1]) then SplitRev(s[..|s| - 1], []) + Emit(cur)
    else SplitRev(s[..|s| - 1], [s[|s| - 1]] + cur)
  }

  /** `s.split()` with no separator: the whitespace-separated runs, none of them empty. */
  function Split(s: string): (r: seq<string>)
    ensures forall w :: w in r ==> w != [] && forall c :: c in w ==> !IsSpace(c) && c in s
  {
    SplitRev(s, [])
  }

  /** `_tokenize_basic`: every token is a non-empty word over a-z. */
  function Tokenize(text: string): (toks: seq<string>)
    ensures forall w :: w in toks ==> IsWord(w)
  {
    Split(Clean(Lower(text)))
  }

  predicate IsWord(w: string) {
    w != [] && forall c :: c in w ==> IsAsciiLower(c)
  }

  /** `" ".join(toks)` */
  function Join(toks: seq<string>): string {
    if toks == [] then [] else if |toks| == 1 then toks[0] else toks[0] + " " + Join(toks[1..])
  }

  /** The a-z characters of `s`, in order. */
  function Letters(s: string): (r: string)
    ensures |r| <= |s|
  {
    if s == [] then [] else Letters(s[..|s| - 1]) + (if IsAsciiLower(s[|s| - 1]) then [s[|s| - 1]] else [])
  }

  // ---------------------------------------------------------------------
  // Facts about the tokenizer
  // ---------------------------------------------------------------------

  lemma TokenizeEmpty()
    ensures Tokenize("") == []
  {
  }

  lemma LowerAppend(a: string, b: string)
    ensures Lower(a + b) == Lower(a) + Lower(b)
  {
  }

  /** Text that is already lower-case letters and whitespace is unchanged by lower-casing. */
  lemma LowerKeepsLowerText(s: string)
    requires forall c :: c in s ==> IsAsciiLower(c) || IsSpace(c)
    ensures Lower(s) == s
  {
    forall i | 0 <= i < |s|
      ensures Lower(s)[i] == s[i]
    {
      assert s[i] in s;
    }
  }

  /** Splitting at any whitespace character splits the two sides independently. */
  lemma {:induction false} SplitRevAppendSep(x: string, sep: char, y: string, cur: string)
    requires IsSpace(sep)
    requires forall c :: c in cur ==> !IsSpace(c)
    ensures SplitRev(x + [sep] + y, cur) == SplitRev(x, []) + SplitRev(y, cur)
  {
    var t := x + [sep] + y;
    if y == [] {
      assert t[..|t| - 1] == x;
    } else {
      var y', c := y[..|y| - 1], y[|y| - 1];
      assert t[|t| - 1] == c;
      assert t[..|t| - 1] == x + [sep] + y';
      if IsSpace(c) {
        SplitRevAppendSep(x, sep, y', []);
      } else {
        SplitRevAppendSep(x, sep, y', [c] + cur);
      }
    }
  }

  /**
   * Cleaning distributes over a join at any character that is not a-z: the
   * joining character stays if it is whitespace and becomes a space otherwise.
   */
  lemma CleanAppendSep(x: string, sep: char, y: string)
    requires !IsAsciiLower(sep)
    ensures Clean(x + [sep] + y) == Clean(x) + [if IsSpace(sep) then sep else ' '] + Clean(y)
  {
    var l, r := Clean(x + [sep] + y), Clean(x) + [if IsSpace(sep) then sep else ' '] + Clean(y);
    assert |l| == |r|;
    forall i | 0 <= i < |l|
      ensures l[i] == r[i]
    {
      if i < |x| {
        assert (x + [sep] + y)[i] == x[i];
      } else if i > |x| {
        assert (x + [sep] + y)[i] == y[i - |x| - 1];
      } else {
        assert (x + [sep] + y)[i] == sep;
      }
    }
  }

  /**
   * Any character that does not lower-case into a-z (whitespace, punctuation,
   * digits, ...) separates tokens: the tokens of `a + [sep] + b` are the
   * tokens of `a`, then those of `b`.
   */
  lemma TokenizeAppendSep(a: string, sep: char, b: string)
    requires !IsAsciiLower(LowerChar(sep))
    ensures Tokenize(a + [sep] + b) == Tokenize(a) + Tokenize(b)
  {
    var ls := LowerChar(sep);
    LowerAppend(a + [sep], b);
    LowerAppend(a, [sep]);
    assert Lower([sep]) == [ls];
    var la, lb := Lower(a), Lower(b);
    assert Lower(a + [sep] + b) == la + [ls] + lb;
    CleanAppendSep(la, ls, lb);
    SplitRevAppendSep(Clean(la), if IsSpace(ls) then ls else ' ', Clean(lb), []);
  }

  /** Tokenizing two texts joined by a space gives the tokens of the first, then those of the second. */
  lemma TokenizeAppend(a: string, b: string)
    ensures Tokenize(a + " " + b) == Tokenize(a) + Tokenize(b)
  {
    assert a + " " + b == a + [' '] + b;
    TokenizeAppendSep(a, ' ', b);
  }

  lemma {:induction false} SplitRevWord(w: string, cur: string)
    requires forall c :: c in cur ==> !IsSpace(c)
    requires forall c :: c in w ==> !IsSpace(c)
    requires w + cur != []
    ensures SplitRev(w, cur) == [w + cur]
  {
    if w == [] {
      assert w + cur == cur;
    } else {
      var w', c := w[..|w| - 1], w[|w| - 1];
      assert w' + ([c] + cur) == w + cur;
      assert c in w;
      SplitRevWord(w', [c] + cur);
    }
  }

  /** A single word is its own only token. */
  lemma TokenizeWord(w: string)
    requires IsWord(w)
    ensures Tokenize(w) == [w]
  {
    LowerKeepsLowerText(w);
    forall i | 0 <= i < |w|
      ensures Clean(w)[i] == w[i]
    {
      assert w[i] in w;
    }
    assert Clean(w) == w;
    assert forall c :: c in w ==> !IsSpace(c);
    assert w + [] == w;
    SplitRevWord(w, []);
  }

  /** Space-joined words tokenize back to exactly those words. */
  lemma {:induction false} TokenizeJoin(toks: seq<string>)
    requires forall w :: w in toks ==> IsWord(w)
    ensures Tokenize(Join(toks)) == toks
  {
    if toks == [] {
      TokenizeEmpty();
    } else if |toks| == 1 {
      TokenizeWord(toks[0]);
    } else {
      TokenizeWord(toks[0]);
      TokenizeJoin(toks[1..]);
      TokenizeAppend(toks[0], Join(toks[1..]));
    }
  }

  /** Re-tokenizing the space-joined tokens of a text gives the same tokens. */
  lemma TokenizeIdempotent(t: string)
    ensures Tokenize(Join(Tokenize(t))) == Tokenize(t)
  {
    TokenizeJoin(Tokenize(t));
  }

  lemma {:induction false} SplitRevLetters(s: string, cur: string)
    requires forall c :: c in cur ==> !IsSpace(c)
    requires forall c :: c in s ==> IsAsciiLower(c) || IsSpace(c)
    ensures Flatten(SplitRev(s, cur)) == Letters(s) + cur
  {
    if s == [] {
      assert Flatten(Emit(cur)) == cur by {
        if cur != [] {
          assert Flatten([cur]) == cur + Flatten([]);
        }
      }
    } else {
      var s', c := s[..|s| - 1], s[|s| - 1];
      assert forall x :: x in s' ==> x in s;
      assert c in s;
      if IsSpace(c) {
        SplitRevLetters(s', []);
        FlattenAppend(SplitRev(s', []), Emit(cur));
        assert Flatten(Emit(cur)) == cur by {
          if cur != [] {
            assert Flatten([cur]) == cur + Flatten([]);
          }
        }
      } else {
        SplitRevLetters(s', [c] + cur);
      }
    }
  }

  lemma {:induction false} CleanLetters(s: string)
    ensures Letters(Clean(s)) == Letters(s)
  {
    if s != [] {
      assert Clean(s)[..|s| - 1] == Clean(s[..|s| - 1]);
      CleanLetters(s[..|s| - 1]);
    }
  }

  /** The tokens, concatenated, are exactly the a-z characters of the lower-cased text, in order. */
  lemma TokenizeKeepsLetters(t: string)
    ensures Flatten(Tokenize(t)) == Letters(Lower(t))
  {
    CleanLetters(Lower(t));
    SplitRevLetters(Clean(Lower(t)), []);
  }

  // ---------------------------------------------------------------------
  // Scores
  // ---------------------------------------------------------------------

  /** `sum(1 for w in toks if w in words)` */
  function CountIn(toks: seq<string>, words: set<string>): (n: nat)
    ensures n <= |toks|
  {
    if toks == [] then 0 else (if toks[0] in words then 1 else 0) + CountIn(toks[1..], words)
  }

  lemma {:induction false} CountInAppend(a: seq<string>, b: seq<string>, words: set<string>)
    ensures CountIn(a + b, words) == CountIn(a, words) + CountIn(b, words)
  {
    if a == [] {
      assert a + b == b;
    } else {
      assert (a + b)[1..] == a[1..] + b;
      CountInAppend(a[1..], b, words);
    }
  }

  /** Counting two disjoint word sets separately is counting their union: no token is counted twice. */
  lemma {:induction false} CountInDisjoint(toks: seq<string>, p: set<string>, n: set<string>)
    requires p * n == {}
    ensures CountIn(toks, p) + CountIn(toks, n) == CountIn(toks, p + n)
  {
    if toks != [] {
      CountInDisjoint(toks[1..], p, n);
      assert toks[0] in p + n <==> toks[0] in p || toks[0] in n;
      assert toks[0] !in p * n;
    }
  }

  function PosCount(text: string): nat {
    CountIn(Tokenize(text), PosWords)
  }

  function NegCount(text: string): nat {
    CountIn(Tokenize(text), NegWords)
  }

  /** Together the two counts never exceed the number of tokens. */
  lemma ScoreBound(text: string)
    ensures PosCount(text) + NegCount(text) <= |Tokenize(text)|
  {
    LexiconDisjoint();
    CountInDisjoint(Tokenize(text), PosWords, NegWords);
  }

  /** The score of two texts joined by a space is the sum of their scores. */
  lemma ScoreAppend(a: string, b: string)
    ensures PosCount(a + " " + b) == PosCount(a) + PosCount(b)
    ensures NegCount(a + " " + b) == NegCount(a) + NegCount(b)
  {
    TokenizeAppend(a, b);
    CountInAppend(Tokenize(a), Tokenize(b), PosWords);
    CountInAppend(Tokenize(a), Tokenize(b), NegWords);
  }

  // ---------------------------------------------------------------------
  // Decision
  // ---------------------------------------------------------------------

  /** `predict_rule`: "positive" exactly when there are strictly more positive hits. */
  function PredictRule(text: string): (r: string)
    ensures IsLabel(r)
    ensures r == Positive <==> PosCount(text) > NegCount(text)
    ensures r == Negative <==> PosCount(text) <= NegCount(text)
  {
    var toks := Tokenize(text);
    var posCnt := CountIn(toks, PosWords);
    var negCnt := CountIn(toks, NegWords);
    if posCnt > negCnt then Positive else Negative
  }

  /** Ties, including no hits at all, go to "negative". */
  lemma RuleTieIsNegative(text: string)
    requires PosCount(text) == NegCount(text)
    ensures PredictRule(text) == Negative
  {
  }

  lemma RuleEmptyIsNegative()
    ensures PredictRule("") == Negative
  {
    TokenizeEmpty();
  }

  /**
   * Appending (after a space) a text that leans the same way never flips
   * the decision: positive stays positive when the addition has at least as
   * many positive hits as negative ones, and negative stays negative when it
   * has at most as many.
   */
  lemma RuleAppendKeepsLean(a: string, b: string)
    ensures PredictRule(a) == Positive && PosCount(b) >= NegCount(b) ==> PredictRule(a + " " + b) == Positive
    ensures PredictRule(a) == Negative && PosCount(b) <= NegCount(b) ==> PredictRule(a + " " + b) == Negative
  {
    ScoreAppend(a, b);
  }

  /** `predict_batch`: the rule classifier applied to each text, in order. */
  function PredictBatch(texts: seq<string>): (labels: seq<string>)
    ensures |labels| == |texts|
    ensures forall i :: 0 <= i < |texts| ==> labels[i] == PredictRule(texts[i])
  {
    seq(|texts|, i requires 0 <= i < |texts| => PredictRule(texts[i]))
  }

  /** Classifying a list in two parts gives the same labels as classifying it whole. */
  lemma PredictBatchAppend(a: seq<string>, b: seq<string>)
    ensures PredictBatch(a + b) == PredictBatch(a) + PredictBatch(b)
  {
    var whole, parts := PredictBatch(a + b), PredictBatch(a) + PredictBatch(b);
    forall i | 0 <= i < |a + b|
      ensures whole[i] == parts[i]
    {
      if i < |a| {
        assert (a + b)[i] == a[i];
      } else {
        assert (a + b)[i] == b[i - |a|];
      }
    }
  }

  // ---------------------------------------------------------------------
  // Demo sentences
  // ---------------------------------------------------------------------

  /** A short piece of text whose cleaned form is one word, possibly followed by a separator. */
  lemma TokenizeOneWord(t: string, w: string)
    requires IsWord(w)
    requires Clean(Lower(t)) == w || Clean(Lower(t)) == w + " "
    ensures Tokenize(t) == [w]
  {
    assert forall c :: c in w ==> !IsSpace(c);
    assert w + [] == w;
    SplitRevWord(w, []);
    if Clean(Lower(t)) == w + " " {
      assert w + " " == w + [' '] + [];
      SplitRevAppendSep(w, ' ', [], []);
    }
  }

  /** A word of ASCII letters, in any case, is one token: the word in lower case. */
  lemma TokenizeLetterWord(w: string)
    requires w != []
    requires forall c :: c in w ==> IsAsciiLower(c) || IsAsciiUpper(c)
    ensures Tokenize(w) == [Lower(w)]
  {
    forall i | 0 <= i < |w|
      ensures IsAsciiLower(Lower(w)[i])
    {
      assert w[i] in w;
    }
    assert Clean(Lower(w)) == Lower(w);
    TokenizeOneWord(w, Lower(w));
  }

  /** A lower-case word followed by one punctuation mark is one token: the word. */
  lemma TokenizePunctuatedWord(w: string, mark: string)
    requires IsWord(w)
    requires |mark| == 1 && !IsAsciiLower(mark[0]) && !IsAsciiUpper(mark[0])
    requires mark[0] != '\U{212A}' && !IsSpace(mark[0])
    ensures Tokenize(w + mark) == [w]
  {
    LowerKeepsLowerText(w);
    LowerAppend(w, mark);
    forall i | 0 <= i < |w|
      ensures Clean(Lower(w + mark))[i] == w[i]
    {
      assert w[i] in w;
    }
    assert Clean(Lower(w + mark)) == w + " ";
    TokenizeOneWord(w + mark, w);
  }
}
