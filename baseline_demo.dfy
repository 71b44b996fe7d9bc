/**
 * The sample sentences of the baseline's demo block, classified by the rule
 * model. Each sentence is split at its middle space into two halves, and each
 * half into words; the tokens are assembled pairwise with TokenizeAppend and
 * the keyword hits are counted half by half with CountInAppend.
 */
module BaselineDemo {
  import opened Labels
  import opened Sequences
  import opened Baseline

  lemma ScenarioLoveText(text: string)
    requires text == "I love this movie so much!"
    ensures text == "I love this" + " " + "movie so much!"
  {
  }

  lemma ScenarioLoveFrontText(half: string)
    requires half == "I love this"
    ensures half == ("I" + " " + "love") + " " + "this"
  {
  }

  lemma ScenarioLoveBackText(half: string)
    requires half == "movie so much!"
    ensures half == ("movie" + " " + "so") + " " + ("much" + "!")
  {
  }

  lemma ScenarioLoveWords0To1()
    ensures Tokenize("I" + " " + "love") == ["i", "love"]
  {
    TokenizeLetterWord("I");
    assert Lower("I") == "i";
    TokenizeWord("love");
    TokenizeAppend("I", "love");
  }

  lemma ScenarioLoveWords0To2()
    ensures Tokenize(("I" + " " + "love") + " " + "this") == ["i", "love", "this"]
  {
    ScenarioLoveWords0To1();
    TokenizeWord("this");
    TokenizeAppend("I" + " " + "love", "this");
  }

  lemma ScenarioLoveWords3To4()
    ensures Tokenize("movie" + " " + "so") == ["movie", "so"]
  {
    TokenizeWord("movie");
    TokenizeWord("so");
    TokenizeAppend("movie", "so");
  }

  lemma ScenarioLoveWords3To5()
    ensures Tokenize(("movie" + " " + "so") + " " + ("much" + "!")) == ["movie", "so", "much"]
  {
    ScenarioLoveWords3To4();
    TokenizePunctuatedWord("much", "!");
    TokenizeAppend("movie" + " " + "so", "much" + "!");
  }

  lemma ScenarioLoveWords0To5()
    ensures Tokenize((("I" + " " + "love") + " " + "this") + " " + (("movie" + " " + "so") + " " + ("much" + "!"))) == ["i", "love", "this", "movie", "so", "much"]
  {
    ScenarioLoveWords0To2();
    ScenarioLoveWords3To5();
    TokenizeAppend(("I" + " " + "love") + " " + "this", ("movie" + " " + "so") + " " + ("much" + "!"));
  }

  lemma ScenarioLoveTokens(text: string)
    requires text == "I love this movie so much!"
    ensures Tokenize(text) == ["i", "love", "this", "movie", "so", "much"]
  {
    ScenarioLoveText(text);
    ScenarioLoveFrontText("I love this");
    ScenarioLoveBackText("movie so much!");
    ScenarioLoveWords0To5();
  }

  lemma ScenarioLoveFrontHits()
    ensures CountIn(["i", "love", "this"], PosWords) == 1
    ensures CountIn(["i", "love", "this"], NegWords) == 0
  {
  }

  lemma ScenarioLoveBackHits()
    ensures CountIn(["movie", "so", "much"], PosWords) == 0
    ensures CountIn(["movie", "so", "much"], NegWords) == 0
  {
  }

  /** Sample sentence: one positive hit ("love") and no negative one, so the label is positive. */
  lemma ScenarioLove(text: string)
    requires text == "I love this movie so much!"
    ensures PosCount(text) == 1 && NegCount(text) == 0
    ensures PredictRule(text) == Positive
  {
    ScenarioLoveTokens(text);
    ScenarioLoveFrontHits();
    ScenarioLoveBackHits();
    CountInAppend(["i", "love", "this"], ["movie", "so", "much"], PosWords);
    CountInAppend(["i", "love", "this"], ["movie", "so", "much"], NegWords);
    assert ["i", "love", "this"] + ["movie", "so", "much"] == ["i", "love", "this", "movie", "so", "much"];
  }

  lemma ScenarioWorstText(text: string)
    requires text == "This is the worst thing ever."
    ensures text == "This is the" + " " + "worst thing ever."
  {
  }

  lemma ScenarioWorstFrontText(half: string)
    requires half == "This is the"
    ensures half == ("This" + " " + "is") + " " + "the"
  {
  }

  lemma ScenarioWorstBackText(half: string)
    requires half == "worst thing ever."
    ensures half == ("worst" + " " + "thing") + " " + ("ever" + ".")
  {
  }

  lemma ScenarioWorstWords0To1()
    ensures Tokenize("This" + " " + "is") == ["this", "is"]
  {
    TokenizeLetterWord("This");
    assert Lower("This") == "this";
    TokenizeWord("is");
    TokenizeAppend("This", "is");
  }

  lemma ScenarioWorstWords0To2()
    ensures Tokenize(("This" + " " + "is") + " " + "the") == ["this", "is", "the"]
  {
    ScenarioWorstWords0To1();
    TokenizeWord("the");
    TokenizeAppend("This" + " " + "is", "the");
  }

  lemma ScenarioWorstWords3To4()
    ensures Tokenize("worst" + " " + "thing") == ["worst", "thing"]
  {
    TokenizeWord("worst");
    TokenizeWord("thing");
    TokenizeAppend("worst", "thing");
  }

  lemma ScenarioWorstWords3To5()
    ensures Tokenize(("worst" + " " + "thing") + " " + ("ever" + ".")) == ["worst", "thing", "ever"]
  {
    ScenarioWorstWords3To4();
    TokenizePunctuatedWord("ever", ".");
    TokenizeAppend("worst" + " " + "thing", "ever" + ".");
  }

  lemma ScenarioWorstWords0To5()
    ensures Tokenize((("This" + " " + "is") + " " + "the") + " " + (("worst" + " " + "thing") + " " + ("ever" + "."))) == ["this", "is", "the", "worst", "thing", "ever"]
  {
    ScenarioWorstWords0To2();
    ScenarioWorstWords3To5();
    TokenizeAppend(("This" + " " + "is") + " " + "the", ("worst" + " " + "thing") + " " + ("ever" + "."));
  }

  lemma ScenarioWorstTokens(text: string)
    requires text == "This is the worst thing ever."
    ensures Tokenize(text) == ["this", "is", "the", "worst", "thing", "ever"]
  {
    ScenarioWorstText(text);
    ScenarioWorstFrontText("This is the");
    ScenarioWorstBackText("worst thing ever.");
    ScenarioWorstWords0To5();
  }

  lemma ScenarioWorstFrontHits()
    ensures CountIn(["this", "is", "the"], PosWords) == 0
    ensures CountIn(["this", "is", "the"], NegWords) == 0
  {
  }

  lemma ScenarioWorstBackHits()
    ensures CountIn(["worst", "thing", "ever"], PosWords) == 0
    ensures CountIn(["worst", "thing", "ever"], NegWords) == 1
  {
  }

  /** Sample sentence: one negative hit ("worst") and no positive one, so the label is negative. */
  lemma ScenarioWorst(text: string)
    requires text == "This is the worst thing ever."
    ensures PosCount(text) == 0 && NegCount(text) == 1
    ensures PredictRule(text) == Negative
  {
    ScenarioWorstTokens(text);
    ScenarioWorstFrontHits();
    ScenarioWorstBackHits();
    CountInAppend(["this", "is", "the"], ["worst", "thing", "ever"], PosWords);
    CountInAppend(["this", "is", "the"], ["worst", "thing", "ever"], NegWords);
    assert ["this", "is", "the"] + ["worst", "thing", "ever"] == ["this", "is", "the", "worst", "thing", "ever"];
  }

  lemma ScenarioDisappointingText(text: string)
    requires text == "It was good but also a bit disappointing."
    ensures text == "It was good but" + " " + "also a bit disappointing."
  {
  }

  lemma ScenarioDisappointingFrontText(half: string)
    requires half == "It was good but"
    ensures half == ("It" + " " + "was") + " " + ("good" + " " + "but")
  {
  }

  lemma ScenarioDisappointingBackText(half: string)
    requires half == "also a bit disappointing."
    ensures half == ("also" + " " + "a") + " " + ("bit" + " " + ("disappointing" + "."))
  {
  }

  lemma ScenarioDisappointingWords0To1()
    ensures Tokenize("It" + " " + "was") == ["it", "was"]
  {
    TokenizeLetterWord("It");
    assert Lower("It") == "it";
    TokenizeWord("was");
    TokenizeAppend("It", "was");
  }

  lemma ScenarioDisappointingWords2To3()
    ensures Tokenize("good" + " " + "but") == ["good", "but"]
  {
    TokenizeWord("good");
    TokenizeWord("but");
    TokenizeAppend("good", "but");
  }

  lemma ScenarioDisappointingWords0To3()
    ensures Tokenize(("It" + " " + "was") + " " + ("good" + " " + "but")) == ["it", "was", "good", "but"]
  {
    ScenarioDisappointingWords0To1();
    ScenarioDisappointingWords2To3();
    TokenizeAppend("It" + " " + "was", "good" + " " + "but");
  }

  lemma ScenarioDisappointingWords4To5()
    ensures Tokenize("also" + " " + "a") == ["also", "a"]
  {
    TokenizeWord("also");
    TokenizeWord("a");
    TokenizeAppend("also", "a");
  }

  lemma ScenarioDisappointingWords6To7()
    ensures Tokenize("bit" + " " + ("disappointing" + ".")) == ["bit", "disappointing"]
  {
    TokenizeWord("bit");
    TokenizePunctuatedWord("disappointing", ".");
    TokenizeAppend("bit", "disappointing" + ".");
  }

  lemma ScenarioDisappointingWords4To7()
    ensures Tokenize(("also" + " " + "a") + " " + ("bit" + " " + ("disappointing" + "."))) == ["also", "a", "bit", "disappointing"]
  {
    ScenarioDisappointingWords4To5();
    ScenarioDisappointingWords6To7();
    TokenizeAppend("also" + " " + "a", "bit" + " " + ("disappointing" + "."));
  }

  lemma ScenarioDisappointingWords0To7()
    ensures Tokenize((("It" + " " + "was") + " " + ("good" + " " + "but")) + " " + (("also" + " " + "a") + " " + ("bit" + " " + ("disappointing" + ".")))) == ["it", "was", "good", "but", "also", "a", "bit", "disappointing"]
  {
    ScenarioDisappointingWords0To3();
    ScenarioDisappointingWords4To7();
    TokenizeAppend(("It" + " " + "was") + " " + ("good" + " " + "but"), ("also" + " " + "a") + " " + ("bit" + " " + ("disappointing" + ".")));
  }

  lemma ScenarioDisappointingTokens(text: string)
    requires text == "It was good but also a bit disappointing."
    ensures Tokenize(text) == ["it", "was", "good", "but", "also", "a", "bit", "disappointing"]
  {
    ScenarioDisappointingText(text);
    ScenarioDisappointingFrontText("It was good but");
    ScenarioDisappointingBackText("also a bit disappointing.");
    ScenarioDisappointingWords0To7();
  }

  lemma ScenarioDisappointingFrontHits()
    ensures CountIn(["it", "was", "good", "but"], PosWords) == 1
    ensures CountIn(["it", "was", "good", "but"], NegWords) == 0
  {
  }

  lemma ScenarioDisappointingBackHits()
    ensures CountIn(["also", "a", "bit", "disappointing"], PosWords) == 0
    ensures CountIn(["also", "a", "bit", "disappointing"], NegWords) == 0
  {
  }

  /** Sample sentence: "good" is a positive hit, while "disappointing" is not in the
   * negative lexicon (only "disappointed" is), so the rule model answers
   * positive. */
  lemma ScenarioDisappointing(text: string)
    requires text == "It was good but also a bit disappointing."
    ensures PosCount(text) == 1 && NegCount(text) == 0
    ensures PredictRule(text) == Positive
    ensures "disappointing" !in NegWords && "disappointed" in NegWords
  {
    ScenarioDisappointingTokens(text);
    ScenarioDisappointingFrontHits();
    ScenarioDisappointingBackHits();
    CountInAppend(["it", "was", "good", "but"], ["also", "a", "bit", "disappointing"], PosWords);
    CountInAppend(["it", "was", "good", "but"], ["also", "a", "bit", "disappointing"], NegWords);
    assert ["it", "was", "good", "but"] + ["also", "a", "bit", "disappointing"] == ["it", "was", "good", "but", "also", "a", "bit", "disappointing"];
  }

  /** A tab separates tokens just as a space does, and so does punctuation with no space after it. */
  lemma SeparatorsSplitTokens(tabbed: string, punctuated: string)
    requires tabbed == "good\tbad" && punctuated == "good,bad"
    ensures Tokenize(tabbed) == ["good", "bad"]
    ensures Tokenize(punctuated) == ["good", "bad"]
  {
    TokenizeWord("good");
    TokenizeWord("bad");
    assert tabbed == "good" + ['\t'] + "bad";
    TokenizeAppendSep("good", '\t', "bad");
    assert punctuated == "good" + [','] + "bad";
    TokenizeAppendSep("good", ',', "bad");
  }
}
