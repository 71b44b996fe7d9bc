# Sentiment classifier: a verified model of its decision logic

The repository classifies English sentences as `"positive"` or `"negative"`
in two ways. This project models both in Dafny.

- **Rule-based classifier** (`src/baseline.py`). The module `Baseline` models it:
  - The tokenizer lower-cases the text, blanks out every character that is neither `a-z` nor whitespace, and splits on whitespace.
  - Two fixed lexicons supply the words to count.
  - The text's hits in each lexicon are counted.
  - The decision answers `"positive"` only when there are strictly more positive hits than negative ones.
  - The batch function maps the decision over a list.

  `BaselineDemo` classifies the three sample sentences of the file's demo block.

- **Transformer classifier** (`src/pipeline.py`). The module `Pipeline` models the logic around the network:
  - the choice of device;
  - the id-to-label table;
  - decoding one row of class scores through argmax and that table;
  - the batching loop of `predict_batch`, as an imperative `method` with its loop invariant.

  The tokenizer and the network together are one opaque function `infer`. It maps a chunk of texts to one row of integer class scores per text, two scores per row.

`Labels` holds the two label strings. `Sequences` holds `Min` and `Flatten`.

Two facts sit beside the functions:

- The tokenizer maps any text and the space-joined text of its tokens to the same tokens, so tokenizing is idempotent.
- Given a pointwise model, whose scores for a text do not depend on the other texts in its chunk, `predict_batch` gives every text the label `predict_one` gives it, for any batch size.

The sample sentence "It was good but also a bit disappointing." comes out positive. Its one hit is the positive word "good". "disappointing" is not in the negative lexicon: only "disappointed" is, and matching is exact set membership. `BaselineDemo.ScenarioDisappointing` proves the positive answer.

## Model

| member | source | states |
|---|---|---|
| Baseline.LexiconDisjoint | src/baseline.py:10-16 | no word is in both the positive and the negative lexicon |
| Baseline.LowerChar | src/baseline.py:21 | the result is never an ASCII capital; it is in a-z exactly when the input was a letter a-z, A-Z or the Kelvin sign; each capital becomes the same letter in lower case and the Kelvin sign becomes `k`; a-z and whitespace are unchanged |
| Baseline.Lower | src/baseline.py:21 | `lower()` keeps the length and lower-cases character by character |
| Baseline.Clean | src/baseline.py:22 | the length is kept; every result character is a-z or whitespace; each a-z or whitespace character is kept as it is, and every other character becomes a space |
| Baseline.SplitRev | src/baseline.py:23 | every run found is non-empty, free of whitespace, and made of characters of the input |
| Baseline.Split | src/baseline.py:23 | `split()` yields only non-empty, whitespace-free runs of the input's characters |
| Baseline.Tokenize | src/baseline.py:19-23 | every token is a non-empty word over a-z |
| Baseline.TokenizeEmpty | src/baseline.py:19-23 | the empty text has no tokens |
| Baseline.LowerAppend | src/baseline.py:21 | lower-casing distributes over concatenation |
| Baseline.LowerKeepsLowerText | src/baseline.py:21 | text made of a-z letters and whitespace characters is unchanged by lower-casing |
| Baseline.CleanAppendSep | src/baseline.py:22 | cleaning distributes over a join at any character outside a-z: the joining character stays if it is whitespace and becomes a space otherwise |
| Baseline.SplitRevAppendSep | src/baseline.py:23 | splitting at any whitespace character splits the two sides independently |
| Baseline.SplitRevWord | src/baseline.py:23 | a run with no whitespace is one piece |
| Baseline.TokenizeAppendSep | src/baseline.py:19-23 | any character that does not lower-case into a-z (whitespace, punctuation, digits) separates tokens: the tokens of `a + [c] + b` are those of `a` followed by those of `b` |
| Baseline.TokenizeAppend | src/baseline.py:19-23 | the tokens of `a + " " + b` are the tokens of `a` followed by those of `b` |
| Baseline.TokenizeWord | src/baseline.py:19-23 | a word over a-z is exactly one token, itself |
| Baseline.TokenizeJoin | src/baseline.py:19-23 | words over a-z joined by spaces tokenize back to exactly those words |
| Baseline.TokenizeIdempotent | src/baseline.py:19-23 | re-tokenizing the space-joined tokens of a text gives the text's tokens |
| Baseline.SplitRevLetters | src/baseline.py:23 | the pieces of a split, concatenated, are the input's a-z characters in order |
| Baseline.CleanLetters | src/baseline.py:22 | cleaning keeps every a-z character, in order, and adds none |
| Baseline.TokenizeKeepsLetters | src/baseline.py:19-23 | the tokens, concatenated, are exactly the a-z characters of the lower-cased text, in order: nothing is lost, reordered or invented |
| Baseline.TokenizeOneWord | src/baseline.py:19-23 | text that cleans to one word, possibly followed by a separator, is that one token |
| Baseline.TokenizeLetterWord | src/baseline.py:19-23 | a word of ASCII letters in any case is one token, its lower-case form |
| Baseline.TokenizePunctuatedWord | src/baseline.py:19-23 | a lower-case word followed by one punctuation mark is one token, the word |
| Baseline.CountIn | src/baseline.py:30-31 | a hit count never exceeds the number of tokens |
| Baseline.CountInAppend | src/baseline.py:30-31 | hit counts add up over concatenated token lists |
| Baseline.CountInDisjoint | src/baseline.py:30-31 | for disjoint word sets, the two counts add up to the count of their union, so no token is counted twice |
| Baseline.ScoreBound | src/baseline.py:30-31 | positive hits plus negative hits never exceed the number of tokens |
| Baseline.ScoreAppend | src/baseline.py:30-31 | both counts of `a + " " + b` are the sums of the counts of `a` and of `b` |
| Baseline.PredictRule | src/baseline.py:26-38 | the answer is one of the two labels; `"positive"` exactly when positive hits outnumber negative hits, `"negative"` exactly when they do not |
| Baseline.RuleTieIsNegative | src/baseline.py:33-38 | equal counts, 0/0 included, give `"negative"` |
| Baseline.RuleEmptyIsNegative | src/baseline.py:28-38 | the empty text is classified `"negative"` |
| Baseline.RuleAppendKeepsLean | src/baseline.py:30-38 | appending text that leans the same way never flips a positive or a negative answer |
| Baseline.PredictBatch | src/baseline.py:41-43 | one label per text, label i being the rule's answer for text i |
| Baseline.PredictBatchAppend | src/baseline.py:41-43 | classifying a list in two parts gives the same labels as classifying it whole |
| BaselineDemo.SeparatorsSplitTokens | src/baseline.py:19-23 | "good\tbad" and "good,bad" both tokenize to good, bad |
| BaselineDemo.ScenarioLoveTokens | src/baseline.py:49 | "I love this movie so much!" tokenizes to i, love, this, movie, so, much |
| BaselineDemo.ScenarioLove | src/baseline.py:49 | that sentence scores 1 positive / 0 negative and is classified positive |
| BaselineDemo.ScenarioWorstTokens | src/baseline.py:50 | "This is the worst thing ever." tokenizes to this, is, the, worst, thing, ever |
| BaselineDemo.ScenarioWorst | src/baseline.py:50 | that sentence scores 0 / 1 and is classified negative |
| BaselineDemo.ScenarioDisappointingTokens | src/baseline.py:51 | "It was good but also a bit disappointing." tokenizes to it, was, good, but, also, a, bit, disappointing |
| BaselineDemo.ScenarioDisappointing | src/baseline.py:51 | that sentence scores 1 / 0 and is classified positive, since "disappointing" is not a negative word and only "disappointed" is |
| Pipeline.SelectDevice | src/pipeline.py:22-25 | the device is never empty; a truthy preference is used verbatim; otherwise "cuda" with an accelerator, else "cpu" |
| Pipeline.EmptyPreferenceIsAuto | src/pipeline.py:22-25 | an empty-string preference behaves exactly like no preference |
| Pipeline.SelectDeviceStable | src/pipeline.py:22-25 | feeding the chosen device back in as the preference chooses it again, whatever accelerator is present |
| Pipeline.IdToLabelBijective | src/pipeline.py:31-34 | the label table maps exactly the ids {0, 1}, to labels only, injectively and onto both labels |
| Pipeline.Argmax | src/pipeline.py:55 | the index is in range, its score is a maximum of the row, and every earlier score is strictly smaller |
| Pipeline.ArgmaxUnique | src/pipeline.py:55 | any index with those properties is the argmax, so the decoded class is determined by the row |
| Pipeline.Chunks | src/pipeline.py:63-64 | there are no chunks exactly when there are no texts |
| Pipeline.ChunksCover | src/pipeline.py:63-64 | the chunks, concatenated in order, are exactly the input |
| Pipeline.ChunkCount | src/pipeline.py:63 | the number of chunks is the number of loop iterations, the number of texts divided by b, rounded up |
| Pipeline.ChunkAt | src/pipeline.py:63-64 | chunk k is `texts[k*b : k*b + b]`, cut at the end of the list, and starts inside the list |
| Pipeline.ChunkSize | src/pipeline.py:63-64 | every chunk holds between 1 and b texts, and only the last may hold fewer than b |
| Pipeline.SentimentClassifier.constructor | src/pipeline.py:12-34 | the device is the one `SelectDevice` chooses, the label table is {0: negative, 1: positive}, and the model is the given one |
| Pipeline.SentimentClassifier.Decode | src/pipeline.py:55-56 | a two-score row decodes to one of the labels, `"positive"` exactly when the positive score is strictly larger, so ties decode to `"negative"` |
| Pipeline.SentimentClassifier.DecodeAll | src/pipeline.py:69-71 | one label per score row, in row order |
| Pipeline.SentimentClassifier.PredictOne | src/pipeline.py:49-56 | the answer is a label, `"positive"` exactly when the positive score of the text's own row is strictly larger |
| Pipeline.SentimentClassifier.DecodeChunks | src/pipeline.py:63-71 | decoding a list of chunks gives as many labels as the chunks hold texts |
| Pipeline.SentimentClassifier.BatchedLength | src/pipeline.py:59-73 | the batch result has one label per input text |
| Pipeline.SentimentClassifier.BatchedStep | src/pipeline.py:63-71 | the first chunk's labels come first, followed by the labels of the remaining texts |
| Pipeline.SentimentClassifier.BatchedFrom | src/pipeline.py:63-71 | from any start position, the chunk at that position is labelled before everything after it |
| Pipeline.SentimentClassifier.BatchedAgreesWithSingle | src/pipeline.py:49-71 | with a pointwise model, label i of a batch run equals `predict_one` of text i, for any batch size |
| Pipeline.SentimentClassifier.BatchSizeIrrelevant | src/pipeline.py:59-73 | with a pointwise model, two batch sizes give the same labels |
| Pipeline.SentimentClassifier.SingletonBatch | src/pipeline.py:49-73 | a one-text batch is labelled from the same row as `predict_one` uses |
| Pipeline.SentimentClassifier.PredictBatch | src/pipeline.py:59-73 | the loop returns the chunk-by-chunk labels in chunk order, exactly one per text (so `[]` for no texts), and, with a pointwise model, label i equals `predict_one` of text i |

## Left out

- Baseline.LowerChar: models `lower()` only for ASCII capitals and the Kelvin sign. The capital I with dot above (U+0130) lower-cases in Python to "i" plus a combining dot, which would add an `i` to the tokens; the model keeps it unchanged, so it acts as a separator. Every other non-ASCII character is left unchanged too; its real lower case is never in a-z, so the tokens are the same.
- Model loading (`from_pretrained`), `.to(device)`, `.eval()` and `torch.no_grad()` (src/pipeline.py:18-19, 27-28, 48, 58) are library calls with no decision logic. They are not modelled.
- The encoder call `_prepare_inputs` (src/pipeline.py:36-46) and the network itself are the opaque `infer`. The model only assumes one row per input and two scores per row. Padding, truncation at 128 tokens and tensors are not modelled.
- Scores are integers, not floating-point logits.
- Pipeline.Argmax: picks the first maximal index. That is a modelling choice for `torch.argmax`, whose tie rule is not visible in the source.
- `torch.cuda.is_available()` is the parameter `cudaAvailable` of `SelectDevice` and of the constructor.
- `model_name` is not modelled: which pretrained model is loaded is exactly what `infer` abstracts.
- Pipeline.SentimentClassifier.PredictBatch: requires `batchSize >= 1`. Python's `range` raises for 0 and yields nothing for negative sizes; neither case is modelled.
- The `__main__` blocks only print (src/baseline.py:47-54, src/pipeline.py:77-86). The baseline's sample sentences are proved as the `BaselineDemo` scenarios. The transformer's samples depend on the network's scores, which are not modelled.
